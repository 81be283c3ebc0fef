/**
 * The plain-text credential table of the web front end: one row per account
 * (userId, username, password). Usernames are compared case-insensitively,
 * passwords exactly. New accounts get an id above every id already used by
 * the credential table or by the rating table.
 */
module Auth {
  import opened Options
  import Tables
  import Text

  datatype Credential = Credential(userId: int, username: string, password: string)

  /** `a.lower() == b.lower()`. */
  predicate SameName(a: string, b: string) {
    Text.Lower(a) == Text.Lower(b)
  }

  /** Some credential row carries `id`. */
  predicate HasId(creds: seq<Credential>, id: int) {
    exists c :: c in creds && c.userId == id
  }

  /** The position of the first row whose username matches `name`, if any. */
  function FirstMatch(creds: seq<Credential>, name: string): (i: Option<nat>)
    ensures i.None? <==> forall k :: 0 <= k < |creds| ==> !SameName(creds[k].username, name)
    ensures i.Some? ==> i.value < |creds| && SameName(creds[i.value].username, name)
    ensures i.Some? ==> forall k :: 0 <= k < i.value ==> !SameName(creds[k].username, name)
    decreases |creds|
  {
    if creds == [] then None
    else if SameName(creds[0].username, name) then Some(0)
    else
      var rest := FirstMatch(creds[1..], name);
      assert forall k :: 1 <= k < |creds| ==> creds[k] == creds[1..][k - 1];
      match rest
      case None => None
      case Some(j) => Some(j + 1)
  }

  /**
   * `login_user`: the first row whose username matches decides; it logs in
   * only when its password is exactly the one given. A later row with the
   * same name is never consulted.
   */
  function Login(creds: seq<Credential>, name: string, password: string): Option<int> {
    match FirstMatch(creds, name)
    case None => None
    case Some(i) => if creds[i].password == password then Some(creds[i].userId) else None
  }

  /** Login succeeds with `id` exactly when the first row matching the name has that password and that id. */
  lemma LoginSucceedsIff(creds: seq<Credential>, name: string, password: string, id: int)
    ensures Login(creds, name, password) == Some(id) <==>
      exists i :: 0 <= i < |creds| && SameName(creds[i].username, name)
        && creds[i].password == password && creds[i].userId == id
        && forall k :: 0 <= k < i ==> !SameName(creds[k].username, name)
  {
    var m := FirstMatch(creds, name);
    if Login(creds, name, password) == Some(id) {
      assert m.Some?;
      var i := m.value;
      assert 0 <= i < |creds| && SameName(creds[i].username, name)
        && creds[i].password == password && creds[i].userId == id;
    }
    if exists i :: 0 <= i < |creds| && SameName(creds[i].username, name)
        && creds[i].password == password && creds[i].userId == id
        && forall k :: 0 <= k < i ==> !SameName(creds[k].username, name)
    {
      var i :| 0 <= i < |creds| && SameName(creds[i].username, name)
        && creds[i].password == password && creds[i].userId == id
        && forall k :: 0 <= k < i ==> !SameName(creds[k].username, name);
      assert m.Some?;
      var j := m.value;
      assert !(j < i) && !(i < j);
    }
  }

  /** Login fails on an empty table and whenever no row carries the name. */
  lemma LoginUnknownFails(creds: seq<Credential>, name: string, password: string)
    requires forall c :: c in creds ==> !SameName(c.username, name)
    ensures Login(creds, name, password) == None
  {
    assert FirstMatch(creds, name).None? by {
      forall k | 0 <= k < |creds| ensures !SameName(creds[k].username, name) {
        assert creds[k] in creds;
      }
    }
  }

  /**
   * The `userId` column of the credential table. It is the same projection
   * as `Tables.UserIdColumn`, over the other table's row type.
   */
  function CredentialIds(creds: seq<Credential>): (ids: seq<int>)
    ensures |ids| == |creds|
    ensures forall i :: 0 <= i < |creds| ==> ids[i] == creds[i].userId
  {
    seq(|creds|, i requires 0 <= i < |creds| => creds[i].userId)
  }

  /**
   * `_get_new_user_id`: one more than the larger of the two tables' maximum
   * ids, where an empty table counts as 0. The result exceeds every id in
   * use; it is one above an id in use, or 1 when both maxima are at most 0
   * and one table is empty.
   */
  function NewId(ratings: seq<Tables.Rating>, creds: seq<Credential>): (id: int)
    ensures forall r :: r in ratings ==> r.userId < id
    ensures forall c :: c in creds ==> c.userId < id
    ensures ratings == [] && creds == [] ==> id == 1
    ensures ratings == [] || creds == [] ==> id >= 1
    ensures (id - 1) in Tables.UserIds(ratings) || HasId(creds, id - 1)
      || (id == 1 && (ratings == [] || creds == []))
  {
    var maxRatings := Tables.MaxOr0(Tables.UserIdColumn(ratings));
    var maxAuth := Tables.MaxOr0(CredentialIds(creds));
    NewIdBounds(ratings, creds);
    (if maxRatings >= maxAuth then maxRatings else maxAuth) + 1
  }

  /** The two maxima bound every id of their table and, for a non-empty table, are one of its ids. */
  lemma NewIdBounds(ratings: seq<Tables.Rating>, creds: seq<Credential>)
    ensures forall r :: r in ratings ==> r.userId <= Tables.MaxOr0(Tables.UserIdColumn(ratings))
    ensures forall c :: c in creds ==> c.userId <= Tables.MaxOr0(CredentialIds(creds))
    ensures ratings != [] ==> Tables.MaxOr0(Tables.UserIdColumn(ratings)) in Tables.UserIds(ratings)
    ensures creds != [] ==> HasId(creds, Tables.MaxOr0(CredentialIds(creds)))
  {
    var rc := Tables.UserIdColumn(ratings);
    var cc := CredentialIds(creds);
    forall r | r in ratings ensures r.userId <= Tables.MaxOr0(rc) {
      var j :| 0 <= j < |ratings| && ratings[j] == r;
      assert rc[j] == r.userId;
    }
    forall c | c in creds ensures c.userId <= Tables.MaxOr0(cc) {
      var j :| 0 <= j < |creds| && creds[j] == c;
      assert cc[j] == c.userId;
    }
    if ratings != [] {
      var k :| 0 <= k < |rc| && rc[k] == Tables.MaxOr0(rc);
      assert ratings[k] in ratings;
    }
    if creds != [] {
      var k :| 0 <= k < |cc| && cc[k] == Tables.MaxOr0(cc);
      assert creds[k] in creds;
    }
  }

  /** The method that reads the two tables' id columns and computes `NewId`. */
  method NewUserId(ratings: seq<Tables.Rating>, creds: seq<Credential>) returns (id: int)
    ensures id == NewId(ratings, creds)
  {
    var maxRatings := 0;
    var maxAuth := 0;
    if ratings != [] {
      maxRatings := Tables.MaxOf(Tables.UserIdColumn(ratings));
    }
    if creds != [] {
      maxAuth := Tables.MaxOf(CredentialIds(creds));
    }
    id := (if maxRatings >= maxAuth then maxRatings else maxAuth) + 1;
  }

  datatype Registration = Exists | Registered(id: int)

  /** The credential file, kept in memory. */
  class CredentialStore {
    var creds: seq<Credential>

    constructor (initial: seq<Credential>)
      ensures creds == initial
    {
      creds := initial;
    }

    /**
     * `register_user`: a name already present under any capitalisation is
     * refused and nothing changes; otherwise exactly one row with a fresh id
     * is appended and that account can log in at once.
     */
    method Register(name: string, password: string, ratings: seq<Tables.Rating>) returns (outcome: Registration)
      modifies this
      ensures (exists c :: c in old(creds) && SameName(c.username, name)) ==>
        outcome == Exists && creds == old(creds)
      ensures (forall c :: c in old(creds) ==> !SameName(c.username, name)) ==>
        outcome.Registered? && creds == old(creds) + [Credential(outcome.id, name, password)]
      ensures outcome.Registered? ==> outcome.id == NewId(ratings, old(creds))
      ensures outcome.Registered? ==>
        !HasId(old(creds), outcome.id) && outcome.id !in Tables.UserIds(ratings)
      ensures outcome.Registered? ==> Login(creds, name, password) == Some(outcome.id)
    {
      if exists c :: c in creds && SameName(c.username, name) {
        return Exists;
      }
      var id := NewUserId(ratings, creds);
      RegisterThenLogin(creds, id, name, name, password);
      creds := creds + [Credential(id, name, password)];
      return Registered(id);
    }
  }

  /** After appending an account whose name matched no row, logging in with that name (any capitalisation) and password gives its id. */
  lemma RegisterThenLogin(creds: seq<Credential>, id: int, name: string, other: string, password: string)
    requires forall c :: c in creds ==> !SameName(c.username, name)
    requires SameName(other, name)
    ensures Login(creds + [Credential(id, name, password)], other, password) == Some(id)
  {
    var grown := creds + [Credential(id, name, password)];
    forall k | 0 <= k < |creds| ensures !SameName(grown[k].username, other) {
      assert grown[k] == creds[k] && creds[k] in creds;
    }
    LoginSucceedsIff(grown, other, password, id);
    assert grown[|creds|] == Credential(id, name, password);
  }
}
