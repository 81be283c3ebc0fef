/**
 * The terminal user-administration module: the in-memory rating table
 * (`usuarios.csv`) and the catalogue (`filmes.csv`) it reads, with the
 * operations that pick the next user id, delete every rating of a user, and
 * add ratings after a title search.
 *
 * The interactive prompts are not modelled as I/O: what the user types is
 * passed in. The title search is passed in as a function; `None` stands for
 * the state of the module as written, where the name of the search module is
 * never imported and the search raises `NameError`.
 */
module UserAdmin {
  import opened Options
  import opened Tables
  import Text

  datatype CatalogueRow = CatalogueRow(movieId: int, title: string)

  /** An entry of the numbered list of search hits shown to the user. */
  datatype Listed = Listed(idx: int, movieId: int, title: string)

  /** `encontrar_movieid_por_titulo(query, top_n=5)`, with "no map loaded" folded into the empty list. */
  type Lookup = string -> seq<int>

  /**
   * What the user types in one round of the rating loop: the search text,
   * what `int()` made of the choice from the numbered list, and what
   * `float()` made of each answer to the rating prompt (`None` where either
   * raised `ValueError`); `now` is the clock reading stored as the timestamp.
   */
  datatype Round = Round(title: string, choice: Option<int>, attempts: seq<Option<real>>, now: int)

  datatype RoundResult =
    | Stop            // the user typed "fim"
    | NameError       // the search module's name is unbound
    | NothingFound
    | NoneInCatalogue // hits, but none of them is a catalogue row
    | BadInput        // the choice is not an integer
    | Cancelled       // choice 0
    | InvalidChoice   // no listed entry has that number
    | Unrated         // the input ended before an acceptable rating
    | Rated(row: Rating)

  datatype RunEnd = Finished | NoCatalogue | OutOfInput | Raised

  datatype Run = Run(added: seq<Rating>, end: RunEnd)

  datatype Deletion = NoUsers | InvalidInput | NotFound | Deleted(id: int)

  /* ---------------- deleting a user ---------------- */

  /** `df[df['userId'] != id]`: the other users' rows, in table order. */
  function WithoutUser(rows: seq<Rating>, id: int): (kept: seq<Rating>)
    ensures forall r :: r in kept <==> r in rows && r.userId != id
    ensures |kept| <= |rows|
    decreases |rows|
  {
    if rows == [] then []
    else (if rows[0].userId == id then [] else [rows[0]]) + WithoutUser(rows[1..], id)
  }

  /** Filtering works row by row: it distributes over concatenation, so the relative order of kept rows is the table's. */
  lemma {:induction false} WithoutUserAppend(a: seq<Rating>, b: seq<Rating>, id: int)
    ensures WithoutUser(a + b, id) == WithoutUser(a, id) + WithoutUser(b, id)
    decreases |a|
  {
    if a != [] {
      assert (a + b)[0] == a[0] && (a + b)[1..] == a[1..] + b;
      WithoutUserAppend(a[1..], b, id);
      var head := if a[0].userId == id then [] else [a[0]];
      calc {
        WithoutUser(a + b, id);
        head + WithoutUser(a[1..] + b, id);
        head + (WithoutUser(a[1..], id) + WithoutUser(b, id));
        (head + WithoutUser(a[1..], id)) + WithoutUser(b, id);
        WithoutUser(a, id) + WithoutUser(b, id);
      }
    } else {
      assert a + b == b;
    }
  }

  /** Removing a user nobody has leaves the table exactly as it was. */
  lemma {:induction false} WithoutAbsentUser(rows: seq<Rating>, id: int)
    requires id !in UserIds(rows)
    ensures WithoutUser(rows, id) == rows
    decreases |rows|
  {
    if rows != [] {
      assert rows[0] in rows;
      assert UserIds(rows[1..]) <= UserIds(rows) by {
        forall u | u in UserIds(rows[1..]) ensures u in UserIds(rows) {
          var r :| r in rows[1..] && r.userId == u;
          assert r in rows;
        }
      }
      WithoutAbsentUser(rows[1..], id);
    }
  }

  /** Every other user keeps exactly their rows, in the same order; the deleted user has none left. */
  lemma {:induction false} WithoutUserKeepsOthers(rows: seq<Rating>, id: int, u: int)
    ensures RowsOf(WithoutUser(rows, id), u) == if u == id then [] else RowsOf(rows, u)
    decreases |rows|
  {
    if rows != [] {
      WithoutUserKeepsOthers(rows[1..], id, u);
      var head := if rows[0].userId == id then [] else [rows[0]];
      var tail := WithoutUser(rows[1..], id);
      RowsOfAppend(head, tail, u);
    }
  }

  lemma {:induction false} RowsOfAppend(a: seq<Rating>, b: seq<Rating>, u: int)
    ensures RowsOf(a + b, u) == RowsOf(a, u) + RowsOf(b, u)
    decreases |a|
  {
    if a != [] {
      assert (a + b)[0] == a[0] && (a + b)[1..] == a[1..] + b;
      RowsOfAppend(a[1..], b, u);
      var head := if a[0].userId == u then [a[0]] else [];
      calc {
        RowsOf(a + b, u);
        head + RowsOf(a[1..] + b, u);
        head + (RowsOf(a[1..], u) + RowsOf(b, u));
        (head + RowsOf(a[1..], u)) + RowsOf(b, u);
        RowsOf(a, u) + RowsOf(b, u);
      }
    } else {
      assert a + b == b;
    }
  }

  /** Exactly the deleted user's rows go: the table shrinks by their number. */
  lemma {:induction false} WithoutUserCount(rows: seq<Rating>, id: int)
    ensures |WithoutUser(rows, id)| + |RowsOf(rows, id)| == |rows|
    decreases |rows|
  {
    if rows != [] {
      WithoutUserCount(rows[1..], id);
    }
  }

  /* ---------------- adding ratings ---------------- */

  /** `catalogue[catalogue['movieId'].isin([mid])].iloc[0]`, if there is such a row. */
  function FirstRow(catalogue: seq<CatalogueRow>, mid: int): (f: Option<CatalogueRow>)
    ensures f.None? <==> forall k :: 0 <= k < |catalogue| ==> catalogue[k].movieId != mid
    ensures f.Some? ==> f.value.movieId == mid && f.value in catalogue
    decreases |catalogue|
  {
    if catalogue == [] then None
    else if catalogue[0].movieId == mid then Some(catalogue[0])
    else
      assert forall k :: 1 <= k < |catalogue| ==> catalogue[k] == catalogue[1..][k - 1];
      FirstRow(catalogue[1..], mid)
  }

  /** The row found is the first one with that movieId. */
  lemma {:induction false} FirstRowIsFirst(catalogue: seq<CatalogueRow>, mid: int)
    requires FirstRow(catalogue, mid).Some?
    ensures exists k :: (0 <= k < |catalogue| && catalogue[k] == FirstRow(catalogue, mid).value
      && forall j :: 0 <= j < k ==> catalogue[j].movieId != mid)
    decreases |catalogue|
  {
    if catalogue[0].movieId != mid {
      var rest := catalogue[1..];
      FirstRowIsFirst(rest, mid);
      var k :| 0 <= k < |rest| && rest[k] == FirstRow(rest, mid).value
        && forall j :: 0 <= j < k ==> rest[j].movieId != mid;
      assert catalogue[k + 1] == FirstRow(catalogue, mid).value;
      assert forall j :: 0 <= j < k + 1 ==> catalogue[j].movieId != mid by {
        forall j | 0 <= j < k + 1 ensures catalogue[j].movieId != mid {
          if j > 0 { assert catalogue[j] == rest[j - 1]; }
        }
      }
    }
  }

  /**
   * The numbered list built from the first `n` search hits: hit `i` (from 0)
   * is listed as number `i + 1` exactly when the catalogue has it, with the
   * title of its first catalogue row. Numbers skip the hits the catalogue
   * lacks.
   */
  function ListingOf(catalogue: seq<CatalogueRow>, found: seq<int>, n: nat): (l: seq<Listed>)
    requires n <= |found|
    ensures |l| <= n
    ensures forall k :: 0 <= k < |l| ==> 1 <= l[k].idx <= n && l[k].movieId == found[l[k].idx - 1]
    decreases n
  {
    if n == 0 then []
    else
      var init := ListingOf(catalogue, found, n - 1);
      match FirstRow(catalogue, found[n - 1])
      case None => init
      case Some(f) => init + [Listed(n, f.movieId, f.title)]
  }

  /** The list built from all the hits. */
  function Listing(catalogue: seq<CatalogueRow>, found: seq<int>): seq<Listed> {
    ListingOf(catalogue, found, |found|)
  }

  /** Each listed entry carries the movie and title of that hit's first catalogue row. */
  lemma {:induction false} ListingFromCatalogue(catalogue: seq<CatalogueRow>, found: seq<int>, n: nat, k: nat)
    requires n <= |found| && k < |ListingOf(catalogue, found, n)|
    ensures FirstRow(catalogue, ListingOf(catalogue, found, n)[k].movieId)
      == Some(CatalogueRow(ListingOf(catalogue, found, n)[k].movieId, ListingOf(catalogue, found, n)[k].title))
    decreases n
  {
    var init := ListingOf(catalogue, found, n - 1);
    if k < |init| {
      ListingFromCatalogue(catalogue, found, n - 1, k);
      assert ListingOf(catalogue, found, n)[k] == init[k];
    } else {
      var f := FirstRow(catalogue, found[n - 1]).value;
      assert ListingOf(catalogue, found, n)[k] == Listed(n, f.movieId, f.title);
      assert f == CatalogueRow(f.movieId, f.title);
    }
  }

  /** The numbers in the list increase strictly. */
  lemma {:induction false} ListingNumbersIncrease(catalogue: seq<CatalogueRow>, found: seq<int>, n: nat)
    requires n <= |found|
    ensures forall a, b :: 0 <= a < b < |ListingOf(catalogue, found, n)| ==>
      ListingOf(catalogue, found, n)[a].idx < ListingOf(catalogue, found, n)[b].idx
    decreases n
  {
    if n > 0 {
      ListingNumbersIncrease(catalogue, found, n - 1);
      var l := ListingOf(catalogue, found, n);
      var init := ListingOf(catalogue, found, n - 1);
      forall a, b | 0 <= a < b < |l| ensures l[a].idx < l[b].idx {
        assert l[a] == init[a] && init[a].idx <= n - 1;
        if b < |init| {
          assert l[b] == init[b] && init[a].idx < init[b].idx;
        } else {
          assert l[b].idx == n;
        }
      }
    }
  }

  /** Hit `i` gets number `i + 1` in the list exactly when the catalogue has a row for it. */
  lemma {:induction false} ListingCovers(catalogue: seq<CatalogueRow>, found: seq<int>, n: nat, i: nat)
    requires i < n <= |found|
    ensures FirstRow(catalogue, found[i]).Some? <==>
      exists k :: 0 <= k < |ListingOf(catalogue, found, n)| && ListingOf(catalogue, found, n)[k].idx == i + 1
    decreases n
  {
    var l := ListingOf(catalogue, found, n);
    if exists k :: 0 <= k < |l| && l[k].idx == i + 1 {
      var k :| 0 <= k < |l| && l[k].idx == i + 1;
      ListingFromCatalogue(catalogue, found, n, k);
    }
    if FirstRow(catalogue, found[i]).Some? {
      ListingHasHit(catalogue, found, n, i);
    }
  }

  /** A hit the catalogue has is listed. */
  lemma {:induction false} ListingHasHit(catalogue: seq<CatalogueRow>, found: seq<int>, n: nat, i: nat)
    requires i < n <= |found| && FirstRow(catalogue, found[i]).Some?
    ensures exists k :: 0 <= k < |ListingOf(catalogue, found, n)| && ListingOf(catalogue, found, n)[k].idx == i + 1
    decreases n
  {
    var l := ListingOf(catalogue, found, n);
    var init := ListingOf(catalogue, found, n - 1);
    ListingStep(catalogue, found, n);
    if i < n - 1 {
      ListingHasHit(catalogue, found, n - 1, i);
      var k :| 0 <= k < |init| && init[k].idx == i + 1;
      assert l[k] == init[k];
    } else {
      assert l[|init|].idx == i + 1;
    }
  }

  /** The list of the first `n` hits is that of the first `n - 1`, with hit `n - 1` appended as number `n` when the catalogue has it. */
  lemma ListingStep(catalogue: seq<CatalogueRow>, found: seq<int>, n: nat)
    requires 0 < n <= |found|
    ensures FirstRow(catalogue, found[n - 1]).None? ==> ListingOf(catalogue, found, n) == ListingOf(catalogue, found, n - 1)
    ensures FirstRow(catalogue, found[n - 1]).Some? ==>
      ListingOf(catalogue, found, n)
      == ListingOf(catalogue, found, n - 1) + [Listed(n, found[n - 1], FirstRow(catalogue, found[n - 1]).value.title)]
  {
  }

  /** `next((item for item in listing if item['idx'] == choice), None)`. */
  function Choose(listing: seq<Listed>, choice: int): (c: Option<Listed>)
    ensures c.None? <==> forall k :: 0 <= k < |listing| ==> listing[k].idx != choice
    ensures c.Some? ==> c.value in listing && c.value.idx == choice
    decreases |listing|
  {
    if listing == [] then None
    else if listing[0].idx == choice then Some(listing[0])
    else
      assert forall k :: 1 <= k < |listing| ==> listing[k] == listing[1..][k - 1];
      Choose(listing[1..], choice)
  }

  predicate Acceptable(x: Option<real>) {
    x.Some? && 1.0 <= x.value <= 5.0
  }

  /** The first answer to the rating prompt that parses and lies in [1.0, 5.0]. */
  function FirstValid(attempts: seq<Option<real>>): (r: Option<real>)
    ensures r.None? <==> forall k :: 0 <= k < |attempts| ==> !Acceptable(attempts[k])
    ensures r.Some? ==> 1.0 <= r.value <= 5.0 && r in attempts
    decreases |attempts|
  {
    if attempts == [] then None
    else if Acceptable(attempts[0]) then attempts[0]
    else
      assert forall k :: 1 <= k < |attempts| ==> attempts[k] == attempts[1..][k - 1];
      FirstValid(attempts[1..])
  }

  /** Every answer before the one kept was refused. */
  lemma {:induction false} FirstValidIsFirst(attempts: seq<Option<real>>)
    requires FirstValid(attempts).Some?
    ensures exists k :: (0 <= k < |attempts| && attempts[k] == FirstValid(attempts)
      && forall j :: 0 <= j < k ==> !Acceptable(attempts[j]))
    decreases |attempts|
  {
    if !Acceptable(attempts[0]) {
      var rest := attempts[1..];
      FirstValidIsFirst(rest);
      var k :| 0 <= k < |rest| && rest[k] == FirstValid(rest)
        && forall j :: 0 <= j < k ==> !Acceptable(rest[j]);
      assert attempts[k + 1] == FirstValid(attempts);
      assert forall j :: 0 <= j < k + 1 ==> !Acceptable(attempts[j]) by {
        forall j | 0 <= j < k + 1 ensures !Acceptable(attempts[j]) {
          if j > 0 { assert attempts[j] == rest[j - 1]; }
        }
      }
    }
  }

  /** `titulo.strip().lower() == 'fim'`. */
  predicate IsFim(title: string) {
    var t := Text.Lower(Text.Strip(title));
    |t| == 3 && t[0] == 'f' && t[1] == 'i' && t[2] == 'm'
  }

  /** One pass of the outer `while True` of `adicionar_avaliacoes`. */
  function RoundOf(catalogue: seq<CatalogueRow>, lookup: Option<Lookup>, userId: int, r: Round): RoundResult {
    if IsFim(r.title) then Stop
    else match lookup
      case None => NameError
      case Some(find) => AfterSearch(catalogue, find(Text.Strip(r.title)), userId, r)
  }

  /** The round once the search has returned its hits. */
  function AfterSearch(catalogue: seq<CatalogueRow>, found: seq<int>, userId: int, r: Round): RoundResult {
    if found == [] then NothingFound
    else
      var listing := Listing(catalogue, found);
      if listing == [] then NoneInCatalogue
      else match r.choice
        case None => BadInput
        case Some(c) => if c == 0 then Cancelled else AfterChoice(Choose(listing, c), userId, r)
  }

  /** The round once a number has been chosen from the list. */
  function AfterChoice(item: Option<Listed>, userId: int, r: Round): RoundResult {
    match item
    case None => InvalidChoice
    case Some(it) =>
      match FirstValid(r.attempts)
      case None => Unrated
      case Some(x) => Rated(Rating(userId, it.movieId, x, r.now))
  }

  /** How one round's result combines with the run of the rounds after it. */
  function Then(res: RoundResult, rest: Run): Run {
    match res
    case Stop => Run([], Finished)
    case NameError => Run([], Raised)
    case Unrated => Run([], OutOfInput)
    case Rated(row) => Run([row] + rest.added, rest.end)
    case _ => rest
  }

  /** The result each round of `script` would have on its own. */
  function Results(catalogue: seq<CatalogueRow>, lookup: Option<Lookup>, userId: int, script: seq<Round>): (rs: seq<RoundResult>)
    ensures |rs| == |script|
  {
    seq(|script|, k requires 0 <= k < |script| => RoundOf(catalogue, lookup, userId, script[k]))
  }

  /** The rounds from the `i`-th on, until "fim", an uncaught exception or the end of the input. */
  function Combine(results: seq<RoundResult>, i: nat): Run
    decreases |results| - i
  {
    if i >= |results| then Run([], OutOfInput)
    else Then(results[i], Combine(results, i + 1))
  }

  /** `adicionar_avaliacoes`: nothing at all without a catalogue. */
  function RunOf(catalogue: seq<CatalogueRow>, lookup: Option<Lookup>, userId: int, script: seq<Round>): Run {
    if catalogue == [] then Run([], NoCatalogue) else Combine(Results(catalogue, lookup, userId, script), 0)
  }

  /** A recorded rating: the user's own, within [1.0, 5.0], for a movie the catalogue has. */
  predicate ValidRating(catalogue: seq<CatalogueRow>, userId: int, row: Rating) {
    row.userId == userId && 1.0 <= row.rating <= 5.0
    && exists c :: c in catalogue && c.movieId == row.movieId
  }

  /** A rating a round records belongs to the user, lies in [1.0, 5.0] and names a catalogue movie that was among the hits. */
  lemma RatedRowIsValid(catalogue: seq<CatalogueRow>, find: Lookup, userId: int, r: Round)
    requires RoundOf(catalogue, Some(find), userId, r).Rated?
    ensures ValidRating(catalogue, userId, RoundOf(catalogue, Some(find), userId, r).row)
    ensures RoundOf(catalogue, Some(find), userId, r).row.movieId in find(Text.Strip(r.title))
  {
    var found := find(Text.Strip(r.title));
    var res := RoundOf(catalogue, Some(find), userId, r);
    assert !IsFim(r.title);
    assert res == AfterSearch(catalogue, found, userId, r);
    HitRatedIsValid(catalogue, found, userId, r);
  }

  lemma HitRatedIsValid(catalogue: seq<CatalogueRow>, found: seq<int>, userId: int, r: Round)
    requires AfterSearch(catalogue, found, userId, r).Rated?
    ensures ValidRating(catalogue, userId, AfterSearch(catalogue, found, userId, r).row)
    ensures AfterSearch(catalogue, found, userId, r).row.movieId in found
  {
    var listing := Listing(catalogue, found);
    var item := Choose(listing, r.choice.value).value;
    var row := AfterSearch(catalogue, found, userId, r).row;
    assert row == AfterChoice(Some(item), userId, r).row;
    var k :| 0 <= k < |listing| && listing[k] == item;
    ListingFromCatalogue(catalogue, found, |found|, k);
    var f := FirstRow(catalogue, item.movieId).value;
    assert f in catalogue && f.movieId == row.movieId;
    assert 1 <= item.idx <= |found| && item.movieId == found[item.idx - 1];
    assert found[item.idx - 1] in found;
  }

  /** A session adds at most one row per round, and every row it adds is valid in that sense. */
  lemma RoundsAddValidRatings(catalogue: seq<CatalogueRow>, find: Lookup, userId: int, script: seq<Round>)
    ensures |RunOf(catalogue, Some(find), userId, script).added| <= |script|
    ensures forall row :: row in RunOf(catalogue, Some(find), userId, script).added ==> ValidRating(catalogue, userId, row)
  {
    var results := Results(catalogue, Some(find), userId, script);
    forall k | 0 <= k < |results| && results[k].Rated?
      ensures ValidRating(catalogue, userId, results[k].row)
    {
      RatedRowIsValid(catalogue, find, userId, script[k]);
    }
    CombineAddsValid(catalogue, userId, results, 0);
  }

  /** If every rated round's row is valid, the rows combined from the `i`-th round on are at most one per round, all valid. */
  lemma {:induction false} CombineAddsValid(catalogue: seq<CatalogueRow>, userId: int, results: seq<RoundResult>, i: nat)
    requires i <= |results|
    requires forall k :: 0 <= k < |results| && results[k].Rated? ==> ValidRating(catalogue, userId, results[k].row)
    ensures |Combine(results, i).added| <= |results| - i
    ensures forall row :: row in Combine(results, i).added ==> ValidRating(catalogue, userId, row)
    decreases |results| - i
  {
    if i < |results| {
      CombineAddsValid(catalogue, userId, results, i + 1);
      ThenKeepsValid(catalogue, userId, results[i], Combine(results, i + 1));
    }
  }

  /** Combining a round with the rest adds at most that round's row, and only when it is valid. */
  lemma ThenKeepsValid(catalogue: seq<CatalogueRow>, userId: int, res: RoundResult, rest: Run)
    requires res.Rated? ==> ValidRating(catalogue, userId, res.row)
    requires forall row :: row in rest.added ==> ValidRating(catalogue, userId, row)
    ensures |Then(res, rest).added| <= |rest.added| + 1
    ensures forall row :: row in Then(res, rest).added ==> ValidRating(catalogue, userId, row)
  {
  }

  /**
   * As written, the module never imports the search module, so the first
   * round that is not "fim" raises `NameError` and no rating is ever
   * recorded, whatever the user types.
   */
  lemma AsWrittenAddsNothing(catalogue: seq<CatalogueRow>, userId: int, script: seq<Round>)
    ensures RunOf(catalogue, None, userId, script).added == []
    ensures RunOf(catalogue, None, userId, script).end == Raised <==>
      catalogue != [] && script != [] && !IsFim(script[0].title)
  {
  }

  /** A round whose search has one catalogue hit, whose choice is 1 and which ends with an acceptable rating records that rating. */
  lemma SingleHitRound(mid: int, name: string, find: Lookup, userId: int, r: Round)
    requires !IsFim(r.title) && find(Text.Strip(r.title)) == [mid]
    requires r.choice == Some(1)
    requires FirstValid(r.attempts).Some?
    ensures RoundOf([CatalogueRow(mid, name)], Some(find), userId, r)
      == Rated(Rating(userId, mid, FirstValid(r.attempts).value, r.now))
  {
    var catalogue := [CatalogueRow(mid, name)];
    assert Listing(catalogue, [mid]) == [Listed(1, mid, name)];
    assert Choose([Listed(1, mid, name)], 1) == Some(Listed(1, mid, name));
  }

  /**
   * With the search in place, such a round followed by "fim" records exactly
   * that one rating and finishes normally.
   */
  lemma SingleHitIsRecorded(mid: int, name: string, find: Lookup, userId: int, r: Round, stop: Round)
    requires !IsFim(r.title) && find(Text.Strip(r.title)) == [mid]
    requires r.choice == Some(1)
    requires FirstValid(r.attempts).Some?
    requires IsFim(stop.title)
    ensures RunOf([CatalogueRow(mid, name)], Some(find), userId, [r, stop])
      == Run([Rating(userId, mid, FirstValid(r.attempts).value, r.now)], Finished)
  {
    var catalogue := [CatalogueRow(mid, name)];
    var row := Rating(userId, mid, FirstValid(r.attempts).value, r.now);
    SingleHitRound(mid, name, find, userId, r);
    FimStops(catalogue, Some(find), userId, [r, stop], 1);
    calc {
      RunOf(catalogue, Some(find), userId, [r, stop]);
      Then(Rated(row), Combine(Results(catalogue, Some(find), userId, [r, stop]), 1));
      Then(Rated(row), Run([], Finished));
      { RatedThenFinished(row); }
      Run([row], Finished);
    }
  }

  lemma RatedThenFinished(row: Rating)
    ensures Then(Rated(row), Run([], Finished)) == Run([row], Finished)
  {
    assert [row] + [] == [row];
  }

  /** "fim" ends the loop normally, before any search. */
  lemma FimStops(catalogue: seq<CatalogueRow>, lookup: Option<Lookup>, userId: int, script: seq<Round>, i: nat)
    requires i < |script| && IsFim(script[i].title)
    ensures Combine(Results(catalogue, lookup, userId, script), i) == Run([], Finished)
  {
    assert Results(catalogue, lookup, userId, script)[i] == Stop;
  }

  /* ---------------- the imperative parts ---------------- */

  /** The `for i, mid in enumerate(found)` loop that builds the numbered list. */
  method ListFound(catalogue: seq<CatalogueRow>, found: seq<int>) returns (listing: seq<Listed>)
    ensures listing == Listing(catalogue, found)
  {
    listing := [];
    for i := 0 to |found|
      invariant listing == ListingOf(catalogue, found, i)
    {
      var hit := FirstRow(catalogue, found[i]);
      if hit.Some? {
        listing := listing + [Listed(i + 1, hit.value.movieId, hit.value.title)];
      }
    }
  }

  /** The inner `while True` that asks for a rating until one parses and lies in range. */
  method ReadRating(attempts: seq<Option<real>>) returns (rating: Option<real>)
    ensures rating == FirstValid(attempts)
  {
    var k := 0;
    while k < |attempts|
      invariant 0 <= k <= |attempts|
      invariant FirstValid(attempts) == FirstValid(attempts[k..])
    {
      assert attempts[k..][1..] == attempts[k + 1..];
      if Acceptable(attempts[k]) {
        return attempts[k];
      }
      k := k + 1;
    }
    return None;
  }

  /** One round, step by step. */
  method PlayRound(catalogue: seq<CatalogueRow>, lookup: Option<Lookup>, userId: int, r: Round)
    returns (res: RoundResult)
    ensures res == RoundOf(catalogue, lookup, userId, r)
  {
    if IsFim(r.title) {
      return Stop;
    }
    if lookup.None? {
      return NameError;
    }
    var found := lookup.value(Text.Strip(r.title));
    if found == [] {
      return NothingFound;
    }
    var listing := ListFound(catalogue, found);
    if listing == [] {
      return NoneInCatalogue;
    }
    var choice := r.choice;
    if choice.None? {
      return BadInput;
    }
    if choice.value == 0 {
      return Cancelled;
    }
    var item := Choose(listing, choice.value);
    if item.None? {
      return InvalidChoice;
    }
    var rating := ReadRating(r.attempts);
    if rating.None? {
      return Unrated;
    }
    return Rated(Rating(userId, item.value.movieId, rating.value, r.now));
  }

  /** The rows a round records: its rating, if it has one. */
  function Recorded(res: RoundResult): (rows: seq<Rating>)
    ensures res.Rated? ==> rows == [res.row]
    ensures !res.Rated? ==> rows == []
  {
    if res.Rated? then [res.row] else []
  }

  /** How a round ends the loop, if it does: "fim", an uncaught exception, or input running out at the rating prompt. */
  function Ending(res: RoundResult): (e: Option<RunEnd>)
    ensures e.Some? <==> res.Stop? || res.NameError? || res.Unrated?
  {
    if res.Stop? then Some(Finished)
    else if res.NameError? then Some(Raised)
    else if res.Unrated? then Some(OutOfInput)
    else None
  }

  /** A round either ends the run there, or adds what it recorded in front of the later rounds' rows. */
  lemma ThenSplits(res: RoundResult, rest: Run)
    ensures Ending(res).Some? ==> Then(res, rest) == Run([], Ending(res).value)
    ensures Ending(res).None? ==> Then(res, rest) == Run(Recorded(res) + rest.added, rest.end)
  {
    assert [] + rest.added == rest.added;
  }

  /** The rows `before` recorded earlier, followed by what `run` records. */
  function After(before: seq<Rating>, run: Run): Run {
    Run(before + run.added, run.end)
  }

  /** One pass of the loop in `RateMovies`: either the run ends with the rows recorded so far, or this round's row joins them and the later rounds follow. */
  lemma NextRound(res: RoundResult, rest: Run, added: seq<Rating>)
    ensures Ending(res).Some? ==> After(added, Then(res, rest)) == Run(added, Ending(res).value)
    ensures Ending(res).None? ==> After(added, Then(res, rest)) == After(added + Recorded(res), rest)
  {
    ThenSplits(res, rest);
    assert added + [] == added;
    assert added + (Recorded(res) + rest.added) == (added + Recorded(res)) + rest.added;
  }

  /**
   * The outer `while True` of `adicionar_avaliacoes`: the rows it records, in
   * order, and how it ends. `results` is, for the proof only, what each round
   * of `script` yields.
   */
  method RateMovies(catalogue: seq<CatalogueRow>, lookup: Option<Lookup>, userId: int, script: seq<Round>,
                    ghost results: seq<RoundResult>)
    returns (added: seq<Rating>, end: RunEnd)
    requires |results| == |script|
    requires forall k {:trigger RoundOf(catalogue, lookup, userId, script[k])} :: 0 <= k < |script| ==>
      results[k] == RoundOf(catalogue, lookup, userId, script[k])
    ensures Run(added, end) == Combine(results, 0)
  {
    added := [];
    assert After(added, Combine(results, 0)) == Combine(results, 0);
    var i := 0;
    while i < |script|
      invariant 0 <= i <= |script|
      invariant After(added, Combine(results, i)) == Combine(results, 0)
    {
      var res := PlayRound(catalogue, lookup, userId, script[i]);
      assert res == results[i];
      NextRound(res, Combine(results, i + 1), added);
      var ending := Ending(res);
      if ending.Some? {
        return added, ending.value;
      }
      added := added + Recorded(res);
      i := i + 1;
    }
    assert added + [] == added;
    return added, OutOfInput;
  }

  /** The rating file and the catalogue, as the module's globals. */
  class RatingTable {
    var rows: seq<Rating>
    var catalogue: seq<CatalogueRow>

    constructor (ratings: seq<Rating>, movies: seq<CatalogueRow>)
      ensures rows == ratings && catalogue == movies
    {
      rows := ratings;
      catalogue := movies;
    }

    /** `_get_next_user_id`: 1 for an empty table, otherwise one above the largest id, so it is new. */
    function NextUserId(): (id: int)
      reads this
      ensures forall r :: r in rows ==> r.userId < id
      ensures rows == [] ==> id == 1
      ensures rows != [] ==> id - 1 in UserIds(rows)
    {
      if rows == [] then 1
      else
        var column := UserIdColumn(rows);
        var m := MaxOf(column);
        assert forall r :: r in rows ==> r.userId <= m by {
          forall r | r in rows ensures r.userId <= m {
            var j :| 0 <= j < |rows| && rows[j] == r;
            assert column[j] == r.userId;
          }
        }
        assert m in UserIds(rows) by {
          var k :| 0 <= k < |column| && column[k] == m;
          assert rows[k] in rows;
        }
        m + 1
    }

    /**
     * `_deletar_usuario`, given what the user typed: an empty table, an
     * answer that is not an integer, or an id nobody has change nothing;
     * otherwise every row of that user, and only those, goes.
     */
    method DeleteUser(answer: string) returns (outcome: Deletion)
      modifies this
      ensures catalogue == old(catalogue)
      ensures old(rows) == [] ==> outcome == NoUsers
      ensures old(rows) != [] && Text.ParseInt(answer).None? ==> outcome == InvalidInput
      ensures old(rows) != [] && Text.ParseInt(answer).Some? ==>
        outcome == (if Text.ParseInt(answer).value in UserIds(old(rows)) then Deleted(Text.ParseInt(answer).value) else NotFound)
      ensures outcome.Deleted? ==> rows == WithoutUser(old(rows), outcome.id)
      ensures !outcome.Deleted? ==> rows == old(rows)
    {
      if rows == [] {
        return NoUsers;
      }
      var id := Text.ParseInt(answer);
      if id.None? {
        return InvalidInput;
      }
      if id.value !in UserIds(rows) {
        return NotFound;
      }
      rows := WithoutUser(rows, id.value);
      return Deleted(id.value);
    }

    /**
     * `adicionar_avaliacoes` for one user and what they type: each accepted
     * rating is appended as one new row, after everything already there;
     * nothing is overwritten and repeated (user, movie) pairs accumulate.
     */
    method AddRatings(userId: int, lookup: Option<Lookup>, script: seq<Round>) returns (end: RunEnd)
      modifies this
      ensures catalogue == old(catalogue)
      ensures rows == old(rows) + RunOf(catalogue, lookup, userId, script).added
      ensures end == RunOf(catalogue, lookup, userId, script).end
    {
      if catalogue == [] {
        assert rows + [] == rows;
        return NoCatalogue;
      }
      var added;
      added, end := RateMovies(catalogue, lookup, userId, script, Results(catalogue, lookup, userId, script));
      rows := rows + added;
    }
  }
}
