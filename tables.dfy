/**
 * The rating table shared by the recommender, the account code and the
 * user-administration menu: one row per (user, movie, rating, timestamp),
 * append-only, duplicates of a (user, movie) pair allowed.
 */
module Tables {

  datatype Rating = Rating(userId: int, movieId: int, rating: real, timestamp: int)

  /** The `userId` column of the rating table. */
  function UserIdColumn(rows: seq<Rating>): (ids: seq<int>)
    ensures |ids| == |rows|
    ensures forall i :: 0 <= i < |rows| ==> ids[i] == rows[i].userId
  {
    seq(|rows|, i requires 0 <= i < |rows| => rows[i].userId)
  }

  /** pandas' `Series.max()` on a non-empty integer column: an element that no other element exceeds. */
  function MaxOf(xs: seq<int>): (m: int)
    requires |xs| > 0
    ensures forall i :: 0 <= i < |xs| ==> xs[i] <= m
    ensures exists i :: 0 <= i < |xs| && xs[i] == m
    decreases |xs|
  {
    if |xs| == 1 then xs[0]
    else
      var rest := MaxOf(xs[1..]);
      assert forall i :: 1 <= i < |xs| ==> xs[i] == xs[1..][i - 1];
      if xs[0] >= rest then xs[0] else rest
  }

  /** The `max_..._id` variables of `_get_new_user_id`: 0 for an empty table, else the column's maximum. */
  function MaxOr0(xs: seq<int>): (m: int)
    ensures xs == [] ==> m == 0
    ensures forall i :: 0 <= i < |xs| ==> xs[i] <= m
    ensures xs != [] ==> exists i :: 0 <= i < |xs| && xs[i] == m
  {
    if xs == [] then 0 else MaxOf(xs)
  }

  /** `df['userId'].unique()` as a set. */
  function UserIds(rows: seq<Rating>): set<int> {
    set r | r in rows :: r.userId
  }

  /** The rows of one user, in table order (`df[df['userId'] == user]`). */
  function RowsOf(rows: seq<Rating>, user: int): (mine: seq<Rating>)
    ensures forall r :: r in mine <==> r in rows && r.userId == user
    decreases |rows|
  {
    if rows == [] then []
    else (if rows[0].userId == user then [rows[0]] else []) + RowsOf(rows[1..], user)
  }
}
