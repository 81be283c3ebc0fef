/**
 * Content-based neighbours of one movie (`recomendar_por_similaridade` in
 * Codigo_fonte/busca_filme.py).
 *
 * The latent matrix has one row per catalogue movie; the index map pairs
 * each movieId with its row, in the map's own order. The cosine between two
 * latent rows is library numerics and is a parameter here. The search scores
 * every row against the seed's row, orders the rows by descending score
 * (ties in row order, as Python's stable `sorted` leaves them), skips the
 * first row of that order, keeps the next `top_n` and maps each kept row
 * back to the first movieId of the map that points to it.
 */
module Similarity {
  import opened Options
  import Slices

  type Vector = seq<real>

  /** One entry of the index map: a movieId and its row of the latent matrix. */
  datatype Entry = Entry(movieId: int, row: int)

  /** The loaded search model; `None` is a resource that failed to load. */
  datatype SearchModel = SearchModel(latent: Option<seq<Vector>>, entries: Option<seq<Entry>>)

  /* ---------- Ranking of the rows ---------- */

  /** Row `i` comes before row `j` in `sorted(..., reverse=True)`: a higher score, or an equal score and an earlier row. */
  predicate Before(scores: seq<real>, i: nat, j: nat)
    requires i < |scores| && j < |scores|
  {
    scores[i] > scores[j] || (scores[i] == scores[j] && i < j)
  }

  predicate RowsOf(scores: seq<real>, r: seq<nat>) {
    forall k :: 0 <= k < |r| ==> r[k] < |scores|
  }

  /** Every earlier row of `r` comes before every later one. */
  predicate Ordered(scores: seq<real>, r: seq<nat>)
    requires RowsOf(scores, r)
  {
    forall a, b :: 0 <= a < b < |r| ==> Before(scores, r[a], r[b])
  }

  /** The rows `0, 1, ..., n - 1`, as `enumerate` lists them. */
  function AllRows(n: nat): (r: seq<nat>)
    ensures |r| == n
    ensures forall k :: 0 <= k < n ==> r[k] == k
  {
    seq(n, k requires 0 <= k < n => k)
  }

  lemma AllRowsGrow(n: nat)
    requires n > 0
    ensures multiset(AllRows(n)) == multiset(AllRows(n - 1)) + multiset{(n - 1) as nat}
  {
    assert AllRows(n) == AllRows(n - 1) + [n - 1];
  }

  /** Row `i` placed into the ordered rows `r`. */
  function Insert(scores: seq<real>, i: nat, r: seq<nat>): (q: seq<nat>)
    requires i < |scores| && RowsOf(scores, r)
    ensures RowsOf(scores, q)
    ensures multiset(q) == multiset(r) + multiset{i}
    decreases |r|
  {
    if r == [] then [i]
    else if Before(scores, i, r[0]) then [i] + r
    else
      assert r == [r[0]] + r[1..];
      [r[0]] + Insert(scores, i, r[1..])
  }

  /** The first `n` rows in descending score order. */
  function RankPrefix(scores: seq<real>, n: nat): (r: seq<nat>)
    requires n <= |scores|
    ensures RowsOf(scores, r)
    ensures multiset(r) == multiset(AllRows(n))
    decreases n
  {
    if n == 0 then []
    else
      AllRowsGrow(n);
      Insert(scores, n - 1, RankPrefix(scores, n - 1))
  }

  /** `sorted(enumerate(scores), key=score, reverse=True)`, the row numbers only. */
  function Ranked(scores: seq<real>): (r: seq<nat>)
    ensures RowsOf(scores, r)
    ensures multiset(r) == multiset(AllRows(|scores|))
  {
    RankPrefix(scores, |scores|)
  }

  lemma {:induction false} InsertOrdered(scores: seq<real>, i: nat, r: seq<nat>)
    requires i < |scores| && RowsOf(scores, r) && Ordered(scores, r) && i !in r
    ensures Ordered(scores, Insert(scores, i, r))
    decreases |r|
  {
    if r == [] {
    } else if Before(scores, i, r[0]) {
      forall b | 0 <= b < |r| ensures Before(scores, i, r[b]) {
        if b > 0 {
          assert Before(scores, r[0], r[b]);
        }
      }
      ConsOrdered(scores, i, r);
    } else {
      var t := r[1..];
      assert forall k :: 0 <= k < |t| ==> t[k] == r[k + 1];
      InsertOrdered(scores, i, t);
      var q := Insert(scores, i, t);
      forall b | 0 <= b < |q| ensures Before(scores, r[0], q[b]) {
        assert q[b] in multiset(q);
        if q[b] != i {
          assert q[b] in multiset(t);
          var k :| 0 <= k < |t| && t[k] == q[b];
        }
      }
      ConsOrdered(scores, r[0], q);
    }
  }

  /** A row that comes before every row of an ordered list can be put in front of it. */
  lemma ConsOrdered(scores: seq<real>, x: nat, q: seq<nat>)
    requires x < |scores| && RowsOf(scores, q) && Ordered(scores, q)
    requires forall b :: 0 <= b < |q| ==> Before(scores, x, q[b])
    ensures RowsOf(scores, [x] + q) && Ordered(scores, [x] + q)
  {
    var p := [x] + q;
    forall a, b | 0 <= a < b < |p| ensures Before(scores, p[a], p[b]) {
      assert p[b] == q[b - 1];
      if a > 0 {
        assert p[a] == q[a - 1];
      }
    }
  }

  lemma {:induction false} RankPrefixOrdered(scores: seq<real>, n: nat)
    requires n <= |scores|
    ensures Ordered(scores, RankPrefix(scores, n))
    decreases n
  {
    if n > 0 {
      var r := RankPrefix(scores, n - 1);
      RankPrefixOrdered(scores, n - 1);
      assert n - 1 !in AllRows(n - 1);
      assert n - 1 !in multiset(r);
      InsertOrdered(scores, n - 1, r);
    }
  }

  /** The ranking holds every row exactly once, in descending score order with ties in row order. */
  lemma RankedIsStableDescending(scores: seq<real>)
    ensures |Ranked(scores)| == |scores|
    ensures forall j :: 0 <= j < |scores| ==> j in Ranked(scores)
    ensures forall a, b :: 0 <= a < b < |scores| ==>
      Ranked(scores)[a] != Ranked(scores)[b] && Before(scores, Ranked(scores)[a], Ranked(scores)[b])
  {
    var r := Ranked(scores);
    RankPrefixOrdered(scores, |scores|);
    assert |r| == |multiset(AllRows(|scores|))|;
    forall j | 0 <= j < |scores| ensures j in r {
      assert AllRows(|scores|)[j] == j;
      assert j in multiset(AllRows(|scores|));
    }
  }

  /* ---------- From movieIds to rows and back ---------- */

  /** The rows the map gives for `movieId`, in map order (`INDICES_MAP.loc[movieId]`). */
  function RowsFor(entries: seq<Entry>, movieId: int): (rows: seq<int>)
    ensures |rows| <= |entries|
    ensures forall row :: row in rows <==> Entry(movieId, row) in entries
    decreases |entries|
  {
    if entries == [] then []
    else (if entries[0].movieId == movieId then [entries[0].row] else []) + RowsFor(entries[1..], movieId)
  }

  /** `INDICES_MAP[INDICES_MAP == row].index[0]`, or `None` when no entry points to `row`. */
  function FirstIdFor(entries: seq<Entry>, row: int): (id: Option<int>)
    ensures id.None? <==> forall e :: e in entries ==> e.row != row
    ensures id.Some? ==> Entry(id.value, row) in entries
    decreases |entries|
  {
    if entries == [] then None
    else if entries[0].row == row then Some(entries[0].movieId)
    else FirstIdFor(entries[1..], row)
  }

  /** The id found is the one of the first entry, in map order, that points to `row`. */
  lemma {:induction false} FirstIdIsFirst(entries: seq<Entry>, row: int)
    requires FirstIdFor(entries, row).Some?
    ensures exists k :: (0 <= k < |entries| && entries[k] == Entry(FirstIdFor(entries, row).value, row)
      && forall k' :: 0 <= k' < k ==> entries[k'].row != row)
    decreases |entries|
  {
    if entries[0].row != row {
      var t := entries[1..];
      FirstIdIsFirst(t, row);
      var k :| 0 <= k < |t| && t[k] == Entry(FirstIdFor(t, row).value, row)
        && (forall k' :: 0 <= k' < k ==> t[k'].row != row);
      assert entries[k + 1] == t[k];
      forall k' | 0 <= k' < k + 1 ensures entries[k'].row != row {
        if k' > 0 { assert entries[k'] == t[k' - 1]; }
      }
    }
  }

  /** The ids of the rows that some entry points to, in the order of `rows`; other rows are skipped. */
  function IdsOfRows(entries: seq<Entry>, rows: seq<nat>): (ids: seq<int>)
    ensures |ids| <= |rows|
    decreases |rows|
  {
    if rows == [] then []
    else
      var last := rows[|rows| - 1];
      IdsOfRows(entries, rows[..|rows| - 1])
      + match FirstIdFor(entries, last) { case Some(id) => [id] case None => [] }
  }

  /** An id is returned exactly when it is the first id of some kept row. */
  lemma {:induction false} IdsOfRowsMembers(entries: seq<Entry>, rows: seq<nat>)
    ensures forall id :: id in IdsOfRows(entries, rows) <==>
      exists k :: 0 <= k < |rows| && FirstIdFor(entries, rows[k]) == Some(id)
    decreases |rows|
  {
    if rows != [] {
      var init := rows[..|rows| - 1];
      IdsOfRowsMembers(entries, init);
      forall id ensures id in IdsOfRows(entries, rows) <==>
        exists k :: 0 <= k < |rows| && FirstIdFor(entries, rows[k]) == Some(id)
      {
        if id in IdsOfRows(entries, rows) && id !in IdsOfRows(entries, init) {
          assert FirstIdFor(entries, rows[|rows| - 1]) == Some(id);
        }
        if exists k :: 0 <= k < |rows| && FirstIdFor(entries, rows[k]) == Some(id) {
          var k :| 0 <= k < |rows| && FirstIdFor(entries, rows[k]) == Some(id);
          if k < |rows| - 1 {
            assert init[k] == rows[k];
          }
        }
      }
    }
  }

  predicate Distinct(xs: seq<int>) {
    forall a, b :: 0 <= a < b < |xs| ==> xs[a] != xs[b]
  }

  predicate UniqueIds(entries: seq<Entry>) {
    forall a, b :: 0 <= a < b < |entries| ==> entries[a].movieId != entries[b].movieId
  }

  /** The id of the last row is not among the ids of the earlier rows, which are all different from it. */
  lemma LastIdIsNew(entries: seq<Entry>, rows: seq<nat>)
    requires UniqueIds(entries)
    requires |rows| > 0 && forall k :: 0 <= k < |rows| - 1 ==> rows[k] != rows[|rows| - 1]
    requires FirstIdFor(entries, rows[|rows| - 1]).Some?
    ensures FirstIdFor(entries, rows[|rows| - 1]).value !in IdsOfRows(entries, rows[..|rows| - 1])
  {
    var init, last := rows[..|rows| - 1], rows[|rows| - 1];
    IdsOfRowsMembers(entries, init);
    forall k | 0 <= k < |init| ensures FirstIdFor(entries, init[k]) != FirstIdFor(entries, last) {
      assert init[k] == rows[k];
      OneRowPerId(entries, init[k], last);
    }
  }

  /** With a map whose movieIds are all different, two rows that find the same id are the same row. */
  lemma OneRowPerId(entries: seq<Entry>, r1: int, r2: int)
    requires UniqueIds(entries)
    ensures FirstIdFor(entries, r1).Some? && FirstIdFor(entries, r1) == FirstIdFor(entries, r2) ==> r1 == r2
  {
    if FirstIdFor(entries, r1).Some? && FirstIdFor(entries, r1) == FirstIdFor(entries, r2) {
      var id := FirstIdFor(entries, r1).value;
      var e1 :| 0 <= e1 < |entries| && entries[e1] == Entry(id, r1);
      var e2 :| 0 <= e2 < |entries| && entries[e2] == Entry(id, r2);
      assert e1 == e2;
    }
  }

  lemma AppendDistinct(xs: seq<int>, x: int)
    requires Distinct(xs) && x !in xs
    ensures Distinct(xs + [x])
  {
    var ys := xs + [x];
    forall a, b | 0 <= a < b < |ys| ensures ys[a] != ys[b] {
      assert ys[a] == xs[a];
      if b < |xs| { assert ys[b] == xs[b]; }
    }
  }

  /** With a map whose movieIds are all different, distinct rows give distinct ids. */
  lemma {:induction false} IdsOfRowsDistinct(entries: seq<Entry>, rows: seq<nat>)
    requires UniqueIds(entries)
    requires forall a, b :: 0 <= a < b < |rows| ==> rows[a] != rows[b]
    ensures Distinct(IdsOfRows(entries, rows))
    decreases |rows|
  {
    if rows != [] {
      var init := rows[..|rows| - 1];
      var last := rows[|rows| - 1];
      IdsOfRowsDistinct(entries, init);
      var before := IdsOfRows(entries, init);
      var id := FirstIdFor(entries, last);
      if id.Some? {
        LastIdIsNew(entries, rows);
        AppendDistinct(before, id.value);
        assert IdsOfRows(entries, rows) == before + [id.value];
      } else {
        assert IdsOfRows(entries, rows) == before + [];
        assert before + [] == before;
      }
    }
  }

  /* ---------- The search ---------- */

  /** numpy's `latent[row]`: a negative row counts from the end; `None` is an `IndexError`. */
  function LatentRow(row: int, n: nat): (b: Option<nat>)
    ensures b.Some? <==> -(n as int) <= row < n
    ensures b.Some? ==> b.value < n && (b.value == row || b.value == row + n)
  {
    if 0 <= row < n then Some(row)
    else if -(n as int) <= row < 0 then Some(row + n)
    else None
  }

  /** The cosine of the seed's row against every row, in row order. */
  function Scores(latent: seq<Vector>, cosine: (Vector, Vector) -> real, base: nat): (s: seq<real>)
    requires base < |latent|
    ensures |s| == |latent|
    ensures forall j :: 0 <= j < |latent| ==> s[j] == cosine(latent[base], latent[j])
  {
    seq(|latent|, j requires 0 <= j < |latent| => cosine(latent[base], latent[j]))
  }

  /**
   * The seed's row, when the search gets past its guards: the seed has
   * exactly one entry (none is "not in the index"; several make the seed
   * vector the wrong shape for the cosine, an exception) and that entry's row
   * exists.
   */
  function SeedRow(m: SearchModel, seed: int): (b: Option<nat>)
    ensures b.Some? ==> m.latent.Some? && m.entries.Some? && b.value < |m.latent.value|
    ensures b.Some? ==> exists row :: Entry(seed, row) in m.entries.value
  {
    if m.latent.None? || m.entries.None? then None
    else
      var rows := RowsFor(m.entries.value, seed);
      if |rows| != 1 then None
      else
        assert rows[0] in rows;
        LatentRow(rows[0], |m.latent.value|)
  }

  /** The rows kept: the ranking without its first row, then at most `topN` rows (`ordered[1:top_n + 1]`). */
  function Selected(scores: seq<real>, topN: int): seq<nat> {
    Slices.Slice(Ranked(scores), 1, topN + 1)
  }

  /** The movieIds `recomendar_por_similaridade(seed, topN)` returns. */
  function Recommended(m: SearchModel, cosine: (Vector, Vector) -> real, seed: int, topN: int): (ids: seq<int>)
    ensures m.latent.None? || m.entries.None? ==> ids == []
    ensures m.entries.Some? && (forall row :: Entry(seed, row) !in m.entries.value) ==> ids == []
    ensures topN >= 0 ==> |ids| <= topN
    ensures forall id :: id in ids ==> exists row :: Entry(id, row) in m.entries.value
  {
    match SeedRow(m, seed)
    case None => []
    case Some(base) =>
      var scores := Scores(m.latent.value, cosine, base);
      var ids := IdsOfRows(m.entries.value, Selected(scores, topN));
      assert topN >= 0 ==> |ids| <= topN by {
        if topN >= 0 { SelectedLength(scores, topN); }
      }
      assert forall id :: id in ids ==> exists row :: Entry(id, row) in m.entries.value by {
        IdsOfRowsMembers(m.entries.value, Selected(scores, topN));
        forall id | id in ids ensures exists row :: Entry(id, row) in m.entries.value {
          var k :| 0 <= k < |Selected(scores, topN)| && FirstIdFor(m.entries.value, Selected(scores, topN)[k]) == Some(id);
          var row := Selected(scores, topN)[k];
          var e :| 0 <= e < |m.entries.value| && m.entries.value[e] == Entry(id, row);
          assert Entry(id, row) in m.entries.value;
        }
      }
      ids
  }

  /** `recomendar_por_similaridade`: the guards, the ranking, then the loop that maps kept rows back to movieIds. */
  method RecommendBySimilarity(m: SearchModel, cosine: (Vector, Vector) -> real, seed: int, topN: int)
    returns (ids: seq<int>)
    ensures ids == Recommended(m, cosine, seed, topN)
  {
    if m.latent.None? || m.entries.None? {
      return [];
    }
    var entries := m.entries.value;
    var base := SeedRow(m, seed);
    if base.None? {
      return [];
    }
    var top := Selected(Scores(m.latent.value, cosine, base.value), topN);
    ids := [];
    var k := 0;
    while k < |top|
      invariant 0 <= k <= |top|
      invariant ids == IdsOfRows(entries, top[..k])
    {
      assert top[..k + 1][..k] == top[..k];
      var id := FirstIdFor(entries, top[k]);
      if id.Some? {
        ids := ids + [id.value];
      }
      k := k + 1;
    }
    assert top[..|top|] == top;
  }

  /* ---------- What the search promises ---------- */

  /** Where the kept rows end in the ranking of `n` rows. */
  function KeptEnd(n: nat, topN: int): nat {
    var a, b := Slices.Bound(1, n), Slices.Bound(topN + 1, n);
    if a <= b then b else a
  }

  /** The kept rows are one contiguous run of the ranking, starting right after its first row. */
  lemma SelectedIsRun(scores: seq<real>, topN: int)
    ensures |Ranked(scores)| == |scores|
    ensures Slices.Bound(1, |scores|) <= KeptEnd(|scores|, topN) <= |scores|
    ensures Selected(scores, topN) == Ranked(scores)[Slices.Bound(1, |scores|)..KeptEnd(|scores|, topN)]
  {
    RankedIsStableDescending(scores);
  }

  /** With `topN >= 0`, all rows but the first are kept up to `topN` of them. */
  lemma SelectedLength(scores: seq<real>, topN: int)
    requires topN >= 0
    ensures |Selected(scores, topN)| == if |scores| == 0 then 0 else if |scores| - 1 < topN then |scores| - 1 else topN
  {
    SelectedIsRun(scores, topN);
  }

  /** The kept rows are distinct and in descending score order, ties in row order. */
  lemma SelectedOrdered(scores: seq<real>, topN: int)
    ensures var sel := Selected(scores, topN);
      forall a, b :: 0 <= a < b < |sel| ==> sel[a] != sel[b] && Before(scores, sel[a], sel[b])
  {
    var r := Ranked(scores);
    var sel := Selected(scores, topN);
    SelectedIsRun(scores, topN);
    RankedIsStableDescending(scores);
    var lo := Slices.Bound(1, |scores|);
    forall a, b | 0 <= a < b < |sel| ensures sel[a] != sel[b] && Before(scores, sel[a], sel[b]) {
      assert sel[a] == r[lo + a] && sel[b] == r[lo + b];
    }
  }

  /**
   * The kept rows are the best-scoring rows after the first one: each kept
   * row scores at least as high as every row that is neither kept nor the
   * skipped first row.
   */
  lemma SelectedAreTopScores(scores: seq<real>, topN: int)
    ensures var sel := Selected(scores, topN);
      forall j, k :: j in sel && 0 <= k < |scores| && k !in sel && k != Ranked(scores)[0] ==> scores[j] >= scores[k]
  {
    var r := Ranked(scores);
    var sel := Selected(scores, topN);
    SelectedIsRun(scores, topN);
    RankedIsStableDescending(scores);
    var lo, hi := Slices.Bound(1, |scores|), KeptEnd(|scores|, topN);
    forall j, k | j in sel && 0 <= k < |scores| && k !in sel && k != r[0] ensures scores[j] >= scores[k] {
      var a :| 0 <= a < |sel| && sel[a] == j;
      assert r[lo + a] == j;
      assert k in r;
      var b :| 0 <= b < |r| && r[b] == k;
      assert Before(scores, r[lo + a], r[b]);
    }
  }

  /** When the seed's row scores strictly above every other row, the seed's row is the one skipped and is never kept. */
  lemma SeedSkippedWhenStrictlyBest(scores: seq<real>, base: nat, topN: int)
    requires base < |scores|
    requires forall j :: 0 <= j < |scores| && j != base ==> scores[j] < scores[base]
    ensures Ranked(scores)[0] == base
    ensures base !in Selected(scores, topN)
  {
    var r := Ranked(scores);
    RankedIsStableDescending(scores);
    assert r[0] == base by {
      assert base in r;
      var p :| 0 <= p < |r| && r[p] == base;
    }
    SelectedIsRun(scores, topN);
    var lo, hi := Slices.Bound(1, |scores|), KeptEnd(|scores|, topN);
    forall k | lo <= k < hi ensures r[k] != base {
      assert r[0] != r[k];
    }
  }

  /** With a map whose movieIds are all different, no id is returned twice. */
  lemma RecommendedDistinct(m: SearchModel, cosine: (Vector, Vector) -> real, seed: int, topN: int)
    requires m.entries.Some? && UniqueIds(m.entries.value)
    ensures Distinct(Recommended(m, cosine, seed, topN))
  {
    var b := SeedRow(m, seed);
    if b.Some? {
      var scores := Scores(m.latent.value, cosine, b.value);
      SelectedOrdered(scores, topN);
      IdsOfRowsDistinct(m.entries.value, Selected(scores, topN));
      assert Recommended(m, cosine, seed, topN) == IdsOfRows(m.entries.value, Selected(scores, topN));
    }
  }

  /** Two movies with identical latent rows: 7 on row 0 and 8 on row 1. */
  function TwinModel(): SearchModel {
    SearchModel(Some([[1.0], [1.0]]), Some([Entry(7, 0), Entry(8, 1)]))
  }

  /**
   * The row skipped is the first of the order, not the seed's: when an
   * earlier row ties with the seed's, that row is dropped and the seed itself
   * is recommended.
   */
  lemma TiedSeedIsRecommended(cosine: (Vector, Vector) -> real)
    requires forall u: Vector, v: Vector :: cosine(u, v) == 1.0
    ensures Recommended(TwinModel(), cosine, 8, 1) == [8]
  {
    var m := TwinModel();
    TwinSeedRow();
    var scores := Scores(m.latent.value, cosine, 1);
    assert scores == [1.0, 1.0];
    TiedPairKeepsSecond(scores);
    TwinIds();
  }

  lemma TwinSeedRow()
    ensures SeedRow(TwinModel(), 8) == Some(1)
  {
    assert RowsFor(TwinModel().entries.value, 8) == [1];
  }

  /** Two equal scores rank in row order, so the row kept after the first is row 1. */
  lemma TiedPairKeepsSecond(scores: seq<real>)
    requires scores == [1.0, 1.0]
    ensures Selected(scores, 1) == [1]
  {
    RankedIsStableDescending(scores);
    var r := Ranked(scores);
    assert Before(scores, r[0], r[1]);
    assert r == [0, 1];
    Slices.SliceFromTo(r, 1, 2);
  }

  lemma TwinIds()
    ensures IdsOfRows(TwinModel().entries.value, [1]) == [8]
  {
    assert FirstIdFor(TwinModel().entries.value, 1) == Some(8);
    assert [1][..0] == [];
  }

}
