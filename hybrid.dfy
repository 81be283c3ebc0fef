/**
 * The hybrid recommender (`gerar_recomendacoes_hibridas` in
 * Codigo_fonte/recomendar.py).
 *
 * For one user and a time budget it builds two candidate lists: "Lista A",
 * the collaborative-filtering predictions for every catalogue movie the user
 * has not rated, and "Lista B", the content neighbours of the user's
 * favourites (ratings of 4.5 or more). Their union, minus what the user has
 * rated, is filtered by duration, predicted rating and time budget; each
 * survivor gets a priority from the fuzzy engine (0 when the engine fails);
 * the survivors are sorted by descending priority and the first `top_n`
 * are returned.
 *
 * The CF predictor and the fuzzy engine are opaque functions; a `None`
 * result is an exception they raise. The content neighbours are the ones
 * the similarity search computes.
 */
module Hybrid {
  import opened Options
  import opened Tables
  import Text
  import Slices
  import Similarity
  import Sets

  /** `predict(uid, iid).est`; `None` is an exception. */
  type Predictor = (int, int) -> Option<real>

  /** The fuzzy system's `prioridade_final` for (`nota_prevista`, `tempo_disponivel`); `None` is an exception in `compute()`. */
  type FuzzyEngine = (real, int) -> Option<real>

  /** The `duracao` cell of a catalogue row: no such column, a value `int()` rejects (NaN), or a number. */
  datatype Duration = Absent | NotANumber | Minutes(value: real)

  /** One row of the catalogue, which is indexed by movieId; `title` is `None` when there is no `titulo` column. */
  datatype Movie = Movie(title: Option<string>, duration: Duration)

  /** Everything the module loads when it is imported; `None` is a resource that failed to load. */
  datatype Resources = Resources(
    catalogue: Option<map<int, Movie>>,
    ratings: Option<seq<Rating>>,
    cf: Option<Predictor>,
    fuzzy: Option<FuzzyEngine>,
    search: Similarity.SearchModel,
    cosine: (Similarity.Vector, Similarity.Vector) -> real)

  /** One row of the result table. */
  datatype Recommendation = Recommendation(movieId: int, title: string, priority: real, predicted: real, duration: int)

  /** Content neighbours asked for per favourite (`num_recs_per_movie`). */
  const NeighboursPerFavourite: int := 25
  /** Bounds the predicted rating and the time budget must lie within. */
  const MinRating: real := 1.0
  const MaxRating: real := 5.0
  const MinTime: int := 0
  const MaxTime: int := 200
  /** A favourite is a movie rated at least this. */
  const FavouriteRating: real := 4.5

  /* ---------- The user's history ---------- */

  function Seen(rows: seq<Rating>): set<int> {
    set r | r in rows :: r.movieId
  }

  function Favourites(rows: seq<Rating>): (favs: set<int>)
    ensures favs <= Seen(rows)
    ensures forall id :: id in favs <==> exists r :: r in rows && r.movieId == id && r.rating >= FavouriteRating
  {
    set r | r in rows && r.rating >= FavouriteRating :: r.movieId
  }

  /* ---------- Lista A ---------- */

  /** Lista A as a map: every movie of `ids` that is in the catalogue and that the predictor does not fail on, with its prediction. */
  function Predictions(cf: Predictor, user: int, ids: set<int>, catalogue: map<int, Movie>): (m: map<int, real>)
    ensures forall id :: id in m <==> id in ids && id in catalogue && cf(user, id).Some?
    ensures forall id :: id in m ==> m[id] == cf(user, id).value
  {
    map id | id in ids && id in catalogue && cf(user, id).Some? :: cf(user, id).value
  }

  /** `_get_lista_a_cf`: one prediction per unseen movie; a failed prediction skips only that movie. */
  method PredictUnseen(cf: Predictor, user: int, unseen: set<int>, catalogue: map<int, Movie>)
    returns (predictions: map<int, real>)
    ensures predictions == Predictions(cf, user, unseen, catalogue)
  {
    predictions := map[];
    var todo := unseen;
    while todo != {}
      invariant todo <= unseen
      invariant predictions == Predictions(cf, user, unseen - todo, catalogue)
      decreases |todo|
    {
      ghost var some := Sets.Pick(todo);
      var movieId :| movieId in todo;
      PredictionsGrow(cf, user, unseen - todo, movieId, catalogue);
      if movieId in catalogue {
        var p := cf(user, movieId);
        if p.Some? {
          predictions := predictions[movieId := p.value];
        }
      }
      assert unseen - (todo - {movieId}) == (unseen - todo) + {movieId};
      todo := todo - {movieId};
    }
  }

  /** One more movie adds its prediction, when it is in the catalogue and the predictor does not fail on it, and nothing else. */
  lemma PredictionsGrow(cf: Predictor, user: int, done: set<int>, movieId: int, catalogue: map<int, Movie>)
    ensures Predictions(cf, user, done + {movieId}, catalogue) ==
      if movieId in catalogue && cf(user, movieId).Some?
      then Predictions(cf, user, done, catalogue)[movieId := cf(user, movieId).value]
      else Predictions(cf, user, done, catalogue)
  {
  }

  /* ---------- Lista B ---------- */

  /** The content neighbours of the seeds, where every seed outside the catalogue is skipped. */
  function Neighbours(seeds: set<int>, r: Resources, catalogue: map<int, Movie>): (ids: set<int>)
    ensures forall id :: id in ids <==>
      exists seed :: seed in seeds && seed in catalogue && id in Similarity.Recommended(r.search, r.cosine, seed, NeighboursPerFavourite)
  {
    set seed, id | seed in seeds && seed in catalogue && id in Similarity.Recommended(r.search, r.cosine, seed, NeighboursPerFavourite) :: id
  }

  /** `_get_lista_b_pnl`: the union of the neighbour lists of the favourites. */
  method NeighboursOfFavourites(favourites: set<int>, r: Resources, catalogue: map<int, Movie>)
    returns (candidates: set<int>)
    ensures candidates == Neighbours(favourites, r, catalogue)
  {
    candidates := {};
    var todo := favourites;
    while todo != {}
      invariant todo <= favourites
      invariant candidates == Neighbours(favourites - todo, r, catalogue)
      decreases |todo|
    {
      ghost var some := Sets.Pick(todo);
      var seed :| seed in todo;
      if seed in catalogue {
        var similar := Similarity.RecommendBySimilarity(r.search, r.cosine, seed, NeighboursPerFavourite);
        candidates := candidates + set id | id in similar;
      }
      todo := todo - {seed};
    }
  }

  /* ---------- Filtering and scoring ---------- */

  /** Python's `int(x)` on a float: the integer part, truncated toward zero. */
  function Truncate(x: real): (n: int)
    ensures x >= 0.0 ==> n as real <= x < n as real + 1.0
    ensures x < 0.0 ==> n as real - 1.0 < x <= n as real
  {
    if x >= 0.0 then x.Floor else -((-x).Floor)
  }

  /** `f"Filme ID {movie_id}"`. */
  function DefaultTitle(id: int): string {
    "Filme ID " + Text.ShowInt(id)
  }

  /**
   * One pass of the main loop for one candidate: `None` is a `continue`.
   * The candidate must be in the catalogue with a numeric duration of at
   * most `tempo` minutes and must have a Lista A prediction within
   * [1, 5], and `tempo` must lie within [0, 200].
   */
  function Assess(catalogue: map<int, Movie>, listA: map<int, real>, fuzzy: FuzzyEngine, tempo: int, id: int)
    : (r: Option<Recommendation>)
    ensures r.Some? ==> r.value.movieId == id
  {
    if id !in catalogue then None
    else match catalogue[id].duration
      case Absent => None
      case NotANumber => None
      case Minutes(v) =>
        var d := Truncate(v);
        if d > tempo then None
        else if id !in listA then None
        else
          var p := listA[id];
          if !(MinRating <= p <= MaxRating) then None
          else if !(MinTime <= tempo <= MaxTime) then None
          else Some(Recommendation(id, catalogue[id].title.GetOr(DefaultTitle(id)), fuzzy(p, tempo).GetOr(0.0), p, d))
  }

  /** The rows the main loop appends for the candidates `ids`. */
  function Assessed(catalogue: map<int, Movie>, listA: map<int, real>, fuzzy: FuzzyEngine, tempo: int, ids: set<int>)
    : set<Recommendation>
  {
    set id | id in ids && Assess(catalogue, listA, fuzzy, tempo, id).Some? :: Assess(catalogue, listA, fuzzy, tempo, id).value
  }

  predicate Loaded(r: Resources) {
    r.catalogue.Some? && r.ratings.Some? && r.cf.Some? && r.fuzzy.Some?
  }

  /**
   * What a row of the result says about its movie: in the catalogue, not
   * rated by the user, a duration that truncates to at most `tempo`, a CF
   * prediction within [1, 5], `tempo` within [0, 200], and the fuzzy
   * priority (0 when the engine fails) and catalogue title (or the
   * default title) recorded.
   */
  predicate Acceptable(r: Resources, user: int, tempo: int, rec: Recommendation)
    requires Loaded(r)
  {
    var catalogue := r.catalogue.value;
    var id := rec.movieId;
    id in catalogue
    && id !in Seen(RowsOf(r.ratings.value, user))
    && catalogue[id].duration.Minutes?
    && rec.duration == Truncate(catalogue[id].duration.value) && rec.duration <= tempo
    && r.cf.value(user, id) == Some(rec.predicted) && MinRating <= rec.predicted <= MaxRating
    && MinTime <= tempo <= MaxTime
    && rec.priority == r.fuzzy.value(rec.predicted, tempo).GetOr(0.0)
    && rec.title == catalogue[id].title.GetOr(DefaultTitle(id))
  }

  /** The rows the main loop collects, before sorting: none when a resource is missing or empty or the user has no ratings. */
  function Survivors(r: Resources, user: int, tempo: int): (s: set<Recommendation>)
    ensures s != {} ==> Loaded(r) && RowsOf(r.ratings.value, user) != []
  {
    if !Loaded(r) || r.catalogue.value == map[] || r.ratings.value == [] then {}
    else
      var rows := RowsOf(r.ratings.value, user);
      if rows == [] then {}
      else
        var catalogue := r.catalogue.value;
        var seen := Seen(rows);
        var listA := Predictions(r.cf.value, user, catalogue.Keys - seen, catalogue);
        var listB := Neighbours(Favourites(rows), r, catalogue);
        Assessed(catalogue, listA, r.fuzzy.value, tempo, (listA.Keys + listB) - seen)
  }

  /* ---------- Ordering and truncation ---------- */

  predicate ByPriority(xs: seq<Recommendation>) {
    forall i, j :: 0 <= i < j < |xs| ==> xs[i].priority >= xs[j].priority
  }

  predicate DistinctIds(xs: seq<Recommendation>) {
    forall i, j :: 0 <= i < j < |xs| ==> xs[i].movieId != xs[j].movieId
  }

  lemma ConsByPriority(x: Recommendation, t: seq<Recommendation>)
    ensures ByPriority([x] + t) <==> (forall y :: y in t ==> x.priority >= y.priority) && ByPriority(t)
  {
    var s := [x] + t;
    if (forall y :: y in t ==> x.priority >= y.priority) && ByPriority(t) {
      forall i, j | 0 <= i < j < |s| ensures s[i].priority >= s[j].priority {
        assert s[j] == t[j - 1] && t[j - 1] in t;
        if i > 0 { assert s[i] == t[i - 1]; }
      }
    }
    if ByPriority(s) {
      forall y | y in t ensures x.priority >= y.priority {
        var k :| 0 <= k < |t| && t[k] == y;
        assert s[0] == x && s[k + 1] == y;
      }
      forall i, j | 0 <= i < j < |t| ensures t[i].priority >= t[j].priority {
        assert s[i + 1] == t[i] && s[j + 1] == t[j];
      }
    }
  }

  lemma ConsDistinctIds(x: Recommendation, t: seq<Recommendation>)
    ensures DistinctIds([x] + t) <==> (forall y :: y in t ==> x.movieId != y.movieId) && DistinctIds(t)
  {
    var s := [x] + t;
    if (forall y :: y in t ==> x.movieId != y.movieId) && DistinctIds(t) {
      forall i, j | 0 <= i < j < |s| ensures s[i].movieId != s[j].movieId {
        assert s[j] == t[j - 1] && t[j - 1] in t;
        if i > 0 { assert s[i] == t[i - 1]; }
      }
    }
    if DistinctIds(s) {
      forall y | y in t ensures x.movieId != y.movieId {
        var k :| 0 <= k < |t| && t[k] == y;
        assert s[0] == x && s[k + 1] == y;
      }
      forall i, j | 0 <= i < j < |t| ensures t[i].movieId != t[j].movieId {
        assert s[i + 1] == t[i] && s[j + 1] == t[j];
      }
    }
  }

  lemma AppendDistinctIds(xs: seq<Recommendation>, x: Recommendation)
    requires DistinctIds(xs) && forall y :: y in xs ==> y.movieId != x.movieId
    ensures DistinctIds(xs + [x])
  {
    var s := xs + [x];
    forall i, j | 0 <= i < j < |s| ensures s[i].movieId != s[j].movieId {
      assert s[i] == xs[i];
      if j < |xs| { assert s[j] == xs[j]; }
    }
  }

  lemma ConsBoth(x: Recommendation, t: seq<Recommendation>)
    ensures ByPriority([x] + t) <==> (forall y :: y in t ==> x.priority >= y.priority) && ByPriority(t)
    ensures DistinctIds([x] + t) <==> (forall y :: y in t ==> x.movieId != y.movieId) && DistinctIds(t)
  {
    ConsByPriority(x, t);
    ConsDistinctIds(x, t);
  }

  /** `x` placed into the rows `ys`, which are in descending priority. */
  function InsertByPriority(x: Recommendation, ys: seq<Recommendation>): (zs: seq<Recommendation>)
    ensures multiset(zs) == multiset(ys) + multiset{x}
    ensures forall y :: y in zs <==> y == x || y in ys
    decreases |ys|
  {
    if ys == [] || x.priority >= ys[0].priority then [x] + ys
    else
      assert ys == [ys[0]] + ys[1..];
      [ys[0]] + InsertByPriority(x, ys[1..])
  }

  lemma {:induction false} InsertKeepsOrder(x: Recommendation, ys: seq<Recommendation>)
    requires ByPriority(ys)
    ensures ByPriority(InsertByPriority(x, ys))
    ensures DistinctIds(ys) && (forall y :: y in ys ==> y.movieId != x.movieId) ==> DistinctIds(InsertByPriority(x, ys))
    decreases |ys|
  {
    if ys == [] || x.priority >= ys[0].priority {
      assert ByPriority([x] + ys) by {
        if ys != [] {
          assert ys == [ys[0]] + ys[1..];
          ConsByPriority(ys[0], ys[1..]);
        }
        ConsByPriority(x, ys);
      }
      ConsDistinctIds(x, ys);
    } else {
      var t := ys[1..];
      var head := ys[0];
      assert ys == [head] + t;
      InsertKeepsOrder(x, t);
      var zs := InsertByPriority(x, t);
      assert ByPriority([head] + zs) by {
        ConsByPriority(head, t);
        ConsByPriority(head, zs);
      }
      if DistinctIds(ys) && (forall y :: y in ys ==> y.movieId != x.movieId) {
        assert DistinctIds([head] + zs) by {
          ConsDistinctIds(head, t);
          assert head in ys;
          ConsDistinctIds(head, zs);
        }
      }
    }
  }

  /** `sort_values(by='prioridade_fuzzy', ascending=False)`: the same rows in descending priority. */
  function SortByPriority(xs: seq<Recommendation>): (ys: seq<Recommendation>)
    ensures multiset(ys) == multiset(xs)
    ensures forall y :: y in ys <==> y in xs
    decreases |xs|
  {
    if xs == [] then []
    else
      assert xs == [xs[0]] + xs[1..];
      InsertByPriority(xs[0], SortByPriority(xs[1..]))
  }

  /** The sort leaves the rows in descending priority and keeps movieIds distinct. */
  lemma {:induction false} SortByPriorityOrders(xs: seq<Recommendation>)
    ensures ByPriority(SortByPriority(xs))
    ensures DistinctIds(xs) ==> DistinctIds(SortByPriority(xs))
    decreases |xs|
  {
    if xs != [] {
      var t := xs[1..];
      assert xs == [xs[0]] + t;
      SortByPriorityOrders(t);
      ConsBoth(xs[0], t);
      InsertKeepsOrder(xs[0], SortByPriority(t));
    }
  }

  /** pandas' `head(n)`: the first `n` rows; a negative `n` drops the last `-n` rows. */
  function Head(xs: seq<Recommendation>, n: int): (h: seq<Recommendation>)
    ensures |h| <= |xs| && h == xs[..|h|]
    ensures n >= 0 ==> |h| == if n < |xs| then n else |xs|
    ensures n < 0 ==> |h| == if |xs| + n < 0 then 0 else |xs| + n
  {
    Slices.Slice(xs, 0, n)
  }

  /**
   * A valid result for the survivors `s`: the first `topN` rows of some
   * ordering of `s` by descending priority. pandas' default sort is not
   * stable, so rows of equal priority may come in any order.
   */
  ghost predicate IsRecommendation(recs: seq<Recommendation>, s: set<Recommendation>, topN: int) {
    exists ranking: seq<Recommendation> ::
      (forall x :: x in ranking <==> x in s) && DistinctIds(ranking) && ByPriority(ranking)
      && recs == Head(ranking, topN)
  }

  /* ---------- The pipeline ---------- */

  /** The main loop's set of rows, one per candidate that passes every filter. */
  lemma AssessedStep(catalogue: map<int, Movie>, listA: map<int, real>, fuzzy: FuzzyEngine, tempo: int, done: set<int>, id: int)
    ensures forall x :: x in Assessed(catalogue, listA, fuzzy, tempo, done + {id}) <==>
      x in Assessed(catalogue, listA, fuzzy, tempo, done) || Assess(catalogue, listA, fuzzy, tempo, id) == Some(x)
  {
  }

  /** The main loop over the candidates: one row for each candidate that passes every filter, in no particular order. */
  method AssessAll(catalogue: map<int, Movie>, listA: map<int, real>, fuzzy: FuzzyEngine, tempo: int, candidates: set<int>)
    returns (found: seq<Recommendation>)
    ensures forall x :: x in found <==> x in Assessed(catalogue, listA, fuzzy, tempo, candidates)
    ensures DistinctIds(found)
  {
    found := [];
    var todo := candidates;
    while todo != {}
      invariant todo <= candidates
      invariant forall x :: x in found <==> x in Assessed(catalogue, listA, fuzzy, tempo, candidates - todo)
      invariant forall x :: x in found ==> x.movieId !in todo
      invariant DistinctIds(found)
      decreases |todo|
    {
      ghost var some := Sets.Pick(todo);
      var id :| id in todo;
      AssessedStep(catalogue, listA, fuzzy, tempo, candidates - todo, id);
      assert candidates - (todo - {id}) == (candidates - todo) + {id};
      var rec := Assess(catalogue, listA, fuzzy, tempo, id);
      if rec.Some? {
        AppendDistinctIds(found, rec.value);
        found := found + [rec.value];
      }
      todo := todo - {id};
    }
    assert candidates - todo == candidates;
  }

  /** `gerar_recomendacoes_hibridas(user, tempo, top_n)`. */
  method Recommend(r: Resources, user: int, tempo: int, topN: int) returns (recs: seq<Recommendation>)
    ensures IsRecommendation(recs, Survivors(r, user, tempo), topN)
  {
    if !Loaded(r) || r.catalogue.value == map[] || r.ratings.value == [] {
      assert IsRecommendation([], {}, topN) by { assert Head([], topN) == []; }
      return [];
    }
    var catalogue, cf, fuzzy := r.catalogue.value, r.cf.value, r.fuzzy.value;
    var rows := RowsOf(r.ratings.value, user);
    if rows == [] {
      assert IsRecommendation([], {}, topN) by { assert Head([], topN) == []; }
      return [];
    }
    var seen := Seen(rows);
    var favourites := Favourites(rows);
    var listA := PredictUnseen(cf, user, catalogue.Keys - seen, catalogue);
    var listB := NeighboursOfFavourites(favourites, r, catalogue);
    var candidates := (listA.Keys + listB) - seen;
    ghost var survivors := Assessed(catalogue, listA, fuzzy, tempo, candidates);
    assert survivors == Survivors(r, user, tempo);
    var found := AssessAll(catalogue, listA, fuzzy, tempo, candidates);
    if found == [] {
      assert IsRecommendation([], survivors, topN) by { assert Head([], topN) == []; }
      return [];
    }
    var ranking := SortByPriority(found);
    SortByPriorityOrders(found);
    recs := Head(ranking, topN);
    assert (forall x :: x in ranking <==> x in survivors) && DistinctIds(ranking) && ByPriority(ranking)
      && recs == Head(ranking, topN);
  }

  /* ---------- What the pipeline promises ---------- */

  /**
   * The survivors are exactly the acceptable rows: Lista B contributes no
   * movie that Lista A lacks, a failed prediction drops only its own movie,
   * and a failed fuzzy computation keeps the movie with priority 0.
   */
  lemma SurvivorsAreAcceptable(r: Resources, user: int, tempo: int, rec: Recommendation)
    ensures rec in Survivors(r, user, tempo) <==>
      Loaded(r) && RowsOf(r.ratings.value, user) != [] && Acceptable(r, user, tempo, rec)
  {
    if Loaded(r) && r.catalogue.value != map[] && r.ratings.value != [] && RowsOf(r.ratings.value, user) != [] {
      var catalogue := r.catalogue.value;
      var rows := RowsOf(r.ratings.value, user);
      var seen := Seen(rows);
      var listA := Predictions(r.cf.value, user, catalogue.Keys - seen, catalogue);
      var listB := Neighbours(Favourites(rows), r, catalogue);
      var candidates := (listA.Keys + listB) - seen;
      if rec in Survivors(r, user, tempo) {
        var id :| id in candidates && Assess(catalogue, listA, r.fuzzy.value, tempo, id) == Some(rec);
        assert Acceptable(r, user, tempo, rec);
      }
      if Acceptable(r, user, tempo, rec) {
        var id := rec.movieId;
        assert id in listA && id in candidates;
        assert Assess(catalogue, listA, r.fuzzy.value, tempo, id) == Some(rec);
      }
    }
  }

  /** A time budget outside [0, 200] leaves no survivor, so the result is empty. */
  lemma NoSurvivorsOutsideTimeRange(r: Resources, user: int, tempo: int)
    requires !(MinTime <= tempo <= MaxTime)
    ensures Survivors(r, user, tempo) == {}
  {
    forall rec | rec in Survivors(r, user, tempo) ensures false {
      SurvivorsAreAcceptable(r, user, tempo, rec);
    }
  }

  /**
   * What any valid result promises: rows of the survivors only, no movieId
   * twice, descending priority, at most `topN` rows, and no left-out
   * survivor with a higher priority than a returned row.
   */
  lemma RecommendationShape(recs: seq<Recommendation>, s: set<Recommendation>, topN: int)
    requires IsRecommendation(recs, s, topN)
    ensures forall x :: x in recs ==> x in s
    ensures DistinctIds(recs) && ByPriority(recs)
    ensures topN >= 0 ==> |recs| <= topN
    ensures s == {} ==> recs == []
    ensures forall x, y :: x in recs && y in s && y !in recs ==> y.priority <= x.priority
  {
    var ranking :| (forall x :: x in ranking <==> x in s) && DistinctIds(ranking) && ByPriority(ranking)
      && recs == Head(ranking, topN);
    var n := |recs|;
    assert recs == ranking[..n];
    forall x | x in recs ensures x in s {
      var i :| 0 <= i < n && recs[i] == x;
      assert ranking[i] == x;
    }
    forall i, j | 0 <= i < j < n ensures recs[i].priority >= recs[j].priority && recs[i].movieId != recs[j].movieId {
      assert recs[i] == ranking[i] && recs[j] == ranking[j];
    }
    forall x, y | x in recs && y in s && y !in recs ensures y.priority <= x.priority {
      var i :| 0 <= i < n && recs[i] == x;
      var j :| 0 <= j < |ranking| && ranking[j] == y;
      assert ranking[i] == x;
    }
    if recs != [] {
      assert recs[0] in s;
    }
  }

  /**
   * Every row `Recommend` returns is a movie the user has not rated, in
   * the catalogue, no longer than the time budget, with a CF prediction
   * within [1, 5]; and nothing comes back when a resource is missing, the
   * user has no ratings or the budget lies outside [0, 200].
   */
  lemma RecommendationsAreSafe(r: Resources, user: int, tempo: int, topN: int, recs: seq<Recommendation>)
    requires IsRecommendation(recs, Survivors(r, user, tempo), topN)
    ensures !Loaded(r) || RowsOf(r.ratings.value, user) == [] || !(MinTime <= tempo <= MaxTime) ==> recs == []
    ensures forall x :: x in recs ==> Loaded(r) && Acceptable(r, user, tempo, x)
  {
    RecommendationShape(recs, Survivors(r, user, tempo), topN);
    if !(MinTime <= tempo <= MaxTime) {
      NoSurvivorsOutsideTimeRange(r, user, tempo);
    }
    forall x | x in recs ensures Loaded(r) && Acceptable(r, user, tempo, x) {
      SurvivorsAreAcceptable(r, user, tempo, x);
    }
  }
}
