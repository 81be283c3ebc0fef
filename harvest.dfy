/**
 * The catalogue harvester: for every MovieLens link with a TMDB id, one
 * movie-details response is turned into one catalogue record (title,
 * synopsis, genres, runtime, director, first actors).
 *
 * The HTTP request is not modelled: the response is passed in, as a status
 * code and the JSON fields the code reads, each of which may be missing or
 * null.
 */
module Harvest {
  import opened Options
  import Text

  /** A JSON field: absent, `null`, or a value. */
  datatype Json<T> = Missing | Null | Has(value: T)

  datatype CrewMember = CrewMember(job: string, name: string)

  /** The parts of `GET /movie/{id}?append_to_response=credits` that are read. */
  datatype Response = Response(
    status: int,
    title: Json<string>,
    overview: Json<string>,
    genres: Json<seq<string>>,
    runtime: Json<int>,
    cast: Json<seq<string>>,
    crew: Json<seq<CrewMember>>)

  /** One row of `filmes.csv`; `None` in a text column is a JSON `null` carried through. */
  datatype MovieRecord = MovieRecord(
    movieId: int, title: Option<string>, synopsis: Option<string>, genres: string,
    duration: int, director: string, actors: string, tmdbId: int)

  /** `buscar_detalhes_filme`'s outcomes: no record for a non-200 status; iterating over a `null` list raises `TypeError`, which nothing catches. */
  datatype Fetched = NotOk | Record(record: MovieRecord) | TypeError

  /** A row of `links.csv`; `tmdbId` is `None` where `pd.to_numeric(..., errors='coerce')` gave `NA`. */
  datatype Link = Link(movieId: int, tmdbId: Option<int>)

  datatype Harvested = Harvested(records: seq<MovieRecord>) | Crashed

  const Separator: char := '|'
  const MaxActors: nat := 5
  const DirectorJob: string := "Director"

  /** `data.get(key, '')`: a missing text field reads as empty, a `null` stays `null`. */
  function TextOr(field: Json<string>): (t: Option<string>)
    ensures field.Has? ==> t == Some(field.value)
    ensures field.Missing? ==> t == Some("")
    ensures field.Null? ==> t == None
  {
    match field
    case Missing => Some("")
    case Null => None
    case Has(s) => Some(s)
  }

  /** `duracao`: the runtime, or 0 when it is missing or `null`. */
  function Duration(runtime: Json<int>): (d: int)
    ensures runtime.Has? ==> d == runtime.value
    ensures !runtime.Has? ==> d == 0
  {
    match runtime
    case Has(n) => n
    case _ => 0
  }

  /** Position of the first crew member whose job is "Director". */
  function FirstDirector(crew: seq<CrewMember>): (k: Option<nat>)
    ensures k.None? <==> forall j :: 0 <= j < |crew| ==> crew[j].job != DirectorJob
    ensures k.Some? ==> k.value < |crew| && crew[k.value].job == DirectorJob
    ensures k.Some? ==> forall j :: 0 <= j < k.value ==> crew[j].job != DirectorJob
    decreases |crew|
  {
    if crew == [] then None
    else if crew[0].job == DirectorJob then Some(0)
    else
      assert forall j :: 1 <= j < |crew| ==> crew[j] == crew[1..][j - 1];
      match FirstDirector(crew[1..])
      case None => None
      case Some(j) => Some(j + 1)
  }

  /** `diretor`: the name of the first director, or "" when the crew has none. */
  function DirectorOf(crew: seq<CrewMember>): string {
    match FirstDirector(crew)
    case None => ""
    case Some(k) => crew[k].name
  }

  /** The record `buscar_detalhes_filme` builds from a response. */
  function Details(movieId: int, tmdbId: int, resp: Response): Fetched {
    if resp.status != 200 then NotOk
    else if resp.genres.Null? || resp.cast.Null? || resp.crew.Null? then TypeError
    else
      var genres := if resp.genres.Has? then resp.genres.value else [];
      var cast := if resp.cast.Has? then resp.cast.value else [];
      var crew := if resp.crew.Has? then resp.crew.value else [];
      Record(MovieRecord(
        movieId, TextOr(resp.title), TextOr(resp.overview),
        Text.JoinWith(Separator, genres),
        Duration(resp.runtime),
        DirectorOf(crew),
        Text.JoinWith(Separator, FirstActors(cast)),
        tmdbId))
  }

  /** `cast[:5]`. */
  function FirstActors(cast: seq<string>): (first: seq<string>)
    ensures |first| == if |cast| < MaxActors then |cast| else MaxActors
    ensures first == cast[..|first|]
  {
    if |cast| < MaxActors then cast else cast[..MaxActors]
  }

  /* ---------- Properties of one record ---------- */

  /** A non-200 status never yields a record. */
  lemma NonOkHasNoRecord(movieId: int, tmdbId: int, resp: Response)
    requires resp.status != 200
    ensures !Details(movieId, tmdbId, resp).Record?
  {
  }

  /** When no genre name contains '|', splitting `generos` on '|' gives the genre names back, in order. */
  lemma GenresRoundTrip(movieId: int, tmdbId: int, resp: Response)
    requires Details(movieId, tmdbId, resp).Record?
    requires resp.genres.Has? && resp.genres.value != []
    requires forall i :: 0 <= i < |resp.genres.value| ==> Separator !in resp.genres.value[i]
    ensures Text.SplitOn(Separator, Details(movieId, tmdbId, resp).record.genres) == resp.genres.value
  {
    Text.SplitJoin(Separator, resp.genres.value);
  }

  /** Likewise `atores` splits back into at most the first five cast names. */
  lemma ActorsRoundTrip(movieId: int, tmdbId: int, resp: Response)
    requires Details(movieId, tmdbId, resp).Record?
    requires resp.cast.Has? && resp.cast.value != []
    requires forall i :: 0 <= i < |resp.cast.value| ==> Separator !in resp.cast.value[i]
    ensures var names := Text.SplitOn(Separator, Details(movieId, tmdbId, resp).record.actors);
      1 <= |names| <= MaxActors && |names| <= |resp.cast.value| && names == resp.cast.value[..|names|]
  {
    var first := FirstActors(resp.cast.value);
    forall i | 0 <= i < |first| ensures Separator !in first[i] {
      assert first[i] == resp.cast.value[i];
    }
    Text.SplitJoin(Separator, first);
  }

  /** The director is the first crew member with that job, and "" exactly when there is none (or that member's name is empty). */
  lemma DirectorIsFirst(crew: seq<CrewMember>)
    ensures (forall j :: 0 <= j < |crew| ==> crew[j].job != DirectorJob) ==> DirectorOf(crew) == ""
    ensures forall k :: (0 <= k < |crew| && crew[k].job == DirectorJob
      && (forall j :: 0 <= j < k ==> crew[j].job != DirectorJob)) ==> DirectorOf(crew) == crew[k].name
  {
    forall k | 0 <= k < |crew| && crew[k].job == DirectorJob && (forall j :: 0 <= j < k ==> crew[j].job != DirectorJob)
      ensures DirectorOf(crew) == crew[k].name
    {
      var f := FirstDirector(crew).value;
      assert !(f < k) && !(k < f);
    }
  }

  /* ---------- The loops ---------- */

  /** The `for member in crew` loop that stops at the first director. */
  method FindDirector(crew: seq<CrewMember>) returns (director: string)
    ensures director == DirectorOf(crew)
  {
    director := "";
    for i := 0 to |crew|
      invariant forall j :: 0 <= j < i ==> crew[j].job != DirectorJob
    {
      if crew[i].job == DirectorJob {
        director := crew[i].name;
        return;
      }
    }
  }

  /** `buscar_detalhes_filme` given the response. */
  method FetchDetails(movieId: int, tmdbId: int, resp: Response) returns (fetched: Fetched)
    ensures fetched == Details(movieId, tmdbId, resp)
  {
    if resp.status != 200 {
      return NotOk;
    }
    if resp.genres.Null? || resp.cast.Null? || resp.crew.Null? {
      return TypeError;
    }
    var crew := if resp.crew.Has? then resp.crew.value else [];
    var director := FindDirector(crew);
    var genres := if resp.genres.Has? then resp.genres.value else [];
    var cast := if resp.cast.Has? then resp.cast.value else [];
    fetched := Record(MovieRecord(
      movieId, TextOr(resp.title), TextOr(resp.overview),
      Text.JoinWith(Separator, genres), Duration(resp.runtime), director,
      Text.JoinWith(Separator, FirstActors(cast)), tmdbId));
  }

  /** `pd.isna(tmdb_id) or tmdb_id == 0`. */
  predicate Skipped(link: Link) {
    link.tmdbId.None? || link.tmdbId.value == 0
  }

  /** What `iniciar_coleta` gathers from the links, in link order, with `api` answering each TMDB id. */
  function Harvest(links: seq<Link>, api: int -> Response): Harvested
    decreases |links|
  {
    if links == [] then Harvested([])
    else
      var init := Harvest(links[..|links| - 1], api);
      var link := links[|links| - 1];
      if init.Crashed? || Skipped(link) then init
      else match Details(link.movieId, link.tmdbId.value, api(link.tmdbId.value))
        case NotOk => init
        case TypeError => Crashed
        case Record(r) => Harvested(init.records + [r])
  }

  /** Every harvested record comes from a link that was not skipped, keeps its two ids, and there are at most as many records as links. */
  lemma {:induction false} HarvestFromLinks(links: seq<Link>, api: int -> Response)
    ensures Harvest(links, api).Harvested? ==> |Harvest(links, api).records| <= |links|
    ensures Harvest(links, api).Harvested? ==> forall r :: r in Harvest(links, api).records ==>
      exists l :: l in links && !Skipped(l) && l.movieId == r.movieId && l.tmdbId == Some(r.tmdbId)
    decreases |links|
  {
    if links != [] {
      var init := links[..|links| - 1];
      HarvestFromLinks(init, api);
      var link := links[|links| - 1];
      assert link in links;
      assert forall l :: l in init ==> l in links;
    }
  }

  /** Links that are all skipped yield no record. */
  lemma {:induction false} SkippedLinksYieldNothing(links: seq<Link>, api: int -> Response)
    requires forall i :: 0 <= i < |links| ==> Skipped(links[i])
    ensures Harvest(links, api) == Harvested([])
    decreases |links|
  {
    if links != [] {
      SkippedLinksYieldNothing(links[..|links| - 1], api);
    }
  }

  /** The `for index, row in movie_map_df.iterrows()` loop. */
  method Collect(links: seq<Link>, api: int -> Response) returns (result: Harvested)
    ensures result == Harvest(links, api)
  {
    var records: seq<MovieRecord> := [];
    for i := 0 to |links|
      invariant Harvest(links[..i], api) == Harvested(records)
    {
      assert links[..i + 1][..i] == links[..i];
      var link := links[i];
      if !Skipped(link) {
        var fetched := FetchDetails(link.movieId, link.tmdbId.value, api(link.tmdbId.value));
        match fetched {
          case NotOk =>
          case TypeError =>
            CrashIsFinal(links, api, i + 1);
            assert links[..|links|] == links;
            return Crashed;
          case Record(r) =>
            records := records + [r];
        }
      }
    }
    assert links[..|links|] == links;
    return Harvested(records);
  }

  /** Once the harvest has crashed, later links do not matter. */
  lemma {:induction false} CrashIsFinal(links: seq<Link>, api: int -> Response, i: nat)
    requires i <= |links|
    requires Harvest(links[..i], api).Crashed?
    ensures Harvest(links, api).Crashed?
    decreases |links| - i
  {
    if i < |links| {
      assert Harvest(links[..i + 1], api).Crashed? by {
        assert links[..i + 1][..i] == links[..i];
      }
      CrashIsFinal(links, api, i + 1);
    } else {
      assert links[..i] == links;
    }
  }
}
