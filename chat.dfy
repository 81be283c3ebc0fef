/**
 * The web chat once a user is logged in: a four-state dialogue that either
 * collects a time budget and a list length and then asks the hybrid
 * recommender, or collects a title and then asks the similarity search.
 *
 * Assistant messages are modelled by what they say (`Reply`), not by their
 * formatted text. The recommender and the search are the models of their own
 * modules; the fuzzy title lookup is passed in.
 */
module Chat {
  import opened Options
  import Text
  import Similarity
  import Hybrid

  datatype State = Idle | AwaitingTime | AwaitingTopN | AwaitingSearchTitle

  datatype Reply =
    | AskTime                      // "how much time do you have?"
    | AskTitle                     // "which film do you want to search for?"
    | NotUnderstood                // "say 'recomendar' or 'buscar'"
    | AskTopN(tempo: int)          // "how many recommendations?"
    | Recommendations(recs: seq<Hybrid.Recommendation>) // the list; when empty, "nothing found with these filters"
    | Found(title: string, similar: seq<string>)        // the film found and the titles of its neighbours
    | NoTitleMatch                 // "no film with that title"
    | NotANumber                   // "please type a valid number"
    | Oops                         // "something went wrong", after which the dialogue restarts

  datatype Message = User(prompt: string) | Assistant(reply: Reply)

  /** `encontrar_movieid_por_titulo(title)` with its default `top_n=1`: a movie id, or `None`. */
  type TitleLookup = string -> Option<int>

  /** What the chat calls: the recommender's loaded resources (which include the similarity model), the title map, and the title lookup. */
  datatype Services = Services(recommender: Hybrid.Resources, titles: map<int, string>, find: TitleLookup)

  /** The recommendation is always computed for this user, whoever is logged in. */
  const DemoUser: int := 1
  /** How many similar films a search shows. */
  const SimilarCount: int := 5
  const TempoKey: string := "tempo"

  predicate AsksToRecommend(prompt: string) {
    Text.Contains(Text.Lower(prompt), "recomendar")
  }

  predicate AsksToSearch(prompt: string) {
    Text.Contains(Text.Lower(prompt), "buscar")
  }

  /** `if not temp_data.get("tempo")`: no time budget stored, or a budget of 0. */
  predicate TempoLost(temp: map<string, int>) {
    TempoKey !in temp || temp[TempoKey] == 0
  }

  /** The state and scratch data after one prompt. */
  function Transition(state: State, temp: map<string, int>, prompt: string): (State, map<string, int>) {
    match state
    case Idle =>
      if AsksToRecommend(prompt) then (AwaitingTime, temp)
      else if AsksToSearch(prompt) then (AwaitingSearchTitle, temp)
      else (Idle, temp)
    case AwaitingTime =>
      (match Text.ParseInt(prompt)
       case None => (AwaitingTime, temp)
       case Some(n) => (AwaitingTopN, map[TempoKey := n]))
    case AwaitingTopN =>
      (match Text.ParseInt(prompt)
       case None => (AwaitingTopN, temp)
       case Some(_) => (Idle, map[]))
    case AwaitingSearchTitle => (Idle, map[])
  }

  /** The title shown for a movie id, with the given fallback (`TITULOS_MAP.get(id, fallback)`). */
  function TitleOr(titles: map<int, string>, id: int, fallback: string): string {
    if id in titles then titles[id] else fallback
  }

  /** How a similar film is listed: its title, or "ID <id>" when the map lacks it. */
  function SimilarName(titles: map<int, string>, id: int): string {
    TitleOr(titles, id, "ID " + Text.ShowInt(id))
  }

  /** The titles listed for the similar films, one per id, in order. */
  function SimilarTitles(titles: map<int, string>, ids: seq<int>): (names: seq<string>)
    ensures |names| == |ids|
    ensures forall k :: 0 <= k < |ids| ==> names[k] == SimilarName(titles, ids[k])
  {
    seq(|ids|, k requires 0 <= k < |ids| => SimilarName(titles, ids[k]))
  }

  /** The answer to a title typed in `AwaitingSearchTitle`; a lookup that yields no id or id 0 counts as no match. */
  function SearchReply(svc: Services, prompt: string): Reply {
    match svc.find(Text.Strip(prompt))
    case None => NoTitleMatch
    case Some(id) =>
      if id == 0 then NoTitleMatch
      else
        var similar := Similarity.Recommended(svc.recommender.search, svc.recommender.cosine, id, SimilarCount);
        Found(TitleOr(svc.titles, id, "Desconhecido"), SimilarTitles(svc.titles, similar))
  }

  /* ---------- Properties of the dialogue ---------- */

  /** "recomendar" wins over "buscar": a prompt containing both starts a recommendation. */
  lemma RecommendBeforeSearch(temp: map<string, int>, prompt: string)
    requires AsksToRecommend(prompt) && AsksToSearch(prompt)
    ensures Transition(Idle, temp, prompt).0 == AwaitingTime
  {
  }

  /** A prompt that is not an integer, while a number is awaited, changes neither the state nor the scratch data. */
  lemma NonNumberKeepsState(state: State, temp: map<string, int>, prompt: string)
    requires state == AwaitingTime || state == AwaitingTopN
    requires Text.ParseInt(prompt).None?
    ensures Transition(state, temp, prompt) == (state, temp)
  {
  }

  /** Finishing a recommendation (or giving up on it) and finishing a search both return to `Idle` with no scratch data. */
  lemma CompletionReturnsToIdle(state: State, temp: map<string, int>, prompt: string)
    requires state == AwaitingSearchTitle || (state == AwaitingTopN && Text.ParseInt(prompt).Some?)
    ensures Transition(state, temp, prompt) == (Idle, map[])
  {
  }

  /** While a list length is awaited, a time budget is stored. */
  predicate Consistent(state: State, temp: map<string, int>) {
    state == AwaitingTopN ==> TempoKey in temp
  }

  /** Every transition keeps that. */
  lemma TransitionKeepsConsistent(state: State, temp: map<string, int>, prompt: string)
    requires Consistent(state, temp)
    ensures Consistent(Transition(state, temp, prompt).0, Transition(state, temp, prompt).1)
  {
  }

  /** The state reached from a fresh session after the given prompts. */
  function After(prompts: seq<string>): (State, map<string, int>)
    decreases |prompts|
  {
    if prompts == [] then (Idle, map[])
    else
      var prev := After(prompts[..|prompts| - 1]);
      Transition(prev.0, prev.1, prompts[|prompts| - 1])
  }

  /**
   * In every state a session can reach, a list length is awaited only with a
   * budget stored; so the "lost state" reset in `AwaitingTopN` fires only
   * when the budget the user typed was 0.
   */
  lemma {:induction false} ReachableIsConsistent(prompts: seq<string>)
    ensures Consistent(After(prompts).0, After(prompts).1)
    ensures After(prompts).0 == AwaitingTopN && TempoLost(After(prompts).1) ==> After(prompts).1[TempoKey] == 0
    decreases |prompts|
  {
    if prompts != [] {
      var init := prompts[..|prompts| - 1];
      ReachableIsConsistent(init);
      TransitionKeepsConsistent(After(init).0, After(init).1, prompts[|prompts| - 1]);
    }
  }

  /** "recomendar", then a non-zero budget, then a length: three prompts that return to `Idle`, passing through `AwaitingTopN` with that budget stored. */
  lemma RecommendDialogue(temp: map<string, int>, p1: string, p2: string, p3: string)
    requires AsksToRecommend(p1)
    requires Text.ParseInt(p2).Some? && Text.ParseInt(p2).value != 0
    requires Text.ParseInt(p3).Some?
    ensures Transition(Idle, temp, p1) == (AwaitingTime, temp)
    ensures Transition(AwaitingTime, temp, p2) == (AwaitingTopN, map[TempoKey := Text.ParseInt(p2).value])
    ensures !TempoLost(map[TempoKey := Text.ParseInt(p2).value])
    ensures Transition(AwaitingTopN, map[TempoKey := Text.ParseInt(p2).value], p3) == (Idle, map[])
  {
  }

  /* ---------- The session ---------- */

  /** `st.session_state`: the dialogue state, the scratch data and the message history. */
  class ChatSession {
    var state: State
    var tempData: map<string, int>
    var messages: seq<Message>

    constructor ()
      ensures state == Idle && tempData == map[] && messages == []
    {
      state := Idle;
      tempData := map[];
      messages := [];
    }

    /**
     * One prompt: the user's message and exactly one assistant message are
     * appended, the state moves as `Transition` says, and the reply is the
     * one the state calls for. A recommendation is the hybrid recommender's
     * answer for `DemoUser` with the stored budget and the typed length.
     */
    method Respond(svc: Services, prompt: string) returns (reply: Reply)
      modifies this
      ensures (state, tempData) == Transition(old(state), old(tempData), prompt)
      ensures messages == old(messages) + [User(prompt), Assistant(reply)]
      ensures old(state) == Idle ==>
        reply == (if AsksToRecommend(prompt) then AskTime else if AsksToSearch(prompt) then AskTitle else NotUnderstood)
      ensures old(state) == AwaitingTime ==>
        reply == (if Text.ParseInt(prompt).Some? then AskTopN(Text.ParseInt(prompt).value) else NotANumber)
      ensures old(state) == AwaitingTopN && Text.ParseInt(prompt).None? ==> reply == NotANumber
      ensures old(state) == AwaitingTopN && Text.ParseInt(prompt).Some? && TempoLost(old(tempData)) ==> reply == Oops
      ensures old(state) == AwaitingTopN && Text.ParseInt(prompt).Some? && !TempoLost(old(tempData)) ==>
        reply.Recommendations? &&
        Hybrid.IsRecommendation(reply.recs,
          Hybrid.Survivors(svc.recommender, DemoUser, old(tempData)[TempoKey]), Text.ParseInt(prompt).value)
      ensures old(state) == AwaitingSearchTitle ==> reply == SearchReply(svc, prompt)
    {
      messages := messages + [User(prompt)];
      match state {
        case Idle =>
          if AsksToRecommend(prompt) {
            state := AwaitingTime;
            reply := AskTime;
          } else if AsksToSearch(prompt) {
            state := AwaitingSearchTitle;
            reply := AskTitle;
          } else {
            reply := NotUnderstood;
          }
        case AwaitingTime =>
          var tempo := Text.ParseInt(prompt);
          if tempo.None? {
            reply := NotANumber;
          } else {
            tempData := map[TempoKey := tempo.value];
            state := AwaitingTopN;
            reply := AskTopN(tempo.value);
          }
        case AwaitingTopN =>
          var topN := Text.ParseInt(prompt);
          if topN.None? {
            reply := NotANumber;
          } else if TempoLost(tempData) {
            state := Idle;
            tempData := map[];
            reply := Oops;
          } else {
            var recs := Hybrid.Recommend(svc.recommender, DemoUser, tempData[TempoKey], topN.value);
            reply := Recommendations(recs);
            state := Idle;
            tempData := map[];
          }
        case AwaitingSearchTitle =>
          reply := Search(svc, prompt);
          state := Idle;
          tempData := map[];
      }
      messages := messages + [Assistant(reply)];
    }
  }

  /** The search branch: look the title up, then list the titles of its similar films. */
  method Search(svc: Services, prompt: string) returns (reply: Reply)
    ensures reply == SearchReply(svc, prompt)
  {
    var id := svc.find(Text.Strip(prompt));
    if id.None? || id.value == 0 {
      return NoTitleMatch;
    }
    var similar := Similarity.RecommendBySimilarity(svc.recommender.search, svc.recommender.cosine, id.value, SimilarCount);
    var names := ListSimilar(svc.titles, similar);
    return Found(TitleOr(svc.titles, id.value, "Desconhecido"), names);
  }

  /** The `for sim_id in similares_ids` loop that adds one line per similar film. */
  method ListSimilar(titles: map<int, string>, ids: seq<int>) returns (names: seq<string>)
    ensures names == SimilarTitles(titles, ids)
  {
    names := [];
    for k := 0 to |ids|
      invariant |names| == k
      invariant forall j :: 0 <= j < k ==> names[j] == SimilarTitles(titles, ids)[j]
    {
      names := names + [SimilarName(titles, ids[k])];
    }
  }
}
