# Recomenda.ai — a Dafny model of the recommender's core

Recomenda.ai recommends films from a MovieLens-style rating table. It does so
in three ways. A hybrid recommender merges collaborative-filtering
predictions ("Lista A") with content neighbours of the user's favourites
("Lista B"). It keeps the films that fit the viewer's time budget and ranks
them by a fuzzy priority. A content search ranks every film by cosine
similarity of latent text vectors. A small web chat drives both, behind a
plain-text login.

The model covers:
- the text cleaning and feature string that feed the content vectors
  (`TextFeatures`, over `Text`);
- the similarity search and title lookup (`Similarity`);
- the hybrid pipeline (`Hybrid`);
- the credential table (`Auth`);
- the terminal tools that delete users and add ratings (`UserAdmin`);
- the chat's four-state dialogue (`Chat`);
- the TMDB harvester that builds the catalogue (`Harvest`).

Pure code is modelled by functions and lemmas. Loops are methods proved
against those functions. The objects the source updates in place become
classes: the chat session, the credential file and the rating table.

Learned or numeric parts of the system are parameters of the model:
- the SVD/CF predictor;
- the fuzzy engine;
- the cosine of two latent vectors;
- the fuzzy title matcher;
- the HTTP response.

`Options`, `Slices`, `Sets` and `Tables` hold shared helpers:
- `Option`;
- Python/pandas slicing with negative bounds;
- picking from a non-empty set;
- the rating-table columns.

## Model

| member | source | states |
|---|---|---|
| TextFeatures.Clean | Codigo_fonte/pnl_modulo.py:37-43 | `limpar_texto` gives `None` exactly for a non-string cell |
| TextFeatures.CleanTextShape | Codigo_fonte/pnl_modulo.py:37-43 | cleaned text is lower-case ASCII letters in single-space-separated words, with no stopword left, and its words are the surviving input words in order |
| TextFeatures.CleanWordsAreLetters | Codigo_fonte/pnl_modulo.py:39-42 | every surviving word consists of `a`-`z` and is not a stopword |
| TextFeatures.DropStopwordsMembers | Codigo_fonte/pnl_modulo.py:41-42 | a word survives stopword removal iff it was present and is not a stopword |
| TextFeatures.CleanIdempotent | Codigo_fonte/pnl_modulo.py:37-43 | cleaning an already cleaned text changes nothing |
| TextFeatures.PipesBecomeSpaces | Codigo_fonte/pnl_modulo.py:53-55 | `" ".join(x.split('|'))` replaces each `|` by one space and keeps every other character |
| TextFeatures.RepeatedSynopsisFusesWords | Codigo_fonte/pnl_modulo.py:56-61 | as written, synopsis "ab cd" yields the words ab, cdab, cdab, cd: copies fuse at their seams |
| TextFeatures.WeightedFeatureWords | Codigo_fonte/pnl_modulo.py:56-61 | with each copy a separate field, the feature words are the synopsis words three times, the genre words twice, then director and actors |
| Similarity.Ranked | Codigo_fonte/busca_filme.py:77-78 | the ranking is a permutation of all row numbers |
| Similarity.RankedIsStableDescending | Codigo_fonte/busca_filme.py:77-78 | every row appears once, in descending score order, ties in row order (a stable sort) |
| Similarity.Recommended | Codigo_fonte/busca_filme.py:53-99 | no ids without a model or an unknown seed; at most `top_n` ids; every id is in the index map |
| Similarity.RecommendBySimilarity | Codigo_fonte/busca_filme.py:53-99 | the guarded ranking loop returns exactly `Recommended` |
| Similarity.SelectedLength | Codigo_fonte/busca_filme.py:81 | `ordered[1:top_n+1]` keeps min(n-1, top_n) rows |
| Similarity.SelectedOrdered | Codigo_fonte/busca_filme.py:78-81 | kept rows are distinct and in descending score order |
| Similarity.SelectedAreTopScores | Codigo_fonte/busca_filme.py:78-81 | every kept row scores at least as high as every dropped row other than the first of the ranking |
| Similarity.SeedSkippedWhenStrictlyBest | Codigo_fonte/busca_filme.py:81 | when the seed scores strictly highest, it is the row skipped |
| Similarity.TiedSeedIsRecommended | Codigo_fonte/busca_filme.py:78-81 | when an earlier row ties with the seed, the seed itself is recommended |
| Similarity.RecommendedDistinct | Codigo_fonte/busca_filme.py:85-89 | with one row per movieId, no id is returned twice |
| Similarity.FirstIdIsFirst | Codigo_fonte/busca_filme.py:88 | the id mapped back is that of the first index entry for the row |
| Hybrid.Favourites | Codigo_fonte/recomendar.py:152-157 | favourites are exactly the seen films rated at least 4.5 |
| Hybrid.PredictUnseen | Codigo_fonte/recomendar.py:59-76 | Lista A holds a prediction for every unseen catalogue film the predictor does not fail on, and nothing else |
| Hybrid.NeighboursOfFavourites | Codigo_fonte/recomendar.py:78-119 | Lista B is the union of the content neighbours of the favourites in the catalogue |
| Hybrid.AssessAll | Codigo_fonte/recomendar.py:193-254 | the main loop yields one row per candidate passing every filter, no movieId twice |
| Hybrid.Recommend | Codigo_fonte/recomendar.py:121-270 | the result is the first `top_n` rows of an ordering of the survivors by descending priority |
| Hybrid.SurvivorsAreAcceptable | Codigo_fonte/recomendar.py:147-254 | a row survives iff the user has ratings and the film is unseen, in the catalogue, within the budget, predicted in [1, 5], with the budget in [0, 200] and the fuzzy or zero priority |
| Hybrid.NoSurvivorsOutsideTimeRange | Codigo_fonte/recomendar.py:233-234 | a budget outside [0, 200] leaves nothing |
| Hybrid.RecommendationShape | Codigo_fonte/recomendar.py:263-270 | the result holds survivors only, is sorted by priority, has distinct ids and at most `top_n` rows, and no omitted survivor outranks a returned one |
| Hybrid.RecommendationsAreSafe | Codigo_fonte/recomendar.py:128-270 | every recommended film is acceptable; a missing resource, an unknown user or an out-of-range budget gives nothing |
| Hybrid.Truncate | Codigo_fonte/recomendar.py:207 | `int()` of a duration truncates toward zero |
| Hybrid.Head | Codigo_fonte/recomendar.py:270 | `head(n)` is a prefix of length min(n, len) for n >= 0 and drops the last -n rows otherwise |
| Hybrid.SortByPriorityOrders | Codigo_fonte/recomendar.py:268 | the priority sort is a permutation in descending priority |
| Auth.FirstMatch | auth_simple.py:56-59 | the first row whose username matches case-insensitively, or none iff no row matches |
| Auth.LoginSucceedsIff | auth_simple.py:46-66 | login yields `id` iff the first matching row has exactly that password and id |
| Auth.LoginUnknownFails | auth_simple.py:52-53 | an unknown name, or an empty table, never logs in |
| Auth.NewId | auth_simple.py:19-44 | `max(max_ratings_id, max_auth_id) + 1` with an empty table counting as 0: exceeds every id in both tables, is at least 1 when a table is empty, and is one above an id in use or 1 |
| Auth.NewUserId | auth_simple.py:19-44 | the method returns exactly `NewId` |
| Auth.CredentialStore.Register | auth_simple.py:68-100 | a taken name (any case) changes nothing; otherwise exactly one row is appended, with id `NewId` of the two tables (above every id in use), and its account logs in |
| Auth.RegisterThenLogin | auth_simple.py:46-96 | after registration, login under any capitalisation of the name returns the new id |
| UserAdmin.RatingTable.NextUserId | Codigo_fonte/gerenciar_usuarios.py:59-64 | the next id exceeds every id in use; 1 for an empty table |
| UserAdmin.RatingTable.DeleteUser | Codigo_fonte/gerenciar_usuarios.py:93-114 | empty table, non-integer answer and unknown id change nothing; otherwise exactly that user's rows are removed |
| UserAdmin.WithoutUser | Codigo_fonte/gerenciar_usuarios.py:110 | a row is kept iff it was present and belongs to another user |
| UserAdmin.WithoutUserAppend | Codigo_fonte/gerenciar_usuarios.py:110 | the filter keeps the table's order |
| UserAdmin.WithoutAbsentUser | Codigo_fonte/gerenciar_usuarios.py:105-110 | filtering out an id nobody has leaves the table unchanged |
| UserAdmin.WithoutUserKeepsOthers | Codigo_fonte/gerenciar_usuarios.py:110 | other users' rows are untouched; the deleted user has none left |
| UserAdmin.WithoutUserCount | Codigo_fonte/gerenciar_usuarios.py:110 | exactly the deleted user's rows disappear |
| UserAdmin.FirstRow | Codigo_fonte/gerenciar_usuarios.py:148-150 | the first catalogue row with the id, or none iff there is none |
| UserAdmin.FirstRowIsFirst | Codigo_fonte/gerenciar_usuarios.py:148-150 | the row `iloc[0]` picks is the first catalogue row with the id |
| UserAdmin.ListingOf | Codigo_fonte/gerenciar_usuarios.py:145-152 | each listed film is numbered by its 1-based position among the found ids and carries that id; no more entries than hits |
| UserAdmin.ListingNumbersIncrease | Codigo_fonte/gerenciar_usuarios.py:145-152 | the numbers in the list increase strictly |
| UserAdmin.ListingFromCatalogue | Codigo_fonte/gerenciar_usuarios.py:148-151 | each entry carries the id and title of the first catalogue row for that id |
| UserAdmin.ListingCovers | Codigo_fonte/gerenciar_usuarios.py:146-152 | a found id is listed (as number i+1) iff the catalogue has it |
| UserAdmin.ListFound | Codigo_fonte/gerenciar_usuarios.py:146-152 | the listing loop builds exactly `Listing` |
| UserAdmin.Choose | Codigo_fonte/gerenciar_usuarios.py:163-167 | the chosen film is the one listed under the number typed, or none iff no such number |
| UserAdmin.FirstValid | Codigo_fonte/gerenciar_usuarios.py:172-180 | the rating kept is the first attempt in [1, 5], or none iff there is none |
| UserAdmin.FirstValidIsFirst | Codigo_fonte/gerenciar_usuarios.py:172-180 | every attempt before the rating kept was rejected |
| UserAdmin.ReadRating | Codigo_fonte/gerenciar_usuarios.py:172-180 | the retry loop returns exactly `FirstValid` |
| UserAdmin.PlayRound | Codigo_fonte/gerenciar_usuarios.py:128-201 | one search-choose-rate round gives exactly `RoundOf` |
| UserAdmin.RatedRowIsValid | Codigo_fonte/gerenciar_usuarios.py:137-192 | a recorded row has the user's id, a rating in [1, 5] and a found catalogue film |
| UserAdmin.RoundsAddValidRatings | Codigo_fonte/gerenciar_usuarios.py:127-201 | a session adds at most one row per round, each valid in the same sense |
| UserAdmin.RateMovies | Codigo_fonte/gerenciar_usuarios.py:127-201 | the `while True` session loop records and stops exactly as the round-by-round definition `Combine` says |
| UserAdmin.RatingTable.AddRatings | Codigo_fonte/gerenciar_usuarios.py:116-201 | the table grows by exactly the rows the session records, at its end, and nothing else changes |
| UserAdmin.AsWrittenAddsNothing | Codigo_fonte/gerenciar_usuarios.py:137 | as written, no rating is ever added; the session aborts at the first title that is not "fim" |
| UserAdmin.SingleHitIsRecorded | Codigo_fonte/gerenciar_usuarios.py:137-192 | with the search module in scope, one hit, choice 1 and a valid rating, then "fim", record exactly that rating |
| UserAdmin.FimStops | Codigo_fonte/gerenciar_usuarios.py:128-130 | "fim" in any case, surrounded by blanks, ends the session with nothing added |
| Chat.ChatSession.Respond | app.py:127-216 | each prompt appends the user message and exactly one reply; the state moves as the dialogue says; a recommendation is the hybrid result for the demo user with the stored budget |
| Chat.Search | app.py:185-208 | the search branch answers exactly `SearchReply` |
| Chat.ListSimilar | app.py:197-200 | one title per similar id, in order, "ID n" for an unknown one |
| Chat.SimilarTitles | app.py:197-200 | one name per id, in order |
| Chat.RecommendBeforeSearch | app.py:135-143 | "recomendar" wins over "buscar" |
| Chat.NonNumberKeepsState | app.py:150-159 | a non-integer answer to a numeric question changes neither state nor scratch data |
| Chat.CompletionReturnsToIdle | app.py:181-215 | finishing or abandoning a request returns to idle with no scratch data |
| Chat.TransitionKeepsConsistent | app.py:150-182 | every step keeps "awaiting a length ⇒ a budget is stored" |
| Chat.ReachableIsConsistent | app.py:150-161 | in every reachable state, the "lost state" reset fires only after a budget of 0 |
| Chat.RecommendDialogue | app.py:134-182 | "recomendar", a budget and a length lead back to idle, passing through the length question with the budget stored |
| Harvest.TextOr | coleta_api.py:34-52 | a missing text field reads as "", a null one stays null |
| Harvest.Duration | coleta_api.py:39-41 | a missing or null runtime reads as 0 |
| Harvest.FirstDirector | coleta_api.py:46-50 | the position of the first crew member whose job is Director, or none iff there is none |
| Harvest.FirstActors | coleta_api.py:43 | `cast[:5]`: the first min(5, n) names |
| Harvest.FindDirector | coleta_api.py:46-50 | the crew loop with its `break` finds exactly the first director's name |
| Harvest.DirectorIsFirst | coleta_api.py:46-50 | the director is the first crew member with that job, "" without one |
| Harvest.FetchDetails | coleta_api.py:28-63 | a non-200 status gives no record, a null list raises, otherwise the record is built field by field |
| Harvest.NonOkHasNoRecord | coleta_api.py:28-31 | a non-200 response never yields a record |
| Harvest.GenresRoundTrip | coleta_api.py:36-37 | splitting `generos` on `|` gives the genre names back |
| Harvest.ActorsRoundTrip | coleta_api.py:43-44 | splitting `atores` on `|` gives back the first (at most five) cast names |
| Harvest.Collect | coleta_api.py:86-97 | the links loop gathers exactly `Harvest`: a skipped link or a non-200 response adds nothing, a raise ends the run |
| Harvest.HarvestFromLinks | coleta_api.py:86-97 | every record comes from an unskipped link with its two ids, and there are no more records than links |
| Harvest.SkippedLinksYieldNothing | coleta_api.py:90-92 | links with no or zero TMDB id yield nothing |
| Harvest.CrashIsFinal | coleta_api.py:94 | once a response raises, the harvest has crashed whatever follows |

## Left out

- File and network I/O are not modelled. This covers CSV, pickle and joblib loading and saving, and the HTTP request. Tables, models and responses are passed in as values.
- pandas dtype inference on reload is not modelled. Examples: a numeric username read back as a number, or an empty cell read back as NaN.
- The SVD predictor, the fuzzy inference system, TF-IDF/SVD training and the cosine itself are parameters. So is the fuzzy title matcher `process.extract`. `Recommended` only knows the latent vectors through the given cosine.
- `lower()`, `strip()`, `split()` and `int()` are modelled on ASCII. Unicode case folding, Unicode digits and whitespace, and `int()`'s underscores are not modelled.
- `float()` parsing of a typed rating is not modelled. Each attempt is given already parsed: a number, or `None` for text `float()` rejects. Likewise the typed film choice is given as `int()`'s result.
- The Streamlit page (login forms, reruns, spinners) is not modelled. Neither are the terminal menus of `main.py` and `menu_terminal.py`, the training script `machine.py`, `interface.py`, nor user listing and menu option 4's existence check.
- Timestamps and `time.sleep` are not modelled: the clock is a parameter (`Round.now`) and the rate limiting is left out.
- Only the exceptions each modelled branch can raise are modelled. Chat: `ValueError` from `int()`, and the "lost state" exception. Terminal: `NameError` and running out of input. Harvester: `TypeError`. Others, such as a `KeyError` on a malformed TMDB payload or `AttributeError` on a null `credits` object, are not modelled.
- `_get_lista_b_pnl`'s branches for DataFrame, Series and other iterable results are left out: the similarity search always returns a list.
- The catalogue is a map from movieId to film, so it holds one row per movieId. With `index_col='movieId'` a repeated id would make `.loc` return several rows, `int()` of their durations would raise `TypeError`, and the film would be skipped; that case is not modelled.
- Hybrid.Recommend does not fix the order of rows with equal priority, because pandas' default sort is not stable. Any descending order of the survivors is allowed.
- UserAdmin.RatingTable.AddRatings appends the session's rows once, when the session ends; the source appends and saves after each rating. The final table is the same, and the saving is file I/O.
- Auth.CredentialStore.Register does not model the failure path that returns `None` when writing the file raises.
- The username passed to the chat after login is not modelled: the recommendation always uses the demo user 1.

## Findings

| source | as written | input that shows it | evidently intended | confidence | as-written member | corrected member |
|---|---|---|---|---|---|---|
| Codigo_fonte/pnl_modulo.py:56-61 | `sinopse_limpa*3` and `generos*2` repeat the text with no separator, so the last word of one copy fuses with the first word of the next | synopsis "ab cd", other columns empty: the words are ab, cdab, cdab, cd | each copy a separate field, so the synopsis words count three times and the genre words twice | not executed | TextFeatures.RepeatedSynopsisFusesWords | TextFeatures.WeightedFeatureWords |
| Codigo_fonte/gerenciar_usuarios.py:137 | `busca_filme` is used but never imported, so the first title other than "fim" raises `NameError` and no rating is ever added | any session whose first title is not "fim", with a non-empty catalogue | search the titles, list the hits, record the chosen rating | not executed | UserAdmin.AsWrittenAddsNothing | UserAdmin.SingleHitIsRecorded |
