# yournxtwatch room engine in Dafny

This project models the room and session engine of yournxtwatch, a
"swipe on movies together" party game. The engine is the `GameManager`
class. It keeps a registry of game rooms keyed by game id. Players create a
room, which gets a random four-letter room code, and friends join it by that
code. Each player picks genres. Starting the room fetches movies for the
union of those genres, shuffles them and keeps the first `moviesPerGame`
(twenty in `DEFAULT_GAME_CONFIG`). Every
player then swipes like or dislike on each movie. When every player has
finished, the room closes and ranks the liked movies into at most ten top
picks. Players can leave, and the last one to leave deletes the room. The
shared records (`Player`, `MovieSwipe`, `Game`, `TopPick`, `Movie`,
`GameConfig`, `DEFAULT_GAME_CONFIG`) are modelled as datatypes.

Layout, one module per file:

- `types.dfy` (`Types`): the shared records and the default configuration.
- `seqs.dfy` (`Seqs`): sequence helpers.
  - `Dedup` models a JavaScript `Set`'s insertion-ordered contents.
  - `FirstIndex` is `indexOf`.
  - `Remove` is `filter`.
- `players.dfy` (`Players`): the `find` and `filter` lookups on a room's players and the room-code search.
- `selection.dfy` (`Selection`): what `fetchMoviesForGame` and `generateRoomCode` produce, written as functions.
- `ranking.dfy` (`Ranking`): `calculateTopPicks`.
  - The like table is a reference definition; its per-movie tallies are built in insertion order, exactly like the source's `Map`.
  - It then resolves each tally against the room's movies and applies a stable sort by score.
  - It slices the result to ten.
- `rooms.dfy` (`Rooms`): the registry invariant (`ValidState`) and the "rooms only move forward" relation (`Evolves`), with one step lemma per operation.
- `manager.dfy` (`Manager`): the `GameManager` class.
  - The `games` map, its insertion `order` and the id counter are fields, which its methods update.
  - Each public method keeps `Valid()` and states `Evolves` from the old registry to the new one.
- `scenarios.dfy` (`Scenarios`): two short runs that pin down behaviour of the code as written.

Behaviour of the code that the model keeps as written:

- `recordSwipe` does not check the room's status. In a room that was never started the movie list is empty, so any swipe marks the swiping player finished. Once every player of the room has swiped, the room closes while still never started, with no movies and no top picks. A one-player room closes on the first swipe (`Scenarios.SwipeBeforeStart`).
- A swipe in a finished room is appended. If it brings the player to the movie count, it closes the room again with a new end time and a recomputed ranking (`Scenarios.SwipeAfterEnd`). Otherwise the room keeps its end time and ranking.
- A player who swiped before the start stays finished after `startGame` assigns the movies. The room can therefore finish before that player has swiped any of its movies. That player's later swipes close the room again only once they reach the movie count.
- The score of a movie counts liked swipes, not distinct players. A player who likes the same movie twice counts twice and is listed twice.
- `removePlayer` never runs `checkGameEnd`. If the leaving player was the only one not finished, the room stays open.
- `generateRoomCode` does not avoid codes already in use. When two rooms share a code, `findGameByRoomCode` returns the one inserted first.
- A player who joins a `playing` room is impossible, because `joinGame` refuses rooms that are not `waiting`. `startGame` on a `playing` room returns the room unchanged.

## Model

| member | source | states |
|---|---|---|
| Types.Rank | shared/src/index.ts:28 | the status order waiting < playing < finished: rank 0 exactly for waiting, 2 exactly for finished |
| Seqs.Dedup | server/src/services/GameManager.ts:174-177 | the insertion-ordered contents of a `Set` fed with a sequence: no duplicates, never longer than its input |
| Seqs.DedupMembers | server/src/services/GameManager.ts:174-177 | a value is in the set exactly when it was added |
| Seqs.DedupFirstSeenOrder | server/src/services/GameManager.ts:174-177 | the set lists values in the order of their first addition |
| Seqs.FirstIndex | server/src/services/GameManager.ts:160 | the first position holding a value: it holds the value and no earlier one does |
| Seqs.FirstIndexAppend | server/src/services/GameManager.ts:34 | appending to a sequence keeps the first position of a value already in it |
| Seqs.FirstIndexUnique | server/src/services/GameManager.ts:160 | in a duplicate-free sequence the first position of `s[k]` is `k` |
| Seqs.Remove | server/src/services/GameManager.ts:151 | deleting a key from the insertion order: the key is gone and the order is never longer |
| Seqs.RemoveMembers | server/src/services/GameManager.ts:151 | the other keys are all kept |
| Seqs.RemoveDistinct | server/src/services/GameManager.ts:151 | deletion keeps the order free of duplicates |
| Players.PlayerIndex | server/src/services/GameManager.ts:107 | `players.find` by id: the first player with that id, or none when no player has it |
| Players.RemoveById | server/src/services/GameManager.ts:147 | `filter` by id: no player with that id is left, and the list does not grow |
| Players.RemoveByIdMembers | server/src/services/GameManager.ts:147 | exactly the players with another id are kept |
| Players.RemoveByIdAbsent | server/src/services/GameManager.ts:147 | filtering an id nobody has changes nothing |
| Players.RemoveByIdAt | server/src/services/GameManager.ts:147 | with distinct ids, removing player `k` keeps the others in their order |
| Players.RemoveByIdDistinct | server/src/services/GameManager.ts:147 | the filter keeps player ids distinct |
| Players.RemoveByIdFinished | server/src/services/GameManager.ts:147 | if every player had finished, every remaining player has too |
| Players.AllFinished | server/src/services/GameManager.ts:210 | `players.every(p => p.hasFinished)`: true of an empty room, and otherwise true exactly when each player in the room has finished |
| Players.FindByCode | server/src/services/GameManager.ts:160 | `Array.from(games.values()).find`: the first room in insertion order with the code, or none when no room has it |
| Selection.IsRoomCode | server/src/services/GameManager.ts:163-170 | a room code is four characters, each an upper-case letter A to Z |
| Selection.GenreStream | server/src/services/GameManager.ts:175-176 | every genre some player chose is among the genres added |
| Selection.GenreStreamMembers | server/src/services/GameManager.ts:175-176 | a genre is added exactly when some player chose it |
| Selection.GameGenres | server/src/services/GameManager.ts:174-192 | the genres asked for are never empty and never repeated |
| Selection.GameGenresMembers | server/src/services/GameManager.ts:174-192 | if some player chose a genre, a genre is asked for exactly when some player chose it; if none did, the fallback Action, Comedy, Drama is used |
| Selection.GameGenresOrder | server/src/services/GameManager.ts:174-177 | genres are asked for in the order players first chose them |
| Selection.MoviesPerGenre | server/src/services/GameManager.ts:196 | `Math.ceil(total / n)`: the least count with count * n >= total |
| Selection.Pool | server/src/services/GameManager.ts:198-202 | every movie of each genre's answer is in the fetched list |
| Selection.GamePool | server/src/services/GameManager.ts:186-202 | when no player chose a genre, the room fetches the Action, Comedy and Drama answers, each sized for three genres |
| Selection.IsSelection | server/src/services/GameManager.ts:205-206 | a kept movie list is never longer than the limit or than what was fetched |
| Selection.PoolMembers | server/src/services/GameManager.ts:198-202 | the fetched movies are exactly those some genre's answer contains |
| Selection.SelectionFromGenres | server/src/services/GameManager.ts:204-206 | a room's movie list has at most `moviesPerGame` movies, each fetched for one of the room's genres |
| Ranking.SwipeLikes | server/src/services/GameManager.ts:224-230 | one player's liked swipes are at most the player's swipes, each tagged with that player's name |
| Ranking.Likes | server/src/services/GameManager.ts:223-232 | every liked swipe of the room carries the name of one of the room's players |
| Ranking.CountPositive | server/src/services/GameManager.ts:223-232 | a movie has a positive score exactly when some liked swipe names it; otherwise nobody is listed for it |
| Ranking.IndexOfTally | server/src/services/GameManager.ts:226 | `movieScores.get`: the tally of a movie, or none when the movie has no entry |
| Ranking.Record | server/src/services/GameManager.ts:226-229 | one liked swipe: the movie then has an entry, the table grows only when the movie had none, and every other entry is untouched |
| Ranking.Tallies | server/src/services/GameManager.ts:220-232 | the table has at most one entry per liked swipe, each with a score of at least one and exactly as many names as its score |
| Ranking.AgreeExisting | server/src/services/GameManager.ts:226-229 | updating an existing entry keeps every tally equal to the like table |
| Ranking.AgreeNew | server/src/services/GameManager.ts:226-229 | a new entry keeps every tally equal to the like table |
| Ranking.IdsExisting | server/src/services/GameManager.ts:229 | updating an existing entry keeps the key order |
| Ranking.IdsNew | server/src/services/GameManager.ts:229 | a new key is appended at the end of the key order |
| Ranking.TalliesCorrect | server/src/services/GameManager.ts:220-232 | the score map's keys are the liked movies in first-liked order; each score is the like count and each name list the likers in swipe order |
| Ranking.FindMovie | server/src/services/GameManager.ts:237 | `movies.find` by id: a found movie has that id |
| Ranking.FindMovieNone | server/src/services/GameManager.ts:237-238 | nothing is found exactly when no movie of the room has that id |
| Ranking.FindMovieFirst | server/src/services/GameManager.ts:237 | the found movie is the first with that id |
| Ranking.Resolve | server/src/services/GameManager.ts:235-241 | the join yields at most one pick per entry, and every pick's movie is one of the room's movies |
| Ranking.ResolveSound | server/src/services/GameManager.ts:235-241 | every resolved pick is a tallied movie of the room, with its tally's score and players |
| Ranking.ResolveComplete | server/src/services/GameManager.ts:235-241 | every tallied movie that the room has is resolved |
| Ranking.ResolveIds | server/src/services/GameManager.ts:235-241 | resolved picks are only tallied movies |
| Ranking.TallyIdsTail | server/src/services/GameManager.ts:235 | with distinct keys the first key is not among the rest |
| Ranking.ResolveOrder | server/src/services/GameManager.ts:235-241 | `map` then `filter` keep the map's key order |
| Ranking.ResolveOrderFirst | server/src/services/GameManager.ts:235-241 | the first kept pick comes before every later one in key order |
| Ranking.ResolveOrderKept | server/src/services/GameManager.ts:235-241 | when the first tally is kept, the later picks keep their key order |
| Ranking.ResolveOrderDropped | server/src/services/GameManager.ts:235-241 | when the first tally is dropped, the picks keep their key order |
| Ranking.Insert | server/src/services/GameManager.ts:242 | one insertion step of the sort adds exactly that pick |
| Ranking.InsertMember | server/src/services/GameManager.ts:242 | an insertion adds nothing other than the inserted pick |
| Ranking.InsertSorted | server/src/services/GameManager.ts:242 | inserting into a list sorted by descending score keeps it sorted |
| Ranking.SortByScore | server/src/services/GameManager.ts:242 | `sort((a, b) => b.score - a.score)`: a permutation sorted by descending score |
| Ranking.InsertStable | server/src/services/GameManager.ts:242 | inserting a pick that comes earliest keeps equal scores in their original order |
| Ranking.SortStable | server/src/services/GameManager.ts:242 | the sort is stable: picks with equal scores keep their original order |
| Ranking.CalculateTopPicks | server/src/services/GameManager.ts:219-245 | at most ten picks, sorted by descending score |
| Ranking.Ranked | server/src/services/GameManager.ts:235-242 | the full list before the cut is sorted by descending score and holds only movies of the room |
| Ranking.RankedFacts | server/src/services/GameManager.ts:235-242 | every ranked pick is a liked movie of the room with its like count and likers |
| Ranking.TopPicksScores | server/src/services/GameManager.ts:219-245 | every top pick is a movie of the room liked at least once, with its like count and likers |
| Ranking.TopPicksExclude | server/src/services/GameManager.ts:235-244 | a movie nobody liked, or one that is not in the room, is never a top pick |
| Ranking.RankedComplete | server/src/services/GameManager.ts:235-242 | every liked movie of the room is ranked |
| Ranking.TopPicksComplete | server/src/services/GameManager.ts:235-244 | a liked movie of the room that is left out was beaten by ten picks scoring at least as much |
| Ranking.RankedTies | server/src/services/GameManager.ts:235-242 | ranked picks with equal scores are in the order their movies were first liked |
| Ranking.TopPicksTieOrder | server/src/services/GameManager.ts:219-245 | top picks with equal scores are in the order their movies were first liked |
| Ranking.TopPicksDistinct | server/src/services/GameManager.ts:219-245 | no movie appears twice among the top picks |
| Rooms.PlayersEvolveRefl | server/src/services/GameManager.ts:99-117 | a player list evolves into itself |
| Rooms.GameEvolvesRefl | server/src/services/GameManager.ts:64-97 | a room evolves into itself |
| Rooms.GameEvolvesTrans | server/src/services/GameManager.ts:119-141 | room evolution composes |
| Rooms.PlayersEvolveTrans | server/src/services/GameManager.ts:119-141 | player-list evolution composes |
| Rooms.EvolvesTrans | server/src/services/GameManager.ts:132-137 | registry evolution composes (a swipe followed by the end check) |
| Rooms.EvolvesRefl | server/src/services/GameManager.ts:38-50 | a registry evolves into itself (a refused join) |
| Rooms.GameOkGrow | server/src/services/GameManager.ts:53 | issuing more ids keeps a room well formed |
| Rooms.ReplaceValid | server/src/services/GameManager.ts:6 | replacing a room by a well-formed successor keeps the registry valid and evolving |
| Rooms.InsertValid | server/src/services/GameManager.ts:34 | inserting a fresh well-formed room keeps the registry valid and evolving |
| Rooms.DeleteValid | server/src/services/GameManager.ts:151 | deleting a room keeps the registry valid and evolving |
| Rooms.JoinStep | server/src/services/GameManager.ts:52-60 | appending a fresh unfinished player to a waiting room below the limit keeps it well formed and evolving |
| Rooms.StartStep | server/src/services/GameManager.ts:85-90 | starting a waiting room keeps it well formed and evolving |
| Rooms.PlayerStep | server/src/services/GameManager.ts:113 | replacing one player by an evolved copy keeps the room well formed and evolving |
| Rooms.Done | server/src/services/GameManager.ts:135 | the finish test after a push: with no movies any swipe finishes, a player already at the movie count stays finished, and otherwise the pushed swipes must reach the movie count |
| Rooms.Swiped | server/src/services/GameManager.ts:132-136 | the swipe is appended to that player's list only; the player becomes finished exactly when they had already finished or now have at least as many swipes as the room has movies; every other player and every other field of the room is unchanged |
| Rooms.Finish | server/src/services/GameManager.ts:212-214 | a closed room: status finished, end time set, top picks are the ranking of the room's likes (at most ten, sorted by score); id, room code, creation and start times, players and movies kept |
| Rooms.FinishStep | server/src/services/GameManager.ts:209-217 | closing a room whose players all finished keeps it well formed and evolving |
| Rooms.RemoveStep | server/src/services/GameManager.ts:147 | dropping a player from a room that keeps some players keeps it well formed and evolving |
| Manager.GameManager.constructor | server/src/services/GameManager.ts:5-11 | an empty, valid registry with the default room limits |
| Manager.GameManager.NewId | server/src/services/GameManager.ts:14 | `uuidv4`: an id never issued before; the rooms are unchanged |
| Manager.GameManager.GetGame | server/src/services/GameManager.ts:155-157 | the room stored under the id, or none exactly when there is none |
| Manager.GameManager.FindGameByRoomCode | server/src/services/GameManager.ts:159-161 | a stored room with the code, the earliest inserted such room, or none exactly when no room has the code |
| Manager.GameManager.GenerateRoomCode | server/src/services/GameManager.ts:163-170 | four letters from A to Z |
| Manager.GameManager.ShuffleArray | server/src/services/GameManager.ts:247-254 | a reordering of the input: same length, same elements with multiplicity |
| Manager.GameManager.FetchMoviesForGame | server/src/services/GameManager.ts:172-207 | a prefix of a reordering of everything fetched for the room's genres, `moviesPerGame` long or all of it |
| Manager.GameManager.CollectGenres | server/src/services/GameManager.ts:174-192 | the loop computes the room's genre set with the fallback |
| Manager.GameManager.AddGenres | server/src/services/GameManager.ts:176 | adding one player's genres yields the set of everything added so far |
| Manager.GameManager.FetchPool | server/src/services/GameManager.ts:195-202 | the loop fetches each genre's answer in genre order |
| Manager.GameManager.CreateGame | server/src/services/GameManager.ts:13-35 | the room gets the next unused id and its creator the one after it; a four-letter code; a waiting room with no movies and its creator as the only, unfinished player; stored and nothing else changed |
| Manager.GameManager.JoinGame | server/src/services/GameManager.ts:38-61 | not found, already started or full (in that order) change nothing; otherwise a fresh unfinished player is appended to the room found by code |
| Manager.GameManager.StartGame | server/src/services/GameManager.ts:64-97 | missing or finished: null, unchanged; playing: the room unchanged; waiting: a movie selection stored, status playing, start time set |
| Manager.GameManager.SetPlayerGenres | server/src/services/GameManager.ts:99-117 | true exactly when room and player exist; then only that player's genres are replaced |
| Manager.GameManager.CheckGameEnd | server/src/services/GameManager.ts:209-217 | when every player finished, the room is closed with end time and top picks; otherwise unchanged |
| Manager.GameManager.RecordSwipe | server/src/services/GameManager.ts:119-141 | true exactly when room and player exist; the swipe is appended, the player marked finished once swipes reach the movie count, and, once the swiper reaches the count, the room is closed if every player has finished; a swipe short of the count never closes the room |
| Manager.GameManager.PushSwipe | server/src/services/GameManager.ts:126-136 | appends the swipe, sets the finished flag, and reports whether the player reached the movie count |
| Manager.GameManager.RemovePlayer | server/src/services/GameManager.ts:143-153 | unknown room: unchanged; the player is filtered out; a room left empty is deleted from the map and the insertion order |
| Scenarios.SwipeBeforeStart | server/src/services/GameManager.ts:119-141 | in a freshly created one-player room, the first swipe closes the room with no start time, no movies and no top picks |
| Scenarios.SwipeAfterEnd | server/src/services/GameManager.ts:132-137 | a swipe in a finished room is appended and, when it brings the player to the movie count, closes the room again at the new time with recomputed picks; otherwise the room keeps its end time and picks |
| Scenarios.ResolveNoMovies | server/src/services/GameManager.ts:237-241 | with no movies every tally is dropped |
| Scenarios.NoMoviesNoPicks | server/src/services/GameManager.ts:219-245 | a room without movies has no top picks |

## Left out

- Socket.io events, the HTTP server, the client and `TMDBService` are not part of this model. The movie source is a function parameter (`catalog`), unconstrained: it may map a genre and count to any list.
- `console.log` output is not modelled.
- The `catalog` is one fixed function for the manager's lifetime. Two requests for the same genre and count therefore get the same list. The real movie service may answer differently each time; for example its mock draws `voteAverage` at random. No proof depends on the answers being equal.
- The room limits are `DEFAULT_GAME_CONFIG` as declared in `shared/src/index.ts` (8 players, 20 movies). The compiled `shared/src/index.js` declares 10 movies per game. The proofs do not depend on the values, so either choice would verify.
- Each operation runs to completion before the next starts. In the source, `startGame` awaits the movie fetch (GameManager.ts:87) before it updates the room. Swipes arriving during that wait could finish the still-waiting room, because its movie list is empty. The resumed start would then set the status back to `playing` (line 89). `Evolves`'s "status never goes back" holds only under this atomicity.
- `uuidv4` is a counter (`nextUuid`), so ids are naturals rather than strings. Freshness is all the code relies on.
- `Date.now()` becomes a `now` parameter, read once per operation. In the source, `recordSwipe` reads the clock twice (swipe timestamp and end time); the model uses one reading for both.
- `Math.random` is a nondeterministic choice (`:|`). Any letter may be drawn, and any swap partner in the shuffle.
- Rooms are values: a `Game` returned by a method is a copy. In the source it is the stored object, so callers that keep it see later changes. This aliasing is not captured.
- The `socketId` parameters of `createGame` and `joinGame` are unused in the source and omitted.
- `Movie.voteAverage` is a `real`. JavaScript numbers are modelled as unbounded integers (ids, timestamps, scores, counts), so floating-point rounding is not modelled.
- Manager.GameManager.StartGame: the two null-returning checks (finished, no players) are merged into one branch. A stored room always has at least one player, so that check never fires.
- Manager.GameManager.CheckGameEnd: it takes the room's id instead of the room object, since rooms are values in the map.
- Manager.GameManager.FetchMoviesForGame: the shuffle is stated as "some reordering", not a uniform distribution, since probability is outside the model.
- `shared/src/index.ts` socket event interfaces and the client-side types are not part of this model.
