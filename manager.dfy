/** The room registry (`GameManager`, server/src/services/GameManager.ts): a
    map from game id to room, updated in place by creating, joining, starting,
    genre picks, swipes and departures. Rooms are values stored in the map;
    `order` records the map's insertion order, which decides the answer of
    `findGameByRoomCode` when two rooms share a code. */
module Manager {
  import opened Wrappers
  import opened Types
  import opened Seqs
  import opened Selection
  import opened Players
  import opened Rooms

  /** The three ways `joinGame` refuses a player. */
  datatype JoinError = GameNotFound | AlreadyStarted | GameFull

  class GameManager {
    /** The room limits (`DEFAULT_GAME_CONFIG`). */
    const config: GameConfig
    /** The movie source (`TMDBService.getMoviesByGenre`): any answer for a
        genre and a requested count. */
    const catalog: (string, nat) -> seq<Movie>
    /** The rooms, by game id (`games`). */
    var games: map<Id, Game>
    /** The game ids in the order they were first inserted into `games`. */
    var order: seq<Id>
    /** The next fresh id (`uuidv4`). */
    var nextUuid: nat

    ghost predicate Valid()
      reads this
    {
      ValidState(games, order, nextUuid, config.maxPlayers)
    }

    /** A manager with no rooms, using the default room limits. */
    constructor(catalog: (string, nat) -> seq<Movie>)
      ensures Valid()
      ensures config == DefaultGameConfig && this.catalog == catalog
      ensures games == map[] && order == []
    {
      config := DefaultGameConfig;
      this.catalog := catalog;
      games := map[];
      order := [];
      nextUuid := 0;
    }

    /** `uuidv4()`: an id never handed out before. */
    method NewId() returns (id: Id)
      modifies this
      ensures id == old(nextUuid) && nextUuid == id + 1
      ensures games == old(games) && order == old(order)
    {
      id := nextUuid;
      nextUuid := nextUuid + 1;
    }

    /** `getGame`: the room stored under `gameId`, if any. */
    function GetGame(gameId: Id): (r: Option<Game>)
      reads this
      ensures r.Some? <==> gameId in games
      ensures r.Some? ==> r.value == games[gameId]
    {
      if gameId in games then Some(games[gameId]) else None
    }

    /** `findGameByRoomCode`: a stored room with that code, the earliest
        inserted when several share it, or nothing when none has it. */
    function FindGameByRoomCode(roomCode: string): (r: Option<Game>)
      reads this
      requires Valid()
      ensures r.Some? ==> r.value.roomCode == roomCode && r.value.id in games && games[r.value.id] == r.value
      ensures r.Some? ==> forall id :: id in games && games[id].roomCode == roomCode ==>
        FirstIndex(order, r.value.id) <= FirstIndex(order, id)
      ensures r.None? ==> forall id :: id in games ==> games[id].roomCode != roomCode
    {
      match FindByCode(games, order, roomCode)
      case None => None
      case Some(k) =>
        FirstIndexUnique(order, k);
        assert forall id :: id in games && games[id].roomCode == roomCode ==>
          FirstIndex(order, id) >= k;
        Some(games[order[k]])
    }

    /** `generateRoomCode`: four letters, each drawn at random; nothing
        compares the code with those of existing rooms. */
    method GenerateRoomCode() returns (code: string)
      ensures IsRoomCode(code)
    {
      code := "";
      for i := 0 to 4
        invariant |code| == i
        invariant forall k :: 0 <= k < i ==> code[k] in Letters
      {
        var r :| 0 <= r < |Letters|;
        code := code + [Letters[r]];
      }
    }

    /** `shuffleArray`: Fisher–Yates on a copy, each swap partner drawn at
        random; the result is a reordering of the input. */
    method ShuffleArray<T>(items: seq<T>) returns (shuffled: seq<T>)
      ensures |shuffled| == |items|
      ensures multiset(shuffled) == multiset(items)
    {
      var a := new T[|items|](k requires 0 <= k < |items| => items[k]);
      assert a[..] == items;
      var i := a.Length - 1;
      while i > 0
        invariant i < a.Length
        invariant multiset(a[..]) == multiset(items)
      {
        var j :| 0 <= j <= i;
        a[i], a[j] := a[j], a[i];
        i := i - 1;
      }
      shuffled := a[..];
    }

    /** `fetchMoviesForGame`: collects the players' genres, asks the catalog
        for `ceil(moviesPerGame / genres)` movies per genre, shuffles
        everything fetched and keeps the first `moviesPerGame`. */
    method FetchMoviesForGame(game: Game) returns (movies: seq<Movie>)
      ensures IsSelection(movies, GamePool(game.players, config.moviesPerGame, catalog), config.moviesPerGame)
    {
      var allGenres := CollectGenres(game.players);
      var perGenre := MoviesPerGenre(config.moviesPerGame, |allGenres|);
      var fetched := FetchPool(allGenres, perGenre);
      var shuffled := ShuffleArray(fetched);
      if |shuffled| <= config.moviesPerGame {
        movies := shuffled;
      } else {
        movies := shuffled[..config.moviesPerGame];
        assert shuffled == movies + shuffled[config.moviesPerGame..];
      }
    }

    /** The genre set of `fetchMoviesForGame`: every player's genres added
        in turn to an insertion-ordered set, and the fallback genres when it
        stays empty. */
    method CollectGenres(players: seq<Player>) returns (allGenres: seq<string>)
      ensures allGenres == GameGenres(players)
    {
      allGenres := [];
      for i := 0 to |players|
        invariant allGenres == Dedup(GenreStream(players[..i]))
      {
        allGenres := AddGenres(allGenres, GenreStream(players[..i]), players[i].genres);
        assert players[..i + 1][..i] == players[..i];
      }
      assert players[..|players|] == players;
      if allGenres == [] {
        allGenres := FallbackGenres;
      }
    }

    /** The inner loop of the genre collection: `genres` added one by one to
        the set `allGenres` built from `seen`. */
    method AddGenres(allGenres: seq<string>, ghost seen: seq<string>, genres: seq<string>) returns (r: seq<string>)
      requires allGenres == Dedup(seen)
      ensures r == Dedup(seen + genres)
    {
      r := allGenres;
      assert seen + genres[..0] == seen;
      for j := 0 to |genres|
        invariant r == Dedup(seen + genres[..j])
      {
        DedupSnoc(seen + genres[..j], genres[j]);
        assert seen + genres[..j + 1] == (seen + genres[..j]) + [genres[j]];
        if genres[j] !in r {
          r := r + [genres[j]];
        }
      }
      assert genres[..|genres|] == genres;
    }

    /** The fetch loop of `fetchMoviesForGame`: each genre's catalog answer
        appended in genre order. */
    method FetchPool(genres: seq<string>, perGenre: nat) returns (fetched: seq<Movie>)
      ensures fetched == Pool(genres, perGenre, catalog)
    {
      fetched := [];
      for k := 0 to |genres|
        invariant fetched == Pool(genres[..k], perGenre, catalog)
      {
        fetched := fetched + catalog(genres[k], perGenre);
        assert genres[..k + 1][..k] == genres[..k];
      }
      assert genres[..|genres|] == genres;
    }

    /** `createGame`: a new room under a fresh id, waiting, with the creator
        as its only player and a random room code. */
    method CreateGame(playerName: string, now: int) returns (game: Game)
      requires Valid()
      modifies this
      ensures Valid()
      ensures Evolves(old(games), old(nextUuid), games, nextUuid)
      ensures game.id == old(nextUuid) && game.id !in old(games)
      ensures nextUuid == old(nextUuid) + 2
      ensures games == old(games)[game.id := game] && order == old(order) + [game.id]
      ensures IsRoomCode(game.roomCode)
      ensures game.status == Waiting && game.movies == [] && game.createdAt == now
      ensures game.startedAt == None && game.endedAt == None && game.topPicks == None
      ensures |game.players| == 1
      ensures game.players[0] == Player(old(nextUuid) + 1, playerName, [], [], false)
    {
      ghost var n0 := nextUuid;
      var gameId := NewId();
      var roomCode := GenerateRoomCode();
      var playerId := NewId();
      var player := Player(playerId, playerName, [], [], false);
      game := Game(gameId, roomCode, [player], [], Waiting, now, None, None, None);
      InsertValid(games, order, n0, nextUuid, config.maxPlayers, game);
      games := games[gameId := game];
      order := order + [gameId];
    }

    /** `joinGame`: appends one new player to the room with that code, unless
        there is no such room, it has left `waiting`, or it is full. */
    method JoinGame(roomCode: string, playerName: string) returns (r: Result<Game, JoinError>)
      requires Valid()
      modifies this
      ensures Valid()
      ensures Evolves(old(games), old(nextUuid), games, nextUuid)
      ensures var found := old(FindGameByRoomCode(roomCode));
        if found.None? then r == Failure(GameNotFound)
        else if found.value.status != Waiting then r == Failure(AlreadyStarted)
        else if |found.value.players| >= config.maxPlayers then r == Failure(GameFull)
        else r == Success(found.value.(players := found.value.players + [Player(old(nextUuid), playerName, [], [], false)]))
      ensures r.Failure? ==> games == old(games) && order == old(order) && nextUuid == old(nextUuid)
      ensures r.Success? ==> games == old(games)[r.value.id := r.value] && order == old(order)
      ensures r.Success? ==> nextUuid == old(nextUuid) + 1
    {
      EvolvesRefl(games, order, nextUuid, config.maxPlayers);
      var found := FindGameByRoomCode(roomCode);
      if found.None? {
        return Failure(GameNotFound);
      }
      var game := found.value;
      if game.status != Waiting {
        return Failure(AlreadyStarted);
      }
      if |game.players| >= config.maxPlayers {
        return Failure(GameFull);
      }
      assert GameOk(game.id, games[game.id], nextUuid, config.maxPlayers);
      ghost var n0 := nextUuid;
      var playerId := NewId();
      var player := Player(playerId, playerName, [], [], false);
      var joined := game.(players := game.players + [player]);
      JoinStep(game, player, n0, config.maxPlayers);
      ReplaceValid(games, order, n0, nextUuid, config.maxPlayers, game.id, joined);
      games := games[game.id := joined];
      r := Success(joined);
    }

    /** `startGame`: a waiting room gets its movies, status `playing` and a
        start time; a playing room is returned as it is; a missing, finished
        or empty room gives nothing. */
    method StartGame(gameId: Id, now: int) returns (r: Option<Game>)
      requires Valid()
      modifies this
      ensures Valid()
      ensures Evolves(old(games), old(nextUuid), games, nextUuid)
      ensures order == old(order) && nextUuid == old(nextUuid)
      ensures gameId !in old(games) ==> r == None && games == old(games)
      ensures gameId in old(games) && old(games[gameId]).status == Finished ==>
        r == None && games == old(games)
      ensures gameId in old(games) && old(games[gameId]).status == Playing ==>
        r == Some(old(games[gameId])) && games == old(games)
      ensures gameId in old(games) && old(games[gameId]).status == Waiting ==>
        var g := old(games[gameId]);
        r.Some? && games == old(games)[gameId := r.value] &&
        r.value == g.(movies := r.value.movies, status := Playing, startedAt := Some(now)) &&
        IsSelection(r.value.movies, GamePool(g.players, config.moviesPerGame, catalog), config.moviesPerGame)
    {
      EvolvesRefl(games, order, nextUuid, config.maxPlayers);
      if gameId !in games {
        return None;
      }
      var game := games[gameId];
      if game.status == Finished || |game.players| == 0 {
        return None;
      }
      if game.status == Waiting {
        var movies := FetchMoviesForGame(game);
        var started := game.(movies := movies, status := Playing, startedAt := Some(now));
        StartStep(game, movies, now, nextUuid, config.maxPlayers);
        ReplaceValid(games, order, nextUuid, nextUuid, config.maxPlayers, gameId, started);
        games := games[gameId := started];
        game := started;
      }
      r := Some(game);
    }

    /** `setPlayerGenres`: overwrites the genres of the first player with
        that id; false, and nothing changed, when the room or player is
        unknown. */
    method SetPlayerGenres(gameId: Id, playerId: Id, genres: seq<string>) returns (ok: bool)
      requires Valid()
      modifies this
      ensures Valid()
      ensures Evolves(old(games), old(nextUuid), games, nextUuid)
      ensures order == old(order) && nextUuid == old(nextUuid)
      ensures ok <==> gameId in old(games) && PlayerIndex(old(games[gameId]).players, playerId).Some?
      ensures !ok ==> games == old(games)
      ensures ok ==>
        var g := old(games[gameId]);
        var k := PlayerIndex(g.players, playerId).value;
        games == old(games)[gameId := g.(players := g.players[k := g.players[k].(genres := genres)])]
    {
      EvolvesRefl(games, order, nextUuid, config.maxPlayers);
      if gameId !in games {
        return false;
      }
      var game := games[gameId];
      var found := PlayerIndex(game.players, playerId);
      if found.None? {
        return false;
      }
      var k := found.value;
      var player := game.players[k].(genres := genres);
      PlayerStep(game, k, player, nextUuid, config.maxPlayers);
      ReplaceValid(games, order, nextUuid, nextUuid, config.maxPlayers, gameId, game.(players := game.players[k := player]));
      games := games[gameId := game.(players := game.players[k := player])];
      ok := true;
    }

    /** `checkGameEnd`: finishes the room, with its end time and ranking,
        exactly when every player has finished. */
    method CheckGameEnd(gameId: Id, now: int)
      requires Valid() && gameId in games
      modifies this
      ensures Valid()
      ensures Evolves(old(games), old(nextUuid), games, nextUuid)
      ensures order == old(order) && nextUuid == old(nextUuid)
      ensures AllFinished(old(games[gameId]).players) ==> games == old(games)[gameId := Finish(old(games[gameId]), now)]
      ensures !AllFinished(old(games[gameId]).players) ==> games == old(games)
    {
      var game := games[gameId];
      var games' := games;
      if AllFinished(game.players) {
        var closed := Finish(game, now);
        FinishStep(game, now, nextUuid, config.maxPlayers);
        ReplaceValid(games, order, nextUuid, nextUuid, config.maxPlayers, gameId, closed);
        games' := games[gameId := closed];
      } else {
        EvolvesRefl(games, order, nextUuid, config.maxPlayers);
      }
      games := games';
    }

    /** `recordSwipe`: appends one swipe to the first player with that id,
        marks the player finished once it has as many swipes as the room has
        movies, and then runs `checkGameEnd`. The room's status is not
        consulted. */
    method RecordSwipe(gameId: Id, playerId: Id, movieId: int, liked: bool, now: int) returns (ok: bool)
      requires Valid()
      modifies this
      ensures Valid()
      ensures Evolves(old(games), old(nextUuid), games, nextUuid)
      ensures order == old(order) && nextUuid == old(nextUuid)
      ensures ok <==> gameId in old(games) && PlayerIndex(old(games[gameId]).players, playerId).Some?
      ensures !ok ==> games == old(games)
      ensures ok ==>
        var g := old(games[gameId]);
        var g' := Swiped(g, PlayerIndex(g.players, playerId).value, MovieSwipe(movieId, liked, now));
        games == old(games)[gameId := if Done(g, PlayerIndex(g.players, playerId).value) && AllFinished(g'.players)
                                      then Finish(g', now) else g']
    {
      EvolvesRefl(games, order, nextUuid, config.maxPlayers);
      if gameId !in games {
        return false;
      }
      var found := PlayerIndex(games[gameId].players, playerId);
      if found.None? {
        return false;
      }
      ghost var g' := Swiped(games[gameId], found.value, MovieSwipe(movieId, liked, now));
      var done := PushSwipe(gameId, found.value, MovieSwipe(movieId, liked, now));
      ghost var pushed := games;
      assert pushed == old(games)[gameId := g'];
      if done {
        CheckGameEnd(gameId, now);
        EvolvesTrans(old(games), order, nextUuid, config.maxPlayers, pushed, nextUuid, games, nextUuid);
        assert pushed[gameId] == g';
        if AllFinished(g'.players) {
          assert games == pushed[gameId := Finish(g', now)];
          UpdateTwice(old(games), gameId, g', Finish(g', now));
        }
      }
      ok := true;
    }

    /** The first half of `recordSwipe`: the swipe is pushed onto the
        player's list and `hasFinished` is set once the player has as many
        swipes as the room has movies; `done` tells whether that test
        passed. */
    method PushSwipe(gameId: Id, k: nat, swipe: MovieSwipe) returns (done: bool)
      requires Valid() && gameId in games && k < |games[gameId].players|
      modifies this
      ensures Valid()
      ensures Evolves(old(games), old(nextUuid), games, nextUuid)
      ensures order == old(order) && nextUuid == old(nextUuid)
      ensures done == Done(old(games[gameId]), k)
      ensures games == old(games)[gameId := Swiped(old(games[gameId]), k, swipe)]
    {
      var game := games[gameId];
      var player := game.players[k];
      player := player.(swipes := player.swipes + [swipe]);
      done := |player.swipes| >= |game.movies|;
      if done {
        player := player.(hasFinished := true);
      }
      assert player == Swiped(game, k, swipe).players[k];
      PlayerStep(game, k, player, nextUuid, config.maxPlayers);
      ReplaceValid(games, order, nextUuid, nextUuid, config.maxPlayers, gameId, game.(players := game.players[k := player]));
      games := games[gameId := game.(players := game.players[k := player])];
    }

    /** `removePlayer`: drops every player with that id, keeping the others
        in order, and deletes the room once nobody is left. The end of the
        game is not re-checked. */
    method RemovePlayer(gameId: Id, playerId: Id)
      requires Valid()
      modifies this
      ensures Valid()
      ensures Evolves(old(games), old(nextUuid), games, nextUuid)
      ensures nextUuid == old(nextUuid)
      ensures gameId !in old(games) ==> games == old(games) && order == old(order)
      ensures gameId in old(games) && RemoveById(old(games[gameId]).players, playerId) == [] ==>
        games == old(games) - {gameId} && order == Remove(old(order), gameId)
      ensures gameId in old(games) && RemoveById(old(games[gameId]).players, playerId) != [] ==>
        games == old(games)[gameId := old(games[gameId]).(players := RemoveById(old(games[gameId]).players, playerId))] &&
        order == old(order)
    {
      EvolvesRefl(games, order, nextUuid, config.maxPlayers);
      if gameId !in games {
        return;
      }
      var game := games[gameId];
      var remaining := RemoveById(game.players, playerId);
      var games', order' := games - {gameId}, Remove(order, gameId);
      if |remaining| == 0 {
        DeleteValid(games, order, nextUuid, config.maxPlayers, gameId);
      } else {
        games', order' := games[gameId := game.(players := remaining)], order;
        RemoveStep(game, playerId, nextUuid, config.maxPlayers);
        ReplaceValid(games, order, nextUuid, nextUuid, config.maxPlayers, gameId, game.(players := remaining));
      }
      games, order := games', order';
    }
  }
}
