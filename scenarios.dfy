/** Short runs of the game manager that pin down behaviour of
    server/src/services/GameManager.ts which the room lifecycle alone does
    not suggest. */
module Scenarios {
  import opened Wrappers
  import opened Types
  import opened Ranking
  import opened Players
  import opened Rooms
  import opened Manager

  /** `recordSwipe` does not look at the room's status: in a room that was
      never started the movie list is empty, so the creator's first swipe
      finishes the creator and then the room, straight from `waiting` and
      without a start time. Its ranking is empty, since no liked movie is in
      the room's (empty) list. */
  method SwipeBeforeStart(catalog: (string, nat) -> seq<Movie>) returns (game: Game)
    ensures game.status == Finished && game.startedAt == None && game.movies == []
    ensures game.endedAt == Some(1) && game.topPicks == Some([])
  {
    var m := new GameManager(catalog);
    var created := m.CreateGame("host", 0);
    var host := created.players[0].id;
    assert m.games[created.id] == created;
    assert PlayerIndex(created.players, host) == Some(0);
    var swiped := Swiped(created, 0, MovieSwipe(7, true, 1));
    assert AllFinished(swiped.players);
    var ok := m.RecordSwipe(created.id, host, 7, true, 1);
    game := m.games[created.id];
    assert game == Finish(swiped, 1);
    NoMoviesNoPicks(swiped.players);
  }

  /** Swipes on a finished room are not ignored: the swipe is appended and,
      once the player has at least as many swipes as the room has movies,
      `checkGameEnd` runs again, so the room's end time moves to the time of
      the extra swipe and its ranking is recomputed. A swipe that leaves the
      player short of that count keeps the end time and the ranking. */
  method SwipeAfterEnd(m: GameManager, gameId: Id, playerId: Id, movieId: int, liked: bool, now: int)
    requires m.Valid() && gameId in m.games && m.games[gameId].status == Finished
    requires PlayerIndex(m.games[gameId].players, playerId).Some?
    modifies m
    ensures gameId in m.games
    ensures var g := m.games[gameId]; var k := PlayerIndex(old(m.games[gameId]).players, playerId).value;
      g.status == Finished &&
      k < |g.players| && g.players[k].swipes == old(m.games[gameId]).players[k].swipes + [MovieSwipe(movieId, liked, now)]
    ensures var g0 := old(m.games[gameId]); var k := PlayerIndex(g0.players, playerId).value;
      Done(g0, k) ==> m.games[gameId].endedAt == Some(now) &&
                      m.games[gameId].topPicks == Some(CalculateTopPicks(m.games[gameId].players, m.games[gameId].movies))
    ensures var g0 := old(m.games[gameId]); var k := PlayerIndex(g0.players, playerId).value;
      !Done(g0, k) ==> m.games[gameId].endedAt == g0.endedAt && m.games[gameId].topPicks == g0.topPicks
  {
    var before := m.games[gameId];
    assert GameOk(gameId, before, m.nextUuid, m.config.maxPlayers);
    var k := PlayerIndex(before.players, playerId).value;
    var swiped := Swiped(before, k, MovieSwipe(movieId, liked, now));
    assert AllFinished(swiped.players);
    var ok := m.RecordSwipe(gameId, playerId, movieId, liked, now);
    if Done(before, k) {
      assert m.games[gameId] == Finish(swiped, now);
    } else {
      assert m.games[gameId] == swiped;
    }
  }

  lemma {:induction false} ResolveNoMovies(ts: seq<Tally>)
    ensures Resolve(ts, []) == []
  {
    if ts != [] {
      ResolveNoMovies(ts[1..]);
    }
  }

  /** With no movies in the room, no tally can be joined to a movie. */
  lemma NoMoviesNoPicks(players: seq<Player>)
    ensures CalculateTopPicks(players, []) == []
  {
    ResolveNoMovies(Tallies(Likes(players)));
  }
}
