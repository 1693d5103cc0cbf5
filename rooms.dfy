/** The invariant of the room registry kept by `GameManager`
    (server/src/services/GameManager.ts), how a room may change from one
    operation to the next, and one lemma per kind of update showing that the
    update keeps both. */
module Rooms {
  import opened Wrappers
  import opened Types
  import opened Seqs
  import opened Ranking
  import opened Selection
  import opened Players

  /** What holds of every stored room between two operations. `next` bounds
      every id handed out so far. */
  ghost predicate GameOk(key: Id, g: Game, next: nat, maxPlayers: nat)
  {
    && g.id == key && key < next
    && IsRoomCode(g.roomCode)
    && 0 < |g.players| <= (if maxPlayers == 0 then 1 else maxPlayers)
    && DistinctIds(g.players)
    && (forall i :: 0 <= i < |g.players| ==> g.players[i].id < next)
    && (g.status == Waiting ==> g.movies == [] && g.startedAt == None)
    && (g.status == Playing ==> g.startedAt.Some?)
    && (g.status == Finished <==> g.endedAt.Some?)
    && (g.status == Finished <==> g.topPicks.Some?)
    && (g.topPicks.Some? ==> |g.topPicks.value| <= 10)
    && (g.status == Finished ==> AllFinished(g.players))
  }

  /** The registry: every id of `order` is a key of `games` and back, `order`
      lists each once, and every room is well formed. */
  ghost predicate ValidState(games: map<Id, Game>, order: seq<Id>, next: nat, maxPlayers: nat)
  {
    && (forall id :: id in games <==> id in order)
    && Distinct(order)
    && forall id :: id in games ==> GameOk(id, games[id], next, maxPlayers)
  }

  /** How a player may change: same id and name, swipes only appended,
      `hasFinished` never reset. */
  predicate PlayerEvolves(before: Player, after: Player)
  {
    after.id == before.id && after.name == before.name &&
    before.swipes <= after.swipes && (before.hasFinished ==> after.hasFinished)
  }

  /** How a room's player list may change: players it keeps evolve, and
      players it gains carry ids not handed out before (`next`). */
  ghost predicate PlayersEvolve(before: seq<Player>, after: seq<Player>, next: nat)
  {
    && (forall i, j ::
          0 <= i < |before| && 0 <= j < |after| && before[i].id == after[j].id
          ==> PlayerEvolves(before[i], after[j]))
    && (forall j ::
          0 <= j < |after| && after[j].id < next
          ==> exists i :: 0 <= i < |before| && before[i].id == after[j].id)
  }

  /** How a stored room may change: its identity is fixed, its status never
      goes back, its movie list and start time are fixed once it has left
      `waiting`, and its players evolve. */
  ghost predicate GameEvolves(before: Game, after: Game, next: nat)
  {
    && after.id == before.id && after.roomCode == before.roomCode
    && after.createdAt == before.createdAt
    && Rank(before.status) <= Rank(after.status)
    && (before.status != Waiting ==> after.movies == before.movies && after.startedAt == before.startedAt)
    && PlayersEvolve(before.players, after.players, next)
  }

  /** How the registry may change from (`before`, `n0`) to (`after`, `n1`),
      where `n0` and `n1` bound the ids handed out: ids are never reused and
      every room kept evolves. */
  ghost predicate Evolves(before: map<Id, Game>, n0: nat, after: map<Id, Game>, n1: nat)
  {
    && n0 <= n1
    && (forall id :: id in after && id < n0 ==> id in before)
    && (forall id :: id in before && id in after ==> GameEvolves(before[id], after[id], n0))
  }

  lemma PlayersEvolveRefl(ps: seq<Player>, next: nat)
    requires DistinctIds(ps)
    ensures PlayersEvolve(ps, ps, next)
  {
    forall j | 0 <= j < |ps|
      ensures exists i :: 0 <= i < |ps| && ps[i].id == ps[j].id
    {
      assert ps[j].id == ps[j].id;
    }
  }

  lemma GameEvolvesRefl(g: Game, next: nat)
    requires DistinctIds(g.players)
    ensures GameEvolves(g, g, next)
  {
    PlayersEvolveRefl(g.players, next);
  }

  lemma GameEvolvesTrans(a: Game, b: Game, c: Game, na: nat, nb: nat)
    requires na <= nb
    requires forall i :: 0 <= i < |a.players| ==> a.players[i].id < na
    requires GameEvolves(a, b, na) && GameEvolves(b, c, nb)
    ensures GameEvolves(a, c, na)
  {
    PlayersEvolveTrans(a.players, b.players, c.players, na, nb);
  }

  lemma PlayersEvolveTrans(a: seq<Player>, b: seq<Player>, c: seq<Player>, na: nat, nb: nat)
    requires na <= nb
    requires forall i :: 0 <= i < |a| ==> a[i].id < na
    requires PlayersEvolve(a, b, na) && PlayersEvolve(b, c, nb)
    ensures PlayersEvolve(a, c, na)
  {
    forall i, k | 0 <= i < |a| && 0 <= k < |c| && a[i].id == c[k].id
      ensures PlayerEvolves(a[i], c[k])
    {
      var j :| 0 <= j < |b| && b[j].id == c[k].id;
      assert PlayerEvolves(a[i], b[j]);
    }
    forall k | 0 <= k < |c| && c[k].id < na
      ensures exists i :: 0 <= i < |a| && a[i].id == c[k].id
    {
      var j :| 0 <= j < |b| && b[j].id == c[k].id;
      var i :| 0 <= i < |a| && a[i].id == b[j].id;
    }
  }

  /** Two successive changes of a valid registry add up to one: over any run
      of operations a status never regresses, `hasFinished` never reverts,
      swipes are only appended and ids are never reused. */
  lemma EvolvesTrans(a: map<Id, Game>, order: seq<Id>, na: nat, maxPlayers: nat,
                     b: map<Id, Game>, nb: nat, c: map<Id, Game>, nc: nat)
    requires ValidState(a, order, na, maxPlayers)
    requires Evolves(a, na, b, nb) && Evolves(b, nb, c, nc)
    ensures Evolves(a, na, c, nc)
  {
    forall id | id in a && id in c ensures GameEvolves(a[id], c[id], na) {
      assert GameOk(id, a[id], na, maxPlayers);
      assert id in b;
      GameEvolvesTrans(a[id], b[id], c[id], na, nb);
    }
  }

  /** An operation that changes nothing is an evolution. */
  lemma EvolvesRefl(games: map<Id, Game>, order: seq<Id>, n: nat, maxPlayers: nat)
    requires ValidState(games, order, n, maxPlayers)
    ensures Evolves(games, n, games, n)
  {
    forall x | x in games ensures GameEvolves(games[x], games[x], n) {
      GameEvolvesRefl(games[x], n);
    }
  }

  lemma UpdateTwice(m: map<Id, Game>, k: Id, a: Game, b: Game)
    ensures m[k := a][k := b] == m[k := b]
  {
  }

  lemma GameOkGrow(key: Id, g: Game, next: nat, next': nat, maxPlayers: nat)
    requires GameOk(key, g, next, maxPlayers) && next <= next'
    ensures GameOk(key, g, next', maxPlayers)
  {
  }

  /** Replacing one room by a well-formed evolution of it keeps the registry
      valid, and the registry evolves. */
  lemma ReplaceValid(games: map<Id, Game>, order: seq<Id>, n: nat, n': nat, maxPlayers: nat, id: Id, g': Game)
    requires ValidState(games, order, n, maxPlayers) && n <= n'
    requires id in games && GameOk(id, g', n', maxPlayers) && GameEvolves(games[id], g', n)
    ensures ValidState(games[id := g'], order, n', maxPlayers)
    ensures Evolves(games, n, games[id := g'], n')
  {
    var after := games[id := g'];
    forall x | x in after ensures GameOk(x, after[x], n', maxPlayers) {
      if x != id {
        GameOkGrow(x, games[x], n, n', maxPlayers);
      }
    }
    forall x | x in games && x in after ensures GameEvolves(games[x], after[x], n) {
      if x != id {
        GameEvolvesRefl(games[x], n);
      }
    }
  }

  /** Storing a new room under a fresh id keeps the registry valid, and the
      registry evolves. */
  lemma InsertValid(games: map<Id, Game>, order: seq<Id>, n: nat, n': nat, maxPlayers: nat, g: Game)
    requires ValidState(games, order, n, maxPlayers) && n <= g.id && n <= n'
    requires GameOk(g.id, g, n', maxPlayers)
    ensures ValidState(games[g.id := g], order + [g.id], n', maxPlayers)
    ensures Evolves(games, n, games[g.id := g], n')
  {
    var after := games[g.id := g];
    forall x | x in after ensures GameOk(x, after[x], n', maxPlayers) {
      if x != g.id {
        GameOkGrow(x, games[x], n, n', maxPlayers);
      }
    }
    forall x | x in games && x in after ensures GameEvolves(games[x], after[x], n) {
      GameEvolvesRefl(games[x], n);
    }
    assert g.id !in order;
  }

  /** Deleting a room keeps the registry valid, and the registry evolves. */
  lemma DeleteValid(games: map<Id, Game>, order: seq<Id>, n: nat, maxPlayers: nat, id: Id)
    requires ValidState(games, order, n, maxPlayers)
    ensures ValidState(games - {id}, Remove(order, id), n, maxPlayers)
    ensures Evolves(games, n, games - {id}, n)
  {
    RemoveDistinct(order, id);
    forall x ensures x in games - {id} <==> x in Remove(order, id) {
      RemoveMembers(order, id, x);
    }
    forall x | x in games - {id} ensures GameEvolves(games[x], games[x], n) {
      GameEvolvesRefl(games[x], n);
    }
  }

  /** `joinGame`'s update: one new player with a fresh id at the end. */
  lemma JoinStep(g: Game, p: Player, n: nat, maxPlayers: nat)
    requires GameOk(g.id, g, n, maxPlayers)
    requires g.status == Waiting && |g.players| < maxPlayers
    requires p.id == n && !p.hasFinished
    ensures GameOk(g.id, g.(players := g.players + [p]), n + 1, maxPlayers)
    ensures GameEvolves(g, g.(players := g.players + [p]), n)
  {
    var g' := g.(players := g.players + [p]);
    forall i, j | 0 <= i < |g.players| && 0 <= j < |g'.players| && g.players[i].id == g'.players[j].id
      ensures PlayerEvolves(g.players[i], g'.players[j])
    {
      if j < |g.players| {
        assert g'.players[j] == g.players[j];
      }
    }
    forall j | 0 <= j < |g'.players| && g'.players[j].id < n
      ensures exists i :: 0 <= i < |g.players| && g.players[i].id == g'.players[j].id
    {
      assert g'.players[j] == g.players[j];
    }
  }

  /** `startGame`'s update of a waiting room. */
  lemma StartStep(g: Game, movies: seq<Movie>, now: int, n: nat, maxPlayers: nat)
    requires GameOk(g.id, g, n, maxPlayers) && g.status == Waiting
    ensures GameOk(g.id, g.(movies := movies, status := Playing, startedAt := Some(now)), n, maxPlayers)
    ensures GameEvolves(g, g.(movies := movies, status := Playing, startedAt := Some(now)), n)
  {
    PlayersEvolveRefl(g.players, n);
  }

  /** Replacing the player at `k` by an evolution of it with the same id. */
  lemma PlayerStep(g: Game, k: nat, p: Player, n: nat, maxPlayers: nat)
    requires GameOk(g.id, g, n, maxPlayers) && k < |g.players|
    requires PlayerEvolves(g.players[k], p)
    requires g.status == Finished ==> p.hasFinished
    ensures GameOk(g.id, g.(players := g.players[k := p]), n, maxPlayers)
    ensures GameEvolves(g, g.(players := g.players[k := p]), n)
  {
    var g' := g.(players := g.players[k := p]);
    forall i, j | 0 <= i < |g.players| && 0 <= j < |g'.players| && g.players[i].id == g'.players[j].id
      ensures PlayerEvolves(g.players[i], g'.players[j])
    {
      assert g.players[j].id == g'.players[j].id;
    }
    forall j | 0 <= j < |g'.players| && g'.players[j].id < n
      ensures exists i :: 0 <= i < |g.players| && g.players[i].id == g'.players[j].id
    {
      assert g.players[j].id == g'.players[j].id;
    }
    if g.status == Finished {
      assert forall i :: 0 <= i < |g'.players| ==> g'.players[i].hasFinished;
    }
  }

  /** Whether one more swipe brings player `k` to as many swipes as the room
      has movies. */
  predicate Done(g: Game, k: nat)
    requires k < |g.players|
    ensures g.movies == [] ==> Done(g, k)
    ensures |g.players[k].swipes| >= |g.movies| ==> Done(g, k)
    ensures Done(g, k) ==> |g.players[k].swipes| + 1 >= |g.movies|
  {
    |g.players[k].swipes| + 1 >= |g.movies|
  }

  /** The room once player `k` has swiped: the swipe appended, and the
      player marked finished when `Done`. */
  function Swiped(g: Game, k: nat, swipe: MovieSwipe): (r: Game)
    requires k < |g.players|
    ensures |r.players| == |g.players|
    ensures r.players[k].swipes == g.players[k].swipes + [swipe]
    ensures r.players[k].hasFinished <==> g.players[k].hasFinished || |r.players[k].swipes| >= |g.movies|
    ensures r.players[k].id == g.players[k].id && r.players[k].name == g.players[k].name
    ensures r.players[k].genres == g.players[k].genres
    ensures forall j :: 0 <= j < |g.players| && j != k ==> r.players[j] == g.players[j]
    ensures r.(players := g.players) == g
  {
    var p := g.players[k];
    g.(players := g.players[k := p.(swipes := p.swipes + [swipe], hasFinished := Done(g, k) || p.hasFinished)])
  }

  /** The room once `checkGameEnd` has found every player finished. */
  function Finish(g: Game, now: int): (r: Game)
    ensures Rank(r.status) == 2 && r.endedAt == Some(now)
    ensures r.players == g.players && r.movies == g.movies
    ensures r.topPicks.Some? && |r.topPicks.value| <= 10 && SortedByScore(r.topPicks.value)
    ensures r.topPicks == Some(CalculateTopPicks(g.players, g.movies))
    ensures r.id == g.id && r.roomCode == g.roomCode && r.createdAt == g.createdAt && r.startedAt == g.startedAt
  {
    g.(status := Finished, endedAt := Some(now), topPicks := Some(CalculateTopPicks(g.players, g.movies)))
  }

  /** `checkGameEnd`'s update. */
  lemma FinishStep(g: Game, now: int, n: nat, maxPlayers: nat)
    requires GameOk(g.id, g, n, maxPlayers) && AllFinished(g.players)
    ensures GameOk(g.id, Finish(g, now), n, maxPlayers)
    ensures GameEvolves(g, Finish(g, now), n)
  {
    var picks := CalculateTopPicks(g.players, g.movies);
    assert Finish(g, now) == g.(status := Finished, endedAt := Some(now), topPicks := Some(picks));
    PlayersEvolveRefl(g.players, n);
  }

  /** `removePlayer`'s update of a room that keeps some player: the survivors
      are unchanged. */
  lemma RemoveStep(g: Game, playerId: Id, n: nat, maxPlayers: nat)
    requires GameOk(g.id, g, n, maxPlayers) && RemoveById(g.players, playerId) != []
    ensures GameOk(g.id, g.(players := RemoveById(g.players, playerId)), n, maxPlayers)
    ensures GameEvolves(g, g.(players := RemoveById(g.players, playerId)), n)
  {
    var r := RemoveById(g.players, playerId);
    RemoveByIdDistinct(g.players, playerId);
    if g.status == Finished {
      RemoveByIdFinished(g.players, playerId);
    }
    forall j | 0 <= j < |r|
      ensures exists i :: 0 <= i < |g.players| && g.players[i] == r[j]
    {
      RemoveByIdMembers(g.players, playerId, r[j]);
    }
  }
}
