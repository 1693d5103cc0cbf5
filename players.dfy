/** Lookups and removals on a room's player list and on the registry's
    insertion order, as `GameManager` (server/src/services/GameManager.ts)
    performs them with `find` and `filter`. */
module Players {
  import opened Wrappers
  import opened Types
  import opened Seqs

  /** No two players of a room share an id. */
  predicate DistinctIds(players: seq<Player>)
  {
    forall i, j :: 0 <= i < j < |players| ==> players[i].id != players[j].id
  }

  /** Every player has set `hasFinished` (`players.every(...)`). */
  predicate AllFinished(players: seq<Player>)
    ensures players == [] ==> AllFinished(players)
    ensures AllFinished(players) <==> forall p :: p in players ==> p.hasFinished
  {
    forall i :: 0 <= i < |players| ==> players[i].hasFinished
  }

  /** `players.find(p => p.id === id)`, as the position of the first match. */
  function PlayerIndex(players: seq<Player>, id: Id): (r: Option<nat>)
    ensures r.Some? ==> r.value < |players| && players[r.value].id == id
    ensures r.Some? ==> forall k :: 0 <= k < r.value ==> players[k].id != id
    ensures r.None? ==> forall k :: 0 <= k < |players| ==> players[k].id != id
  {
    if players == [] then None
    else if players[0].id == id then Some(0)
    else
      match PlayerIndex(players[1..], id)
      case None => None
      case Some(k) => Some(k + 1)
  }

  /** `players.filter(p => p.id !== id)`. */
  function RemoveById(players: seq<Player>, id: Id): (r: seq<Player>)
    ensures |r| <= |players|
    ensures forall k :: 0 <= k < |r| ==> r[k].id != id
  {
    if players == [] then []
    else (if players[0].id == id then [] else [players[0]]) + RemoveById(players[1..], id)
  }

  /** The filter keeps exactly the players with another id. */
  lemma {:induction false} RemoveByIdMembers(players: seq<Player>, id: Id, p: Player)
    ensures p in RemoveById(players, id) <==> p in players && p.id != id
  {
    if players != [] {
      RemoveByIdMembers(players[1..], id, p);
      assert players == [players[0]] + players[1..];
    }
  }

  /** Filtering out an id nobody has changes nothing. */
  lemma {:induction false} RemoveByIdAbsent(players: seq<Player>, id: Id)
    requires forall k :: 0 <= k < |players| ==> players[k].id != id
    ensures RemoveById(players, id) == players
  {
    if players != [] {
      RemoveByIdAbsent(players[1..], id);
    }
  }

  /** With distinct ids, removing the player at `k` leaves the others in
      their order. */
  lemma {:induction false} RemoveByIdAt(players: seq<Player>, k: nat)
    requires DistinctIds(players) && k < |players|
    ensures RemoveById(players, players[k].id) == players[..k] + players[k + 1..]
  {
    var id := players[k].id;
    if k == 0 {
      RemoveByIdAbsent(players[1..], id);
    } else {
      var tail := players[1..];
      assert tail[k - 1] == players[k];
      RemoveByIdAt(tail, k - 1);
      assert players[..k] == [players[0]] + tail[..k - 1];
      assert players[k + 1..] == tail[k..];
    }
  }

  /** The filter keeps ids distinct. */
  lemma RemoveByIdDistinct(players: seq<Player>, id: Id)
    requires DistinctIds(players)
    ensures DistinctIds(RemoveById(players, id))
  {
    match PlayerIndex(players, id)
    case None =>
      RemoveByIdAbsent(players, id);
    case Some(k) =>
      RemoveByIdAt(players, k);
      var r := RemoveById(players, id);
      forall i, j | 0 <= i < j < |r| ensures r[i].id != r[j].id {
        var i', j' := if i < k then i else i + 1, if j < k then j else j + 1;
        assert r[i] == players[i'] && r[j] == players[j'];
      }
  }

  /** The filter only drops players: a room where everyone had finished
      still has everyone finished. */
  lemma RemoveByIdFinished(players: seq<Player>, id: Id)
    requires AllFinished(players)
    ensures AllFinished(RemoveById(players, id))
  {
    var r := RemoveById(players, id);
    forall i | 0 <= i < |r| ensures r[i].hasFinished {
      RemoveByIdMembers(players, id, r[i]);
    }
  }

  /** The first game, in insertion order, whose room code is `code`
      (`Array.from(games.values()).find(...)`), as its position in `order`. */
  function FindByCode(games: map<Id, Game>, order: seq<Id>, code: string): (r: Option<nat>)
    ensures r.Some? ==> r.value < |order| && order[r.value] in games && games[order[r.value]].roomCode == code
    ensures r.Some? ==> forall k :: 0 <= k < r.value && order[k] in games ==> games[order[k]].roomCode != code
    ensures r.None? ==> forall k :: 0 <= k < |order| && order[k] in games ==> games[order[k]].roomCode != code
  {
    if order == [] then None
    else if order[0] in games && games[order[0]].roomCode == code then Some(0)
    else
      match FindByCode(games, order[1..], code)
      case None => None
      case Some(k) => Some(k + 1)
  }
}
