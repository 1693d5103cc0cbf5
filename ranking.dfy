/** The final ranking of a room (`calculateTopPicks`,
    server/src/services/GameManager.ts): liked swipes are tallied per movie id
    in a table that keeps first-insertion order, each tally is joined to the
    room's movie list, the survivors are sorted by score with a stable sort and
    the first ten are kept. */
module Ranking {
  import opened Wrappers
  import opened Types
  import opened Seqs

  /** A liked swipe, tagged with the name of the player who made it. */
  datatype Like = Like(movieId: int, name: string)

  /** The liked swipes among `swipes`, in swipe order. */
  function SwipeLikes(name: string, swipes: seq<MovieSwipe>): (r: seq<Like>)
    ensures |r| <= |swipes|
    ensures forall i :: 0 <= i < |r| ==> r[i].name == name
  {
    if swipes == [] then []
    else
      var last := swipes[|swipes| - 1];
      SwipeLikes(name, swipes[..|swipes| - 1]) + (if last.liked then [Like(last.movieId, name)] else [])
  }

  /** Every liked swipe of the room: players in list order, each player's
      swipes in the order they were made. */
  function Likes(players: seq<Player>): (r: seq<Like>)
    ensures forall i :: 0 <= i < |r| ==> exists k :: 0 <= k < |players| && players[k].name == r[i].name
  {
    if players == [] then []
    else
      var last := players[|players| - 1];
      var init := players[..|players| - 1];
      assert forall k :: 0 <= k < |init| ==> init[k] == players[k];
      Likes(init) + SwipeLikes(last.name, last.swipes)
  }

  function LikeIds(ls: seq<Like>): (ids: seq<int>)
    ensures |ids| == |ls|
  {
    seq(|ls|, k requires 0 <= k < |ls| => ls[k].movieId)
  }

  /** How many liked swipes name movie `id`. */
  function Count(ls: seq<Like>, id: int): nat
  {
    if ls == [] then 0
    else Count(ls[..|ls| - 1], id) + (if ls[|ls| - 1].movieId == id then 1 else 0)
  }

  /** The names behind the liked swipes for movie `id`, in swipe order. */
  function Likers(ls: seq<Like>, id: int): seq<string>
  {
    if ls == [] then []
    else Likers(ls[..|ls| - 1], id) + (if ls[|ls| - 1].movieId == id then [ls[|ls| - 1].name] else [])
  }

  lemma {:induction false} CountPositive(ls: seq<Like>, id: int)
    ensures Count(ls, id) > 0 <==> id in LikeIds(ls)
    ensures id !in LikeIds(ls) ==> Likers(ls, id) == []
  {
    if ls != [] {
      var p := ls[..|ls| - 1];
      CountPositive(p, id);
      assert LikeIds(ls) == LikeIds(p) + [ls[|ls| - 1].movieId];
    }
  }

  /** One entry of the score table: a movie id, its score and its likers. */
  datatype Tally = Tally(movieId: int, score: nat, players: seq<string>)

  function TallyIds(ts: seq<Tally>): (ids: seq<int>)
    ensures |ids| == |ts|
  {
    seq(|ts|, k requires 0 <= k < |ts| => ts[k].movieId)
  }

  /** Where the table holds `id`, if it does (`Map.get`). */
  function IndexOfTally(ts: seq<Tally>, id: int): (r: Option<nat>)
    ensures r.Some? ==> r.value < |ts| && ts[r.value].movieId == id
    ensures r.None? ==> id !in TallyIds(ts)
  {
    if ts == [] then None
    else if ts[0].movieId == id then Some(0)
    else
      assert TallyIds(ts) == [ts[0].movieId] + TallyIds(ts[1..]);
      match IndexOfTally(ts[1..], id)
      case Some(k) => Some(k + 1)
      case None => None
  }

  /** One step of the accumulation: the entry for the liked movie gets one
      more point and one more name; a movie not yet in the table is added at
      its end (`Map.set` keeps the position of an existing key). */
  function Record(ts: seq<Tally>, l: Like): (r: seq<Tally>)
    ensures |r| == |ts| + (if l.movieId in TallyIds(ts) then 0 else 1)
    ensures l.movieId in TallyIds(r)
    ensures forall k :: 0 <= k < |ts| && ts[k].movieId != l.movieId ==> r[k] == ts[k]
  {
    match IndexOfTally(ts, l.movieId)
    case Some(k) =>
      var r := ts[k := Tally(l.movieId, ts[k].score + 1, ts[k].players + [l.name])];
      assert TallyIds(ts)[k] == l.movieId && TallyIds(r)[k] == l.movieId;
      r
    case None =>
      var r := ts + [Tally(l.movieId, 1, [l.name])];
      assert TallyIds(r)[|ts|] == l.movieId;
      r
  }

  /** The score table after visiting every liked swipe in order. */
  function Tallies(ls: seq<Like>): (r: seq<Tally>)
    ensures |r| <= |ls|
    ensures forall k :: 0 <= k < |r| ==> r[k].score >= 1 && |r[k].players| == r[k].score
  {
    if ls == [] then [] else Record(Tallies(ls[..|ls| - 1]), ls[|ls| - 1])
  }

  /** Every entry of `ts` holds the true score and likers of its movie. */
  ghost predicate TalliesAgree(ts: seq<Tally>, ls: seq<Like>)
  {
    forall k :: 0 <= k < |ts| ==>
      ts[k].score == Count(ls, ts[k].movieId) && ts[k].players == Likers(ls, ts[k].movieId)
  }

  lemma SnocIds(p: seq<Like>, l: Like)
    ensures LikeIds(p + [l]) == LikeIds(p) + [l.movieId]
    ensures Dedup(LikeIds(p + [l])) ==
      if l.movieId in Dedup(LikeIds(p)) then Dedup(LikeIds(p)) else Dedup(LikeIds(p)) + [l.movieId]
  {
    assert LikeIds(p + [l]) == LikeIds(p) + [l.movieId];
    assert LikeIds(p + [l])[..|p|] == LikeIds(p);
  }

  lemma SnocCount(p: seq<Like>, l: Like, id: int)
    ensures Count(p + [l], id) == Count(p, id) + (if l.movieId == id then 1 else 0)
    ensures Likers(p + [l], id) == Likers(p, id) + (if l.movieId == id then [l.name] else [])
  {
    assert (p + [l])[..|p|] == p;
  }

  lemma AgreeExisting(t: seq<Tally>, p: seq<Like>, l: Like)
    requires TalliesAgree(t, p) && Distinct(TallyIds(t))
    requires IndexOfTally(t, l.movieId).Some?
    ensures TalliesAgree(Record(t, l), p + [l])
  {
    var k := IndexOfTally(t, l.movieId).value;
    var t' := Record(t, l);
    assert t' == t[k := Tally(l.movieId, t[k].score + 1, t[k].players + [l.name])];
    forall j | 0 <= j < |t'|
      ensures t'[j].score == Count(p + [l], t'[j].movieId)
      ensures t'[j].players == Likers(p + [l], t'[j].movieId)
    {
      SnocCount(p, l, t'[j].movieId);
      if j != k {
        assert TallyIds(t)[j] != TallyIds(t)[k];
      }
    }
  }

  lemma AgreeNew(t: seq<Tally>, p: seq<Like>, l: Like)
    requires TalliesAgree(t, p)
    requires IndexOfTally(t, l.movieId).None? && l.movieId !in LikeIds(p)
    ensures TalliesAgree(Record(t, l), p + [l])
  {
    var t' := Record(t, l);
    assert t' == t + [Tally(l.movieId, 1, [l.name])];
    CountPositive(p, l.movieId);
    forall j | 0 <= j < |t'|
      ensures t'[j].score == Count(p + [l], t'[j].movieId)
      ensures t'[j].players == Likers(p + [l], t'[j].movieId)
    {
      SnocCount(p, l, t'[j].movieId);
      if j < |t| {
        assert TallyIds(t)[j] == t[j].movieId;
      }
    }
  }

  /** A like for a movie already in the table leaves its ids as they are. */
  lemma IdsExisting(t: seq<Tally>, p: seq<Like>, l: Like)
    requires TallyIds(t) == Dedup(LikeIds(p))
    requires IndexOfTally(t, l.movieId).Some?
    ensures TallyIds(Record(t, l)) == Dedup(LikeIds(p + [l]))
  {
    var k := IndexOfTally(t, l.movieId).value;
    var t' := Record(t, l);
    assert t' == t[k := Tally(l.movieId, t[k].score + 1, t[k].players + [l.name])];
    assert TallyIds(t)[k] == l.movieId;
    assert forall j :: 0 <= j < |t'| ==> TallyIds(t')[j] == TallyIds(t)[j];
    assert TallyIds(t') == TallyIds(t);
    SnocIds(p, l);
  }

  /** A like for a movie not yet in the table appends its id. */
  lemma IdsNew(t: seq<Tally>, p: seq<Like>, l: Like)
    requires TallyIds(t) == Dedup(LikeIds(p))
    requires IndexOfTally(t, l.movieId).None?
    ensures TallyIds(Record(t, l)) == Dedup(LikeIds(p + [l]))
    ensures l.movieId !in LikeIds(p)
  {
    assert Record(t, l) == t + [Tally(l.movieId, 1, [l.name])];
    SnocIds(p, l);
    DedupMembers(LikeIds(p), l.movieId);
    assert TallyIds(Record(t, l)) == TallyIds(t) + [l.movieId];
  }

  /** The score table holds one entry per liked movie, in order of the first
      like, with the number of likes and the likers' names. */
  lemma {:induction false} TalliesCorrect(ls: seq<Like>)
    ensures TallyIds(Tallies(ls)) == Dedup(LikeIds(ls))
    ensures TalliesAgree(Tallies(ls), ls)
  {
    if ls != [] {
      var p, l := ls[..|ls| - 1], ls[|ls| - 1];
      assert ls == p + [l];
      TalliesCorrect(p);
      var t := Tallies(p);
      if IndexOfTally(t, l.movieId).Some? {
        IdsExisting(t, p, l);
        AgreeExisting(t, p, l);
      } else {
        IdsNew(t, p, l);
        AgreeNew(t, p, l);
      }
    }
  }

  /** The first movie of the list with this id (`Array.prototype.find`). */
  function FindMovie(movies: seq<Movie>, id: int): (r: Option<Movie>)
    ensures r.Some? ==> r.value.id == id && r.value in movies
  {
    if movies == [] then None
    else if movies[0].id == id then Some(movies[0])
    else FindMovie(movies[1..], id)
  }

  /** `FindMovie` fails exactly when no movie of the list carries the id. */
  lemma {:induction false} FindMovieNone(movies: seq<Movie>, id: int)
    ensures FindMovie(movies, id).None? <==> forall k :: 0 <= k < |movies| ==> movies[k].id != id
  {
    if movies != [] && movies[0].id != id {
      FindMovieNone(movies[1..], id);
      assert forall k :: 1 <= k < |movies| ==> movies[k] == movies[1..][k - 1];
    }
  }

  /** `FindMovie` returns the first movie of the list carrying the id. */
  lemma {:induction false} FindMovieFirst(movies: seq<Movie>, id: int)
    requires FindMovie(movies, id).Some?
    ensures exists j :: 0 <= j < |movies| && movies[j] == FindMovie(movies, id).value &&
                        (forall i :: 0 <= i < j ==> movies[i].id != id)
  {
    if movies[0].id != id {
      FindMovieFirst(movies[1..], id);
      var j :| 0 <= j < |movies[1..]| && movies[1..][j] == FindMovie(movies[1..], id).value &&
               (forall i :: 0 <= i < j ==> movies[1..][i].id != id);
      assert movies[j + 1] == movies[1..][j];
    }
  }

  /** Joins every tally to its movie and drops those whose movie id is not in
      the room's list (the `map` to `null` and the `filter`). */
  function Resolve(ts: seq<Tally>, movies: seq<Movie>): (r: seq<TopPick>)
    ensures |r| <= |ts|
    ensures forall i :: 0 <= i < |r| ==> r[i].movie in movies
  {
    if ts == [] then []
    else if FindMovie(movies, ts[0].movieId).Some? then
      [TopPick(FindMovie(movies, ts[0].movieId).value, ts[0].score, ts[0].players)] + Resolve(ts[1..], movies)
    else Resolve(ts[1..], movies)
  }

  /** Every joined pick carries the score and likers of a tally, and the first
      movie of the list with its id. */
  lemma {:induction false} ResolveSound(ts: seq<Tally>, movies: seq<Movie>, ls: seq<Like>)
    requires TalliesAgree(ts, ls)
    ensures forall i :: 0 <= i < |Resolve(ts, movies)| ==>
      var q := Resolve(ts, movies)[i];
      q.movie.id in TallyIds(ts) &&
      FindMovie(movies, q.movie.id) == Some(q.movie) &&
      q.score == Count(ls, q.movie.id) && q.players == Likers(ls, q.movie.id)
  {
    if ts != [] {
      ResolveSound(ts[1..], movies, ls);
      assert TallyIds(ts) == [ts[0].movieId] + TallyIds(ts[1..]);
    }
  }

  /** A tally whose movie is in the list survives the join. */
  lemma {:induction false} ResolveComplete(ts: seq<Tally>, movies: seq<Movie>, id: int)
    requires id in TallyIds(ts) && FindMovie(movies, id).Some?
    ensures exists i :: 0 <= i < |Resolve(ts, movies)| && Resolve(ts, movies)[i].movie.id == id
  {
    var r, r' := Resolve(ts, movies), Resolve(ts[1..], movies);
    if ts[0].movieId == id {
      assert r[0].movie.id == id;
    } else {
      assert id in TallyIds(ts[1..]) by {
        assert TallyIds(ts) == [ts[0].movieId] + TallyIds(ts[1..]);
      }
      ResolveComplete(ts[1..], movies, id);
      var i :| 0 <= i < |r'| && r'[i].movie.id == id;
      if FindMovie(movies, ts[0].movieId).Some? {
        assert r[i + 1] == r'[i];
      } else {
        assert r[i] == r'[i];
      }
    }
  }

  lemma {:induction false} ResolveIds(ts: seq<Tally>, movies: seq<Movie>)
    ensures forall i :: 0 <= i < |Resolve(ts, movies)| ==> Resolve(ts, movies)[i].movie.id in TallyIds(ts)
  {
    if ts != [] {
      ResolveIds(ts[1..], movies);
      assert TallyIds(ts) == [ts[0].movieId] + TallyIds(ts[1..]);
    }
  }

  lemma ResolveUnfold(ts: seq<Tally>, movies: seq<Movie>)
    requires ts != []
    ensures FindMovie(movies, ts[0].movieId).Some? ==>
      Resolve(ts, movies) != [] &&
      Resolve(ts, movies)[0].movie.id == ts[0].movieId &&
      Resolve(ts, movies)[1..] == Resolve(ts[1..], movies)
    ensures FindMovie(movies, ts[0].movieId).None? ==> Resolve(ts, movies) == Resolve(ts[1..], movies)
  {
  }

  lemma TallyIdsTail(ts: seq<Tally>)
    requires ts != [] && Distinct(TallyIds(ts))
    ensures TallyIds(ts) == [ts[0].movieId] + TallyIds(ts[1..])
    ensures Distinct(TallyIds(ts[1..]))
    ensures ts[0].movieId !in TallyIds(ts[1..])
  {
    var ids, ids' := TallyIds(ts), TallyIds(ts[1..]);
    assert ids == [ts[0].movieId] + ids';
    forall i, j | 0 <= i < j < |ids'| ensures ids'[i] != ids'[j] {
      assert ids'[i] == ids[i + 1] && ids'[j] == ids[j + 1];
    }
    forall i | 0 <= i < |ids'| ensures ids'[i] != ts[0].movieId {
      assert ids'[i] == ids[i + 1] && ids[0] == ts[0].movieId;
    }
  }

  /** The join keeps the order of the table. */
  lemma {:induction false} ResolveOrder(ts: seq<Tally>, movies: seq<Movie>, a: nat, b: nat)
    requires Distinct(TallyIds(ts))
    requires a < b < |Resolve(ts, movies)|
    ensures Resolve(ts, movies)[a].movie.id in TallyIds(ts)
    ensures Resolve(ts, movies)[b].movie.id in TallyIds(ts)
    ensures FirstIndex(TallyIds(ts), Resolve(ts, movies)[a].movie.id)
          < FirstIndex(TallyIds(ts), Resolve(ts, movies)[b].movie.id)
    decreases |ts|, 1
  {
    if FindMovie(movies, ts[0].movieId).None? {
      ResolveOrderDropped(ts, movies, a, b);
    } else if a == 0 {
      ResolveOrderFirst(ts, movies, b);
    } else {
      ResolveOrderKept(ts, movies, a, b);
    }
  }

  lemma ResolveOrderFirst(ts: seq<Tally>, movies: seq<Movie>, b: nat)
    requires Distinct(TallyIds(ts))
    requires 0 < b < |Resolve(ts, movies)| && FindMovie(movies, ts[0].movieId).Some?
    ensures Resolve(ts, movies)[0].movie.id in TallyIds(ts)
    ensures Resolve(ts, movies)[b].movie.id in TallyIds(ts)
    ensures FirstIndex(TallyIds(ts), Resolve(ts, movies)[0].movie.id)
          < FirstIndex(TallyIds(ts), Resolve(ts, movies)[b].movie.id)
  {
    TallyIdsTail(ts);
    ResolveUnfold(ts, movies);
    ResolveIds(ts[1..], movies);
    var ids, ids' := TallyIds(ts), TallyIds(ts[1..]);
    assert ids[1..] == ids';
    var r' := Resolve(ts[1..], movies);
    assert r'[b - 1].movie.id in ids';
    FirstIndexTail(ids, r'[b - 1].movie.id);
    assert FirstIndex(ids, ts[0].movieId) == 0;
  }

  lemma ResolveOrderKept(ts: seq<Tally>, movies: seq<Movie>, a: nat, b: nat)
    requires Distinct(TallyIds(ts))
    requires 0 < a < b < |Resolve(ts, movies)| && FindMovie(movies, ts[0].movieId).Some?
    ensures Resolve(ts, movies)[a].movie.id in TallyIds(ts)
    ensures Resolve(ts, movies)[b].movie.id in TallyIds(ts)
    ensures FirstIndex(TallyIds(ts), Resolve(ts, movies)[a].movie.id)
          < FirstIndex(TallyIds(ts), Resolve(ts, movies)[b].movie.id)
    decreases |ts|, 0
  {
    TallyIdsTail(ts);
    ResolveUnfold(ts, movies);
    ResolveOrder(ts[1..], movies, a - 1, b - 1);
    var r, r' := Resolve(ts, movies), Resolve(ts[1..], movies);
    assert r[a] == r'[a - 1] && r[b] == r'[b - 1];
    TailOrder(TallyIds(ts), TallyIds(ts[1..]), r[a].movie.id, r[b].movie.id);
  }

  lemma ResolveOrderDropped(ts: seq<Tally>, movies: seq<Movie>, a: nat, b: nat)
    requires Distinct(TallyIds(ts))
    requires a < b < |Resolve(ts, movies)| && FindMovie(movies, ts[0].movieId).None?
    ensures Resolve(ts, movies)[a].movie.id in TallyIds(ts)
    ensures Resolve(ts, movies)[b].movie.id in TallyIds(ts)
    ensures FirstIndex(TallyIds(ts), Resolve(ts, movies)[a].movie.id)
          < FirstIndex(TallyIds(ts), Resolve(ts, movies)[b].movie.id)
    decreases |ts|, 0
  {
    TallyIdsTail(ts);
    ResolveUnfold(ts, movies);
    ResolveOrder(ts[1..], movies, a, b);
    var r, r' := Resolve(ts, movies), Resolve(ts[1..], movies);
    assert r[a] == r'[a] && r[b] == r'[b];
    TailOrder(TallyIds(ts), TallyIds(ts[1..]), r[a].movie.id, r[b].movie.id);
  }

  /** Two keys of the tail of a distinct key order keep their relative
      order in the whole. */
  lemma TailOrder(ids: seq<int>, tail: seq<int>, x: int, y: int)
    requires Distinct(ids) && ids != [] && tail == ids[1..]
    requires x in tail && y in tail && FirstIndex(tail, x) < FirstIndex(tail, y)
    ensures x in ids && y in ids && FirstIndex(ids, x) < FirstIndex(ids, y)
  {
    FirstIndexTail(ids, x);
    FirstIndexTail(ids, y);
  }

  lemma FirstIndexTail(s: seq<int>, x: int)
    requires Distinct(s) && |s| > 0 && x in s[1..]
    ensures FirstIndex(s, x) == 1 + FirstIndex(s[1..], x)
  {
    var k := FirstIndex(s[1..], x);
    assert s[k + 1] == x;
  }

  predicate SortedByScore(s: seq<TopPick>)
  {
    forall i, j :: 0 <= i < j < |s| ==> s[i].score >= s[j].score
  }

  /** Inserts `x` in front of the first pick whose score is not higher: the
      step of a stable sort by non-increasing score when `x` came first. */
  function Insert(x: TopPick, s: seq<TopPick>): (r: seq<TopPick>)
    ensures multiset(r) == multiset(s) + multiset{x}
  {
    if s == [] || x.score >= s[0].score then [x] + s
    else
      assert s == [s[0]] + s[1..];
      [s[0]] + Insert(x, s[1..])
  }

  lemma {:induction false} InsertMember(x: TopPick, s: seq<TopPick>, i: nat)
    requires i < |Insert(x, s)|
    ensures Insert(x, s)[i] == x || exists k :: 0 <= k < |s| && s[k] == Insert(x, s)[i]
  {
    var y := Insert(x, s)[i];
    assert y in multiset(s) + multiset{x};
    if y != x {
      assert y in s;
    }
  }

  lemma {:induction false} InsertSorted(x: TopPick, s: seq<TopPick>)
    requires SortedByScore(s)
    ensures SortedByScore(Insert(x, s))
  {
    if s != [] && x.score < s[0].score {
      var rest := Insert(x, s[1..]);
      InsertSorted(x, s[1..]);
      forall i | 0 <= i < |rest| ensures s[0].score >= rest[i].score {
        InsertMember(x, s[1..], i);
      }
    }
  }

  /** `sort((a, b) => b.score - a.score)`: ECMAScript's sort is stable, so it
      is modelled by insertion sort. */
  function SortByScore(s: seq<TopPick>): (r: seq<TopPick>)
    ensures multiset(r) == multiset(s)
    ensures |r| == |s|
    ensures SortedByScore(r)
  {
    if s == [] then []
    else
      assert s == [s[0]] + s[1..];
      InsertSorted(s[0], SortByScore(s[1..]));
      Insert(s[0], SortByScore(s[1..]))
  }

  /** `pos` increases along `s` wherever two picks tie on score. */
  ghost predicate TiesOrdered(s: seq<TopPick>, pos: TopPick -> int)
  {
    forall i, j :: 0 <= i < j < |s| && s[i].score == s[j].score ==> pos(s[i]) < pos(s[j])
  }

  /** Picks of equal score keep their relative order through `Insert`. */
  lemma {:induction false} InsertStable(x: TopPick, s: seq<TopPick>, pos: TopPick -> int)
    requires TiesOrdered(s, pos)
    requires forall i :: 0 <= i < |s| ==> pos(x) < pos(s[i])
    ensures TiesOrdered(Insert(x, s), pos)
  {
    if s != [] && x.score < s[0].score {
      var rest := Insert(x, s[1..]);
      InsertStable(x, s[1..], pos);
      var r := [s[0]] + rest;
      assert r == Insert(x, s);
      forall j | 0 < j < |r| && r[0].score == r[j].score
        ensures pos(r[0]) < pos(r[j])
      {
        InsertMember(x, s[1..], j - 1);
        if rest[j - 1] != x {
          var k :| 0 <= k < |s[1..]| && s[1..][k] == rest[j - 1];
          assert s[k + 1] == r[j];
        }
      }
      forall i, j | 1 <= i < j < |r| && r[i].score == r[j].score
        ensures pos(r[i]) < pos(r[j])
      {
        assert r[i] == rest[i - 1] && r[j] == rest[j - 1];
      }
    }
  }

  /** The sort is stable: picks of equal score keep their input order. */
  lemma {:induction false} SortStable(s: seq<TopPick>, pos: TopPick -> int)
    requires forall i, j :: 0 <= i < j < |s| ==> pos(s[i]) < pos(s[j])
    ensures TiesOrdered(SortByScore(s), pos)
  {
    if s != [] {
      var tail := SortByScore(s[1..]);
      SortStable(s[1..], pos);
      forall i | 0 <= i < |tail| ensures pos(s[0]) < pos(tail[i]) {
        assert tail[i] in multiset(s[1..]);
        var k :| 0 <= k < |s[1..]| && s[1..][k] == tail[i];
        assert s[k + 1] == tail[i];
      }
      InsertStable(s[0], tail, pos);
    }
  }

  /** `calculateTopPicks`: at most ten picks, best score first. */
  function CalculateTopPicks(players: seq<Player>, movies: seq<Movie>): (r: seq<TopPick>)
    ensures |r| <= 10
    ensures SortedByScore(r)
  {
    var sorted := Ranked(players, movies);
    if |sorted| <= 10 then sorted else sorted[..10]
  }

  /** The full sorted list that `CalculateTopPicks` cuts to ten. */
  function Ranked(players: seq<Player>, movies: seq<Movie>): (r: seq<TopPick>)
    ensures SortedByScore(r)
    ensures forall i :: 0 <= i < |r| ==> r[i].movie in movies
  {
    var res := Resolve(Tallies(Likes(players)), movies);
    var sorted := SortByScore(res);
    assert forall i :: 0 <= i < |sorted| ==> sorted[i] in multiset(res);
    sorted
  }

  lemma RankedFacts(players: seq<Player>, movies: seq<Movie>)
    ensures var ls := Likes(players); var r := Ranked(players, movies);
      forall i :: 0 <= i < |r| ==>
        r[i].movie.id in LikeIds(ls) &&
        FindMovie(movies, r[i].movie.id) == Some(r[i].movie) &&
        r[i].score == Count(ls, r[i].movie.id) && r[i].players == Likers(ls, r[i].movie.id)
  {
    var ls := Likes(players);
    var ts := Tallies(ls);
    TalliesCorrect(ls);
    ResolveSound(ts, movies, ls);
    var res := Resolve(ts, movies);
    var r := Ranked(players, movies);
    forall i | 0 <= i < |r|
      ensures r[i].movie.id in LikeIds(ls)
      ensures FindMovie(movies, r[i].movie.id) == Some(r[i].movie)
      ensures r[i].score == Count(ls, r[i].movie.id) && r[i].players == Likers(ls, r[i].movie.id)
    {
      assert r[i] in multiset(res);
      var k :| 0 <= k < |res| && res[k] == r[i];
      assert r[i].movie.id in Dedup(LikeIds(ls));
      DedupMembers(LikeIds(ls), r[i].movie.id);
    }
  }

  /** Each pick's score is the number of liked swipes for its movie across all
      players (at least one), its names are those players' names in
      player-then-swipe order, and its movie is the first of the room's list
      with that id. */
  lemma TopPicksScores(players: seq<Player>, movies: seq<Movie>)
    ensures var ls := Likes(players); var r := CalculateTopPicks(players, movies);
      forall i :: 0 <= i < |r| ==>
        r[i].score == Count(ls, r[i].movie.id) && r[i].score >= 1 &&
        r[i].players == Likers(ls, r[i].movie.id) &&
        FindMovie(movies, r[i].movie.id) == Some(r[i].movie)
  {
    var ls := Likes(players);
    RankedFacts(players, movies);
    var r := CalculateTopPicks(players, movies);
    forall i | 0 <= i < |r| ensures r[i].score >= 1 {
      assert r[i] == Ranked(players, movies)[i];
      CountPositive(ls, r[i].movie.id);
    }
  }

  /** A movie nobody liked, or whose id is not in the room's list, gets no pick. */
  lemma TopPicksExclude(players: seq<Player>, movies: seq<Movie>, id: int)
    requires Count(Likes(players), id) == 0 || FindMovie(movies, id).None?
    ensures forall i :: 0 <= i < |CalculateTopPicks(players, movies)| ==>
      CalculateTopPicks(players, movies)[i].movie.id != id
  {
    TopPicksScores(players, movies);
  }

  /** Every liked movie of the room's list has an entry in the full ranking. */
  lemma RankedComplete(players: seq<Player>, movies: seq<Movie>, id: int)
    requires Count(Likes(players), id) > 0 && FindMovie(movies, id).Some?
    ensures exists q :: 0 <= q < |Ranked(players, movies)| && Ranked(players, movies)[q].movie.id == id
  {
    var ts := Tallies(Likes(players));
    LikedTallied(Likes(players), id);
    ResolveComplete(ts, movies, id);
    var res := Resolve(ts, movies);
    var k :| 0 <= k < |res| && res[k].movie.id == id;
    SortKeeps(res, k);
    assert Ranked(players, movies) == SortByScore(res);
  }

  /** A movie with a liked swipe has an entry in the score table. */
  lemma LikedTallied(ls: seq<Like>, id: int)
    requires Count(ls, id) > 0
    ensures id in TallyIds(Tallies(ls))
  {
    TalliesCorrect(ls);
    CountPositive(ls, id);
    DedupMembers(LikeIds(ls), id);
  }

  /** Sorting loses no pick. */
  lemma SortKeeps(s: seq<TopPick>, k: nat)
    requires k < |s|
    ensures exists q :: 0 <= q < |SortByScore(s)| && SortByScore(s)[q] == s[k]
  {
    var sorted := SortByScore(s);
    assert s[k] in multiset(sorted);
    var q :| 0 <= q < |sorted| && sorted[q] == s[k];
  }

  /** A liked movie of the room's list is missing from the picks only when ten
      picks with at least its score were kept. */
  lemma TopPicksComplete(players: seq<Player>, movies: seq<Movie>, id: int)
    requires Count(Likes(players), id) > 0 && FindMovie(movies, id).Some?
    requires forall i :: 0 <= i < |CalculateTopPicks(players, movies)| ==>
      CalculateTopPicks(players, movies)[i].movie.id != id
    ensures |CalculateTopPicks(players, movies)| == 10
    ensures forall i :: 0 <= i < 10 ==>
      CalculateTopPicks(players, movies)[i].score >= Count(Likes(players), id)
  {
    var sorted := Ranked(players, movies);
    var r := CalculateTopPicks(players, movies);
    RankedComplete(players, movies, id);
    var q :| 0 <= q < |sorted| && sorted[q].movie.id == id;
    assert forall i :: 0 <= i < |r| ==> r[i] == sorted[i];
    assert |r| <= q;
    RankedFacts(players, movies);
    assert sorted[q].score == Count(Likes(players), id);
    forall i | 0 <= i < 10 ensures r[i].score >= sorted[q].score {
      assert r[i] == sorted[i];
    }
  }

  /** Where a pick's movie stands in `order`; -1 when it is absent. */
  function OrderPos(order: seq<int>, p: TopPick): int
  {
    if p.movie.id in order then FirstIndex(order, p.movie.id) else -1
  }

  /** In the full ranking, ties follow the insertion order of the score table. */
  lemma RankedTies(players: seq<Player>, movies: seq<Movie>)
    ensures var d := Dedup(LikeIds(Likes(players))); var r := Ranked(players, movies);
      forall i, j :: 0 <= i < j < |r| && r[i].score == r[j].score ==> OrderPos(d, r[i]) < OrderPos(d, r[j])
  {
    var ls := Likes(players);
    var ts := Tallies(ls);
    TalliesCorrect(ls);
    var d := TallyIds(ts);
    var res := Resolve(ts, movies);
    var pos: TopPick -> int := (p: TopPick) => OrderPos(d, p);
    forall a, b | 0 <= a < b < |res| ensures pos(res[a]) < pos(res[b]) {
      ResolveOrder(ts, movies, a, b);
    }
    SortStable(res, pos);
  }

  /** Picks of equal score appear in the order in which their movies received
      their first like (player-then-swipe order): the insertion order of the
      score table, kept by the stable sort. */
  lemma TopPicksTieOrder(players: seq<Player>, movies: seq<Movie>)
    ensures var ids := LikeIds(Likes(players)); var r := CalculateTopPicks(players, movies);
      forall i :: 0 <= i < |r| ==> r[i].movie.id in ids
    ensures var ids := LikeIds(Likes(players)); var r := CalculateTopPicks(players, movies);
      forall i, j :: 0 <= i < j < |r| && r[i].score == r[j].score ==>
        FirstIndex(ids, r[i].movie.id) < FirstIndex(ids, r[j].movie.id)
  {
    var ids := LikeIds(Likes(players));
    var d := Dedup(ids);
    var sorted := Ranked(players, movies);
    var r := CalculateTopPicks(players, movies);
    assert forall i :: 0 <= i < |r| ==> r[i] == sorted[i];
    RankedFacts(players, movies);
    RankedTies(players, movies);
    forall i, j | 0 <= i < j < |r| && r[i].score == r[j].score
      ensures FirstIndex(ids, r[i].movie.id) < FirstIndex(ids, r[j].movie.id)
    {
      var x, y := r[i].movie.id, r[j].movie.id;
      DedupMembers(ids, x);
      DedupMembers(ids, y);
      assert OrderPos(d, sorted[i]) < OrderPos(d, sorted[j]);
      DedupFirstSeenOrder(ids, FirstIndex(d, x), FirstIndex(d, y));
    }
  }

  /** No movie is picked twice. */
  lemma TopPicksDistinct(players: seq<Player>, movies: seq<Movie>)
    ensures var r := CalculateTopPicks(players, movies);
      forall i, j :: 0 <= i < j < |r| ==> r[i].movie.id != r[j].movie.id
  {
    TopPicksScores(players, movies);
    TopPicksTieOrder(players, movies);
  }
}
