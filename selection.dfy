/** What `fetchMoviesForGame` and `generateRoomCode`
    (server/src/services/GameManager.ts) compute, as functions: the genre set
    of a room, the per-genre request size, the pool of fetched movies and what
    counts as a valid selection from it. The loops that compute them are
    methods of the game manager. */
module Selection {
  import opened Types
  import opened Seqs

  /** The alphabet room codes are drawn from. */
  const Letters: string := "ABCDEFGHIJKLMNOPQRSTUVWXYZ"

  /** The genres asked for when no player picked any. */
  const FallbackGenres: seq<string> := ["Action", "Comedy", "Drama"]

  /** A room code: four characters from `Letters`. */
  predicate IsRoomCode(code: string)
    ensures IsRoomCode(code) ==> forall i :: 0 <= i < |code| ==> 'A' <= code[i] <= 'Z'
  {
    |code| == 4 && forall i :: 0 <= i < |code| ==> code[i] in Letters
  }

  /** Every player's genre list, concatenated in player order: the sequence
      of `add` calls made on the genre set. */
  function GenreStream(players: seq<Player>): (r: seq<string>)
    ensures forall i, g :: 0 <= i < |players| && g in players[i].genres ==> g in r
  {
    if players == [] then []
    else
      var init := players[..|players| - 1];
      assert forall i :: 0 <= i < |init| ==> init[i] == players[i];
      GenreStream(init) + players[|players| - 1].genres
  }

  lemma {:induction false} GenreStreamMembers(players: seq<Player>, g: string)
    ensures g in GenreStream(players) <==> exists i :: 0 <= i < |players| && g in players[i].genres
  {
    if players != [] {
      var p := players[..|players| - 1];
      GenreStreamMembers(p, g);
      if g in players[|players| - 1].genres {
        assert g in GenreStream(players);
      }
      if exists i :: 0 <= i < |players| && g in players[i].genres {
        var i :| 0 <= i < |players| && g in players[i].genres;
        if i < |p| {
          assert g in p[i].genres;
        }
      }
    }
  }

  /** The genres a room's movies are fetched for: the union of the players'
      genres in first-seen order, or the fallback when nobody chose any. */
  function GameGenres(players: seq<Player>): (r: seq<string>)
    ensures r != []
    ensures Distinct(r)
  {
    var union := Dedup(GenreStream(players));
    if union == [] then FallbackGenres else union
  }

  /** A genre is asked for exactly when some player chose it, unless nobody
      chose any genre, in which case the fallback is used. */
  lemma GameGenresMembers(players: seq<Player>, g: string)
    ensures (exists i :: 0 <= i < |players| && players[i].genres != []) ==>
      (g in GameGenres(players) <==> exists i :: 0 <= i < |players| && g in players[i].genres)
    ensures (forall i :: 0 <= i < |players| ==> players[i].genres == []) ==>
      GameGenres(players) == FallbackGenres
  {
    GenreStreamMembers(players, g);
    DedupMembers(GenreStream(players), g);
    if exists i :: 0 <= i < |players| && players[i].genres != [] {
      var i :| 0 <= i < |players| && players[i].genres != [];
      var h := players[i].genres[0];
      GenreStreamMembers(players, h);
      DedupMembers(GenreStream(players), h);
    } else if GenreStream(players) != [] {
      var h := GenreStream(players)[0];
      GenreStreamMembers(players, h);
    }
  }

  /** The union lists genres in the order some player first chose them. */
  lemma GameGenresOrder(players: seq<Player>, i: nat, j: nat)
    requires GenreStream(players) != []
    requires i < j < |GameGenres(players)|
    ensures GameGenres(players)[i] in GenreStream(players)
    ensures GameGenres(players)[j] in GenreStream(players)
    ensures FirstIndex(GenreStream(players), GameGenres(players)[i])
          < FirstIndex(GenreStream(players), GameGenres(players)[j])
  {
    DedupMembers(GenreStream(players), GenreStream(players)[0]);
    DedupFirstSeenOrder(GenreStream(players), i, j);
  }

  /** `Math.ceil(total / n)`: how many movies are asked for per genre. */
  function MoviesPerGenre(total: nat, n: nat): (r: nat)
    requires n > 0
    ensures r * n >= total
    ensures r == 0 || (r - 1) * n < total
  {
    var r := (total + n - 1) / n;
    assert (total + n - 1) == r * n + (total + n - 1) % n;
    r
  }

  /** The fetched movies before shuffling: each genre's catalog answer, in
      genre order. */
  function Pool(genres: seq<string>, per: nat, catalog: (string, nat) -> seq<Movie>): (r: seq<Movie>)
    ensures forall i, m :: 0 <= i < |genres| && m in catalog(genres[i], per) ==> m in r
  {
    if genres == [] then []
    else
      var init := genres[..|genres| - 1];
      assert forall i :: 0 <= i < |init| ==> init[i] == genres[i];
      Pool(init, per, catalog) + catalog(genres[|genres| - 1], per)
  }

  /** The pool holds exactly the movies some genre's answer holds. */
  lemma {:induction false} PoolMembers(genres: seq<string>, per: nat, catalog: (string, nat) -> seq<Movie>, m: Movie)
    ensures m in Pool(genres, per, catalog) <==>
      exists i :: 0 <= i < |genres| && m in catalog(genres[i], per)
  {
    if genres != [] {
      var p := genres[..|genres| - 1];
      PoolMembers(p, per, catalog, m);
      if exists i :: 0 <= i < |genres| && m in catalog(genres[i], per) {
        var i :| 0 <= i < |genres| && m in catalog(genres[i], per);
        if i < |p| {
          assert genres[i] == p[i];
        }
      }
      if m in catalog(genres[|genres| - 1], per) {
        assert m in Pool(genres, per, catalog);
      }
    }
  }

  /** The pool of a room: every genre of `GameGenres` asked for
      `MoviesPerGenre` movies. */
  function GamePool(players: seq<Player>, moviesPerGame: nat, catalog: (string, nat) -> seq<Movie>): (r: seq<Movie>)
    ensures (forall i :: 0 <= i < |players| ==> players[i].genres == []) ==>
      r == Pool(FallbackGenres, MoviesPerGenre(moviesPerGame, 3), catalog)
  {
    var genres := GameGenres(players);
    GameGenresMembers(players, "Action");
    Pool(genres, MoviesPerGenre(moviesPerGame, |genres|), catalog)
  }

  /** A valid movie list for a room: a prefix of some reordering of the pool
      (the first `limit` movies, or all of them when there are fewer). */
  predicate IsSelection(ms: seq<Movie>, pool: seq<Movie>, limit: nat)
    ensures IsSelection(ms, pool, limit) ==> |ms| <= limit && |ms| <= |pool|
  {
    && |ms| == (if |pool| <= limit then |pool| else limit)
    && multiset(ms) <= multiset(pool)
  }

  /** A selection never exceeds the limit, and every movie in it was fetched
      for a genre of the room. */
  lemma SelectionFromGenres(ms: seq<Movie>, players: seq<Player>, moviesPerGame: nat,
                            catalog: (string, nat) -> seq<Movie>, k: nat)
    requires IsSelection(ms, GamePool(players, moviesPerGame, catalog), moviesPerGame)
    requires k < |ms|
    ensures |ms| <= moviesPerGame
    ensures exists i ::
      0 <= i < |GameGenres(players)| &&
      ms[k] in catalog(GameGenres(players)[i], MoviesPerGenre(moviesPerGame, |GameGenres(players)|))
  {
    var genres := GameGenres(players);
    var per := MoviesPerGenre(moviesPerGame, |genres|);
    assert ms[k] in multiset(ms);
    assert ms[k] in multiset(Pool(genres, per, catalog));
    PoolMembers(genres, per, catalog, ms[k]);
  }
}
