/** The records exchanged between server and clients (shared/src/index.ts):
    players, swipes, games, movies, top picks and the game configuration. */
module Types {
  import opened Wrappers

  /** Player and game identifiers. The server draws them from `uuidv4`; the
      model only needs them opaque and fresh, so they are naturals handed out
      by a counter in the game manager. */
  type Id = nat

  /** One like/pass decision; `timestamp` is the server clock reading. */
  datatype MovieSwipe = MovieSwipe(movieId: int, liked: bool, timestamp: int)

  /** A participant. `swipes` only ever grows; `hasFinished` is only ever set
      to true. */
  datatype Player = Player(
    id: Id,
    name: string,
    genres: seq<string>,
    swipes: seq<MovieSwipe>,
    hasFinished: bool)

  /** The three lifecycle states of a room. */
  datatype GameStatus = Waiting | Playing | Finished

  datatype StreamingType = Rent | Buy | Stream

  datatype StreamingInfo = StreamingInfo(
    platform: string,
    url: string,
    kind: StreamingType,
    price: Option<string>)

  /** A catalog entry. `voteAverage` is a JavaScript number; it is carried
      along and never computed on. */
  datatype Movie = Movie(
    id: int,
    title: string,
    overview: string,
    posterPath: string,
    backdropPath: string,
    releaseDate: string,
    voteAverage: real,
    genres: seq<string>,
    trailerUrl: Option<string>,
    streamingInfo: Option<seq<StreamingInfo>>)

  /** One entry of the final ranking: the movie, how many liked swipes it got
      and the names of the players behind them. */
  datatype TopPick = TopPick(movie: Movie, score: nat, players: seq<string>)

  /** One room. The optional fields of the record are `Option`s. */
  datatype Game = Game(
    id: Id,
    roomCode: string,
    players: seq<Player>,
    movies: seq<Movie>,
    status: GameStatus,
    createdAt: int,
    startedAt: Option<int>,
    endedAt: Option<int>,
    topPicks: Option<seq<TopPick>>)

  /** Room capacity, the number of movies to swipe on and the genre menu. */
  datatype GameConfig = GameConfig(maxPlayers: nat, moviesPerGame: nat, genres: seq<string>)

  const DefaultGenres: seq<string> := [
    "Action", "Adventure", "Animation", "Comedy", "Crime",
    "Documentary", "Drama", "Family", "Fantasy", "History",
    "Horror", "Music", "Mystery", "Romance", "Science Fiction",
    "TV Movie", "Thriller", "War", "Western"]

  const DefaultGameConfig: GameConfig := GameConfig(8, 20, DefaultGenres)

  /** Position of a status in the lifecycle `waiting`, `playing`, `finished`. */
  function Rank(s: GameStatus): (r: nat)
    ensures r <= 2
    ensures r == 0 <==> s == Waiting
    ensures r == 2 <==> s == Finished
  {
    match s
    case Waiting => 0
    case Playing => 1
    case Finished => 2
  }
}
