/**
 * What the command handlers take from outside the program: the working
 * directory, the clock, directory listings, and the libraries for dates,
 * UUIDs and JSON. Each is a value here, so every handler is a function of
 * its inputs and the files on disk.
 */
module Host {
  import opened Wrappers
  import opened Utils
  import opened Game
  import opened Player
  import opened FileStorage

  /** The outcome of `fs::read_dir` followed by collecting each entry's path. */
  datatype Listing =
    | CannotOpen        // `read_dir` itself failed
    | EntryFailed       // reading one of the entries failed
    | Entries(paths: seq<Path>)

  datatype Env = Env(
    cwd: Option<Path>,                      // `env::current_dir`, None when it fails
    parseDate: string -> Option<Date>,      // `NaiveDate::parse_from_str(_, "%Y-%m-%d")`
    today: Date,                            // `Utc::now().date_naive()`
    parseUuid: string -> Option<Uuid>,      // `Uuid::from_str`
    gameId: Game -> Uuid,                   // `Game::get_id`
    listDir: Path -> Listing,               // `fs::read_dir`
    players: Codec<PlayerMap>,              // JSON for `Players`
    games: Codec<seq<Game>>                 // JSON for `Games`
  )
}
