# score-cli in Dafny

A model of the core of `score-cli`, a command-line score keeper. It records
players in `players.json` and plays of games in one JSON file per game name,
and offers five commands: add-player, delete-player, add-score, delete-score
and list-games.

The model covers:

- **The domain.** `Player` (a name) and the players collection (a map from
  name to player). `Game` (a name, a player-to-score map and a date) and the
  `Games` vector. The parser that turns `player::score` tokens into a score
  map, and `Game::build`.
- **The record store.** `FileWrapper` is one open file: a character buffer
  with a read/write position. `save` truncates, rewinds and writes. `load`
  rewinds, reads everything, refuses blank content and decodes. `is_empty`
  checks for zero length.
- **The five command handlers.** Each has a pure validator
  (`create`/`parse`) and a read-modify-write `run`. The file system is a map
  from path to content, so each `run` returns the new map. Each `run` is a
  method, proved equal to a specification function (`Effect`, `DeleteFrom`,
  `Listed`). Lemmas about those functions state what the commands promise:
  nothing is written on failure; a saved collection loads back; adding a
  player twice fails; adding then deleting a player leaves the file loading as the collection
  it held before;
  delete-score rewrites only the first file that holds the id.
- **Command dispatch** (`Command::parse` / `run`) and path construction
  (`create_path`).

Modules follow the source files:

| module | source file |
|---|---|
| `Wrappers` | `Option` and `Result<_, String>` |
| `Strings` | the parts of Rust's `str` the parser uses |
| `Utils` | `src/commands/utils/utils.rs` |
| `Arguments` | the unknown-optional-key loop shared by the handlers |
| `FileStorage` | `src/commands/utils/file_wrapper.rs` |
| `Player` | `src/commands/models/player.rs` |
| `Game` | `src/commands/models/game.rs` |
| `Host` | the outside world, given as values |
| `AddPlayerCommand` | `src/commands/add_player.rs` |
| `DeletePlayerCommand` | `src/commands/delete_player.rs` |
| `AddScoreCommand` | `src/commands/add_score.rs` |
| `DeleteScoreCommand` | `src/commands/delete_score.rs` |
| `ListGamesCommand` | `src/commands/list_games.rs` |
| `Commands` | `src/commands.rs` |

External collaborators are fields of `Host.Env`:

- the working directory (`env::current_dir`);
- the date parser (`NaiveDate::parse_from_str`) and today's date (`Utc::now`);
- `Uuid::from_str` and `Game::get_id`;
- the directory listing (`fs::read_dir`);
- the JSON codecs (`serde_json`).

A codec is an encode/decode pair. What the program relies on from it is the
predicate `FileStorage.Faithful`: decoding an encoding gives the value back,
and an encoding is never blank. Lemmas that depend on this take it as a
precondition.

Three behaviours of this revision are easy to miss:

- delete-player on a missing players file opens it with `create` set. This
  creates an empty file and then fails with "No players' data found.". So the
  file does come into existence.
- add-score writes `<name>.json` directly under the base directory, not
  under `games/`. It does not check that the scored players exist. The games
  collection is a vector with append, not a map keyed by id.
- delete-score decodes the id inside the loop, after a file has loaded. With
  no game files at all, a malformed id is reported as "Game with id X not
  found.".

## Model

| member | source | states |
|---|---|---|
| `Utils.CreatePath` | src/commands/utils/utils.rs:4-16 | with a directory, the path is that directory plus the file name as one more component; without one, the working directory plus the file name, or "An error occurred while accessing the working folder." when the working directory is unavailable |
| `Utils.CreatePathIgnoresCwd` | src/commands/utils/utils.rs:5-6 | with an explicit directory the working directory is never consulted |
| `Utils.Push` | src/commands/utils/utils.rs:15 | pushing a component keeps the text so far as a prefix and ends with the component; a '/' is put between them exactly when the text is non-empty and does not already end in '/' |
| `Utils.DisplayExtends` | src/commands/utils/utils.rs:15 | pushing never rewrites what is there: a path's text starts with its parent's text |
| `Utils.Display` | src/commands/utils/file_wrapper.rs:54-59 | `path.display()`, as used in the load errors: the empty path shows as empty text, and any other path's text ends with its last component |
| `Utils.DisplayTrailingSeparator` | src/commands/utils/utils.rs:5-15 | a directory given with a trailing '/' shows the same file path as without it: "/tmp/x/" and "/tmp/x" both give "/tmp/x/players.json" |
| `Utils.DisplayEmptyBase` | src/commands/utils/utils.rs:5-15 | an empty directory shows as nothing: the path is the file name alone |
| `Utils.Lookup` | src/commands/add_player.rs:41 | a lookup finds a value exactly when the key is in the map, and returns that key's value |
| `Player.FromName` | src/commands/models/player.rs:9-15 | any name is accepted, and `get_name` gives it back |
| `Player.WithPlayer` | src/commands/add_player.rs:55 | adding fails with "Player X already exists." exactly when the name is present; otherwise the keys gain the name, which maps to the player, and the other entries are kept |
| `Player.WithoutPlayer` | src/commands/delete_player.rs:37 | removing fails with "Player X not found." exactly when the name is absent; otherwise exactly that key goes and the other entries are kept |
| `Player.AddThenRemove` | src/commands/delete_player.rs:37 | adding a new player and then removing it gives back the collection |
| `Player.RemoveThenAdd` | src/commands/add_player.rs:55 | removing a stored player and adding it back gives back the collection |
| `Player.PlayersPath` | src/commands/add_player.rs:41-45 | the players file is `players.json` under `--save-dir`, else under the working directory |
| `Player.Players.FromPlayers` | src/commands/add_player.rs:47-52 | the collection holds exactly the given map; the empty-file branch builds it from the single new player |
| `Player.Players.AddPlayer` | tests/add_player.rs:42-59 | a duplicate name fails with "Player X already exists." and leaves the collection unchanged; otherwise the collection gains the player |
| `Player.Players.RemovePlayer` | tests/delete_player.rs:29-50 | an absent name fails with "Player X not found." and leaves the collection unchanged; otherwise the player is removed |
| `Strings.Split` | src/commands/models/game.rs:40 | splitting always yields at least one part, and the first part is a prefix of the input |
| `Strings.SplitJoin` | src/commands/models/game.rs:40 | joining the parts with the separator gives back the input |
| `Strings.SplitPartsFree` | src/commands/models/game.rs:40 | no part contains the separator |
| `Strings.SplitSingleIff` | src/commands/models/game.rs:40-41 | there is exactly one part if and only if the input does not contain the separator |
| `Strings.SplitAfterPrefix` | src/commands/models/game.rs:40 | the first cut falls right after a prefix that contains no ':' |
| `Strings.SplitAfterPart` | src/commands/models/game.rs:40 | the first cut falls right after any prefix in which no occurrence of the separator starts |
| `Strings.ParseUsize` | src/commands/models/game.rs:45 | a parsed score is at most the largest 64-bit `usize` |
| `Strings.DecimalValue` | src/commands/models/game.rs:45 | the decimal rendering of a number denotes that number |
| `Strings.ParseDecimal` | src/commands/models/game.rs:45 | parsing the rendering of any `usize` gives it back |
| `Game.ScoreToken` | src/commands/models/game.rs:40-46 | an accepted token yields a score within the `usize` range |
| `Game.TokenWithoutSeparator` | src/commands/models/game.rs:40-43 | a token without "::" is refused |
| `Game.TokenAccepted` | src/commands/models/game.rs:40-46 | an accepted token is exactly player + "::" + a string that parses to the score, and the player contains no "::" |
| `Game.TokenRoundTrip` | src/commands/models/game.rs:40-46 | `player::score` is accepted as that player and score for every `usize` score and every player that contains no "::" and does not end in ':' (so "a:b" is a valid player) |
| `Game.PlayerThenColon` | src/commands/models/game.rs:40 | a player without "::" that does not end in ':' gains no "::" when a ':' follows it, so the first cut of `split("::")` falls right after the player |
| `Game.TokenExampleValid` | src/commands/models/game.rs:92-98 | "alice::10" is alice with 10 |
| `Game.TokenExampleSingleColon` | src/commands/models/game.rs:102-106 | "alice:10" is refused |
| `Game.TokenExampleNotANumber` | src/commands/models/game.rs:110-114 | "alice::ten" is refused |
| `Game.TokenExampleTwoSeparators` | src/commands/models/game.rs:126-130 | "alice::10::bonus" is refused |
| `Game.ScoresOf` | src/commands/models/game.rs:36-52 | parsing fails, with "Error parsing scores. The input format is player::score.", exactly when some token is refused |
| `Game.FoldScoresKeys` | src/commands/models/game.rs:46 | the map's keys are exactly the players of the entries |
| `Game.FoldScoresLastWins` | src/commands/models/game.rs:46 | a player's score is the one of that player's last entry |
| `Game.ScoresOfEntries` | src/commands/models/game.rs:39-47 | after a successful parse every token is accepted and its player is a key; a player's last token gives its score (a later token overwrites an earlier one) |
| `Game.ScoresOfKeysNamed` | src/commands/models/game.rs:39-47 | every key of a successful parse is the player of some token |
| `Game.ParseScores` | src/commands/models/game.rs:36-52 | the loop, with its early returns, computes exactly `ScoresOf` |
| `Game.ScoresOfPair` | src/commands/models/game.rs:39-47 | two accepted tokens give the second entry written over the first |
| `Game.ScoresOfExamples` | src/commands/models/game.rs:92-123 | no tokens parse to the empty map; "alice::10", "bob::20" parse to alice 10, bob 20 |
| `Game.Build` | src/commands/models/game.rs:18-34 | score errors come first; an empty map gives "No scores provided."; then an unparseable date gives "Error parsing date. The input format is YYYY-MM-DD."; building succeeds exactly when none of these occur, storing the name verbatim, the parsed scores and the given date or today |
| `Game.BuildNamed` | src/commands/models/game.rs:54-56 | `get_name` of a built game is the name it was built with |
| `Game.BuildExamples` | src/commands/models/game.rs:74-89 | the unit tests: an unparseable date is refused; a good date is stored with the name and both scores |
| `Game.TestScores` | src/commands/models/game.rs:82-87 | the test tokens parse to player1 10, player2 20 |
| `Game.TestTokens` | src/commands/models/game.rs:82 | "player1::10" and "player2::20" are accepted |
| `Game.Games.FromGames` | src/commands/models/game.rs:60-62 | the collection holds exactly the given games |
| `Game.Games.AddGame` | src/commands/models/game.rs:64-66 | the game is appended last: the length grows by one and the earlier games are unchanged |
| `Game.Games.CreateEmpty` | src/commands/list_games.rs:38 | a new accumulator holds no games |
| `Game.Games.Extend` | src/commands/list_games.rs:42 | the other collection's games are appended after these |
| `Game.IndexOfId` | src/commands/delete_score.rs:62 | the first game whose id is the given one, or none exactly when no game has it |
| `Game.Deleted` | src/commands/delete_score.rs:62 | deletion fails exactly when no game has the id; otherwise the removed game has the id and, with the remaining games, makes up the original collection |
| `Game.Games.Delete` | src/commands/delete_score.rs:62 | an unknown id fails and changes nothing; otherwise the first game with the id is removed and returned |
| `Game.InsertByDate` | src/commands/list_games.rs:45 | inserting into a date-sorted list keeps it sorted and adds exactly the game |
| `Game.SortByDate` | src/commands/list_games.rs:45 | the result is sorted by date and is a permutation of the input |
| `Game.Games.OrderByDate` | src/commands/list_games.rs:45 | the games in chronological order, none added or lost |
| `FileStorage.DefaultOptions` | src/commands/utils/file_wrapper.rs:21-27 | read, write and create are all set |
| `FileStorage.Content` | src/commands/utils/file_wrapper.rs:98-102 | an opened file reads as its content, or empty when it did not exist |
| `FileStorage.Touch` | src/commands/utils/file_wrapper.rs:127-131 | opening with `create` adds the path, empty if it was missing, and changes no existing content |
| `FileStorage.Loaded` | src/commands/utils/file_wrapper.rs:50-63 | blank content gives "File P is empty."; undecodable content gives "Error deserializing file: P"; otherwise the decoded value, and no partial value on failure |
| `FileStorage.Stored` | src/commands/add_player.rs:47-56 | a handler starts from the blank collection when the file has zero length, otherwise from what `load` gives |
| `FileStorage.LoadAfterSave` | src/commands/utils/file_wrapper.rs:169-181 | with a faithful codec, loading the saved document gives back the value saved |
| `FileStorage.StoredAfterSave` | src/commands/utils/file_wrapper.rs:184-200 | after a save the file is no longer empty and reads back as the value saved |
| `FileStorage.BlankNotEmptyButRefused` | src/commands/utils/file_wrapper.rs:31-34 | for every file of non-zero length holding only whitespace, `is_empty` is false, so a handler does not start from the blank collection, and `load` refuses the file with "File P is empty." |
| `FileStorage.Overwrite` | src/commands/utils/file_wrapper.rs:44-46 | a write puts the data at the position, keeps what lies before and after it, and pads a gap with NULs |
| `FileStorage.TruncateMatters` | src/commands/utils/file_wrapper.rs:38-40 | without truncation, a shorter document written over a longer one leaves its tail |
| `FileStorage.RewindMatters` | src/commands/utils/file_wrapper.rs:41-43 | without rewinding, the written document would be preceded by NULs |
| `FileStorage.FileWrapper.Open` | src/commands/utils/file_wrapper.rs:82-115 | the file is opened at position 0 with its current content, empty if it did not exist |
| `FileStorage.FileWrapper.Truncate` | src/commands/utils/file_wrapper.rs:38-40 | the content is dropped and the position kept |
| `FileStorage.FileWrapper.Rewind` | src/commands/utils/file_wrapper.rs:41-43 | the position returns to 0 and the content is kept |
| `FileStorage.FileWrapper.WriteAll` | src/commands/utils/file_wrapper.rs:44-46 | the data is written at the position, which moves past it |
| `FileStorage.FileWrapper.ReadToString` | src/commands/utils/file_wrapper.rs:71 | the rest of the content from the position is returned, and the content is kept |
| `FileStorage.FileWrapper.GetData` | src/commands/utils/file_wrapper.rs:65-78 | the whole content is returned wherever the position was, and the content is not changed |
| `FileStorage.FileWrapper.IsEmpty` | src/commands/utils/file_wrapper.rs:31-34 | true exactly when the content has zero length; the content is not changed |
| `FileStorage.FileWrapper.Save` | src/commands/utils/file_wrapper.rs:36-48 | the content is exactly the encoded document, whatever it held before and wherever the position was |
| `FileStorage.FileWrapper.Load` | src/commands/utils/file_wrapper.rs:50-63 | the result is what `Loaded` gives for the whole content, and the content is not changed |
| `Arguments.CheckOptionalArguments` | src/commands/add_player.rs:22-26 | passes exactly when every optional key is admitted; otherwise reports "Unknown optional command for C K." for an unknown key K |
| `AddPlayerCommand.Create` | src/commands/add_player.rs:18-38 | an unknown optional key is reported before the argument count; exactly one positional argument is required, else "Invalid number of arguments for add-player."; success stores the player and the optional arguments verbatim |
| `AddPlayerCommand.Effect` | src/commands/add_player.rs:40-61 | on failure no file changes; success happens exactly when the stored collection (empty for an empty file) loads and lacks the name, and then the file holds that collection with the player added; with a loadable file, the only failure is "Player X already exists." |
| `AddPlayerCommand.Run` | src/commands/add_player.rs:40-61 | the read-modify-write computes exactly `Effect` |
| `AddPlayerCommand.AddedPlayerIsStored` | src/commands/add_player.rs:47-56 | after a successful add the file loads as the earlier collection with the player added |
| `AddPlayerCommand.AddTwiceFails` | tests/add_player.rs:42-59 | adding the same player again fails with "Player X already exists." and leaves the files as they were |
| `DeletePlayerCommand.Parse` | src/commands/delete_player.rs:14-25 | exactly one positional argument is required, else "Invalid number of arguments for delete-player."; success stores the name and the optional arguments verbatim |
| `DeletePlayerCommand.ParseAcceptsAnyOptions` | src/commands/delete_player.rs:14-25 | no optional key is refused: only the positional arguments decide the outcome |
| `DeletePlayerCommand.Effect` | src/commands/delete_player.rs:27-42 | an empty or missing file gives "No players' data found." and only creates the empty file; on any failure no existing content changes; success happens exactly when the file loads and holds the name, and then the file holds the collection without it; with a loadable file, the only failure is "Player X not found." |
| `DeletePlayerCommand.Run` | src/commands/delete_player.rs:27-42 | the read-modify-write computes exactly `Effect` |
| `DeletePlayerCommand.AddThenDelete` | tests/delete_player.rs:5-26 | adding a new player then deleting it succeeds and leaves the file holding the collection it held before |
| `AddScoreCommand.Parse` | src/commands/add_score.rs:12-20 | the game name, score tokens and `--time` value go to `Game::build`, whose errors propagate unchanged; success stores the game and the optional arguments |
| `AddScoreCommand.ParseWithoutScores` | src/commands/models/game.rs:22-24 | a game name with no tokens fails with "No scores provided." |
| `AddScoreCommand.GamePath` | src/commands/add_score.rs:24-28 | the target is `<game name>.json` under `--save-dir`, else under the working directory |
| `AddScoreCommand.Effect` | src/commands/add_score.rs:22-41 | on failure no file changes; success happens exactly when the stored games (none for an empty file) load, and then only the game's file changes, holding those games with the new one appended |
| `AddScoreCommand.Run` | src/commands/add_score.rs:22-41 | the read-modify-write computes exactly `Effect` |
| `AddScoreCommand.GameAppendedLast` | src/commands/add_score.rs:30-36 | after success the game's file loads as the earlier games with the new game last |
| `AddScoreCommand.TwoGamesInOrder` | src/commands/add_score.rs:30-36 | recording two games into the same file keeps both, in the order recorded |
| `DeleteScoreCommand.Create` | src/commands/delete_score.rs:22-43 | an unknown optional key is reported before the argument count; exactly one positional argument is required, else "Invalid number of arguments for delete-score."; success stores the id verbatim |
| `DeleteScoreCommand.DeleteFrom` | src/commands/delete_score.rs:57-69 | no file disappears and only listed files may appear; on failure no existing content changes; with no files the result is "Game with id X not found."; a malformed id is reported only once the first file has loaded; on success there is a first file holding the id, all earlier files loaded without it, it alone was rewritten, and it holds its games without the deleted one |
| `DeleteScoreCommand.MatchAtShift` | src/commands/delete_score.rs:57-67 | a match after a skipped first file is a match of the whole listing, one position later |
| `DeleteScoreCommand.GamesDir` | src/commands/delete_score.rs:49 | the games directory is `games` under `--save-dir`, else under the working directory |
| `DeleteScoreCommand.Effect` | src/commands/delete_score.rs:45-70 | on failure no existing content changes; once the directory is listed, the result is the search of the listed files |
| `DeleteScoreCommand.Run` | src/commands/delete_score.rs:45-70 | the command computes exactly `Effect` |
| `DeleteScoreCommand.Search` | src/commands/delete_score.rs:57-69 | the loop over the listed files computes exactly `DeleteFrom` |
| `DeleteScoreCommand.FirstMatchDeleted` | src/commands/delete_score.rs:57-66 | when a file holds the id and every earlier file loads without it, the deletion succeeds and that file alone is rewritten |
| `DeleteScoreCommand.NoMatchNotFound` | src/commands/delete_score.rs:69 | when every file loads and none holds the id, the result is "Game with id X not found." |
| `ListGamesCommand.Create` | src/commands/list_games.rs:15-26 | an unknown optional key is refused with "Unknown optional command for list-games K."; otherwise the optional arguments are stored and the positional arguments ignored |
| `ListGamesCommand.LoadAllOk` | src/commands/list_games.rs:39-43 | accumulation succeeds exactly when every listed file loads |
| `ListGamesCommand.LoadAllFirstError` | src/commands/list_games.rs:40-41 | a failed accumulation reports the error of the first file that does not load |
| `ListGamesCommand.LoadAllHoldsEvery` | src/commands/list_games.rs:39-43 | every game of every listed file is accumulated |
| `ListGamesCommand.LoadAllOnlyListed` | src/commands/list_games.rs:39-43 | nothing but games of the listed files is accumulated |
| `ListGamesCommand.Prepend` | src/commands/list_games.rs:42 | earlier games go in front of a successful accumulation; an error stays the error |
| `ListGamesCommand.PrependTwice` | src/commands/list_games.rs:42 | extending twice is extending with the concatenation |
| `ListGamesCommand.Listed` | src/commands/list_games.rs:28-51 | the listing is sorted by date; once the directory is listed, it succeeds exactly when accumulation does, with its error, and is a permutation of the accumulated games |
| `ListGamesCommand.Run` | src/commands/list_games.rs:28-51 | the loop computes exactly `Listed`; no existing file content changes, and any file it creates is empty |
| `Commands.Parse` | src/commands.rs:26-31 | "add-player" first gives AddPlayer with the remaining arguments in order; anything else, including no argument, gives Invalid("Unknown or missing command.") |
| `Commands.ParseExamples` | src/commands.rs:38-58 | the unit tests' two command lines, and the empty one |
| `Commands.Run` | src/commands.rs:14-24 | Invalid returns its error unchanged and writes nothing; AddPlayer validates with no optional arguments, then behaves as add-player's `Effect` |

## Left out

- I/O failures are not modelled. The messages "Truncation error", "Rewind error", "Error writing file", "rewind error", "An error occurred reading file" and "An error occured while trying to open", and the failure of `create_dir_all`, never occur in the model. Reads and writes always succeed.
- JSON is an abstract codec per collection type. `Faithful` states the round trip that the file-wrapper unit test asserts. The layout of the pretty-printed JSON is not modelled.
- Date parsing, the clock, `Uuid::from_str`, `Game::get_id`, `env::current_dir` and `fs::read_dir` are parameters (`Host.Env`). The directory listing is an input sequence of paths, or one of its two failures.
- A path is a sequence of components. `PathBuf::push` replacing the base when the pushed component is absolute is not modelled, and neither are parent directories.
- Files are keyed by component sequence, not by the text the path displays. So `["/tmp/x", "f"]` and `["/tmp/x/", "f"]` are two keys of `Files`, although they name one file on disk. `--save-dir` values that differ only by a trailing '/' therefore reach different files in the model. `.` and `..` components are not resolved either.
- Callers pass `create_path` and `from_string` a one-element slice or a single name, and the model treats both as one name: the revisions of the repository disagree on these signatures.
- `Players::add_player`, `Players::remove_player`, `Players::from_players`, `Player::new`, `Games::create_empy`, `Games::extend`, `Games::delete`, `Games::order_by_date` and `Game::get_id` are not defined in this revision of the repository. Their behaviour is assumed, not observed. The command-line tests check only that a name occurs somewhere in the file's text (tests/add_player.rs:18, 38 and 59), so they cannot tell an insertion from other changes. The model assumes:
  - `add_player` inserts the player under its name, keeps every other entry, and fails with "Player X already exists." on a duplicate;
  - `remove_player` removes that name only, and fails with "Player X not found." when it is absent;
  - `from_players` holds exactly the given map; `create_empy` is empty; `extend` appends in order;
  - `delete` removes the first game with the id; `order_by_date` sorts by date;
  - `Player::new` is `Player::from_name`.

  These members rest on the assumption: `Player.Players.AddPlayer`, `Player.Players.RemovePlayer`, `Player.Players.FromPlayers`, `AddPlayerCommand.Effect`, `AddPlayerCommand.Run`, `AddPlayerCommand.AddedPlayerIsStored`, `AddPlayerCommand.AddTwiceFails`, `DeletePlayerCommand.Effect`, `DeletePlayerCommand.Run`, `DeletePlayerCommand.AddThenDelete`, `Game.Games.Extend`, `Game.Games.Delete`, `Game.Games.OrderByDate`, `DeleteScoreCommand.DeleteFrom`, `DeleteScoreCommand.Search`, `DeleteScoreCommand.FirstMatchDeleted`, `ListGamesCommand.Listed` and `ListGamesCommand.Run`.
- Game.Games.OrderByDate: the model sorts by date (insertion sort) and proves sortedness and permutation, not stability.
- Game.Games.Delete: removes the first game with the id; whether the source removes only the first is not visible in this revision.
- `Commands.Run`: `AddPlayer::parse` is not defined in `add_player.rs`, so dispatch is modelled as `AddPlayer::create` with no optional arguments.
- AddScoreCommand.Parse: requires at least one argument, because `AddScore::parse` indexes `args[0]` without checking and panics on an empty list.
- Strings.ParseUsize: assumes a 64-bit target for the `usize` bound.
- `main.rs` (exit codes, `eprintln!`), the `println!` confirmations, `dbg!` and the `tabled` table are output only. The list-games model returns the ordered games instead of printing them.
- `storage.rs` is a trait with signatures only. The model gives its operations as methods of `FileWrapper`.
- Concurrent invocations, and a crash between truncate and write, are not modelled.
