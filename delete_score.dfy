/** The delete-score command: remove the game with a given id from the first game file that holds it. */
module DeleteScoreCommand {
  import opened Wrappers
  import opened Utils
  import opened Arguments
  import opened Game
  import opened FileStorage
  import opened Host

  const ADMITTED_OPTIONAL_ARGUMENTS: set<string> := {SAVE_DIR_OPTIONAL_ARGUMENT}
  const INVALID_ARGUMENTS_ERROR := "Invalid number of arguments for delete-score."

  /** The directory, under the save directory, that holds one file per game name. */
  const GAMES_FOLDER := "games"

  /** `fs::read_dir` failed. */
  const DATA_ACCESS_ERROR := "An error occurred while accessing the data."
  /** Reading a directory entry failed (the message's spelling is the program's). */
  const ENTRY_ACCESS_ERROR := "An error occurred whil accessing the data."

  function DecodeIdMessage(id: string): string {
    "Impossible to decode id " + id + "."
  }

  function GameNotFoundMessage(id: string): string {
    "Game with id " + id + " not found."
  }

  /** A validated delete-score command: the id, still as text. */
  datatype DeleteScore = DeleteScore(gameId: string, optionalArgs: map<string, string>)

  /**
   * `DeleteScore::create`: an unknown optional key is reported first, then
   * exactly one positional argument, the id, is required.
   */
  method Create(args: seq<string>, optionalArgs: map<string, string>) returns (r: Result<DeleteScore>)
    ensures !(optionalArgs.Keys <= ADMITTED_OPTIONAL_ARGUMENTS) ==>
      r.Err? && exists key :: key in optionalArgs && key !in ADMITTED_OPTIONAL_ARGUMENTS
                              && r.error == UnknownOptionalMessage("delete-score", key)
    ensures optionalArgs.Keys <= ADMITTED_OPTIONAL_ARGUMENTS && |args| != 1 ==>
      r == Err(INVALID_ARGUMENTS_ERROR)
    ensures optionalArgs.Keys <= ADMITTED_OPTIONAL_ARGUMENTS && |args| == 1 ==>
      r == Ok(DeleteScore(args[0], optionalArgs))
  {
    var checked := CheckOptionalArguments(optionalArgs, ADMITTED_OPTIONAL_ARGUMENTS, "delete-score");
    if checked.Fail? {
      return Err(checked.error);
    }
    if |args| != 1 {
      return Err(INVALID_ARGUMENTS_ERROR);
    }
    return Ok(DeleteScore(args[0], optionalArgs));
  }

  /** The games a file holds, as `load` gives them. */
  function LoadedAt(files: Files, f: Path, env: Env): Result<seq<Game>> {
    Loaded(Content(files, f), f, env.games)
  }

  /** The file loads and holds no game with id `u`: the search goes on past it. */
  predicate Skips(files: Files, f: Path, u: Uuid, env: Env) {
    LoadedAt(files, f, env).Ok? && Deleted(LoadedAt(files, f, env).value, u, env.gameId).None?
  }

  /** The file loads and holds a game with id `u`. */
  predicate Holds(files: Files, f: Path, u: Uuid, env: Env) {
    LoadedAt(files, f, env).Ok? && Deleted(LoadedAt(files, f, env).value, u, env.gameId).Some?
  }

  /**
   * The loop of `DeleteScore::run` over the listed files, in listing order:
   * each file is opened (created if missing) and loaded, a load error
   * aborts; the id is decoded (only now, inside the loop); the first file
   * whose games hold the id is saved without that game and the search stops.
   */
  function DeleteFrom(paths: seq<Path>, id: string, env: Env, files: Files): (r: (Outcome, Files))
    ensures forall p :: p in files ==> p in r.1
    ensures forall p :: p in r.1 && p !in files ==> p in paths
    ensures r.0.Fail? ==> forall p :: p in files ==> r.1[p] == files[p]
    ensures paths == [] ==> r == (Fail(GameNotFoundMessage(id)), files)
    ensures paths != [] && env.parseUuid(id).None? ==>
      r.0 == if LoadedAt(files, paths[0], env).Err? then Fail(LoadedAt(files, paths[0], env).error)
             else Fail(DecodeIdMessage(id))
    ensures r.0.Pass? ==>
      && env.parseUuid(id).Some?
      && exists k :: 0 <= k < |paths| && MatchAt(paths, k, env.parseUuid(id).value, env, files, r.1)
    decreases |paths|
  {
    if paths == [] then (Fail(GameNotFoundMessage(id)), files)
    else
      var f := paths[0];
      var touched := Touch(files, f);
      match LoadedAt(files, f, env)
      case Err(e) => (Fail(e), touched)
      case Ok(games) =>
        match env.parseUuid(id)
        case None => (Fail(DecodeIdMessage(id)), touched)
        case Some(u) =>
          match Deleted(games, u, env.gameId)
          case Some(d) =>
            var r := (Pass, touched[f := env.games.encode(d.1)]);
            assert MatchAt(paths, 0, u, env, files, r.1);
            r
          case None =>
            var r := DeleteFrom(paths[1..], id, env, touched);
            if r.0.Pass? then
              MatchShift(paths, u, env, files, r.1);
              r
            else r
  }

  /**
   * The file at index `k` is the first one that holds the id: every earlier
   * file loaded and did not hold it. In `after`, that file holds the games
   * without the deleted one, and no other existing file changed.
   */
  ghost predicate MatchAt(paths: seq<Path>, k: nat, u: Uuid, env: Env, files: Files, after: Files)
    requires k < |paths|
  {
    && (forall j :: 0 <= j < k ==> Skips(files, paths[j], u, env))
    && Holds(files, paths[k], u, env)
    && paths[k] in after
    && after[paths[k]] == env.games.encode(Deleted(LoadedAt(files, paths[k], env).value, u, env.gameId).value.1)
    && (forall p :: p in files && p != paths[k] ==> p in after && after[p] == files[p])
  }

  /** A match found after the first file, which was skipped, is a match of the whole listing. */
  lemma MatchAtShift(paths: seq<Path>, k: nat, u: Uuid, env: Env, files: Files, after: Files)
    requires |paths| > 0 && k < |paths| - 1
    requires Skips(files, paths[0], u, env)
    requires MatchAt(paths[1..], k, u, env, Touch(files, paths[0]), after)
    ensures MatchAt(paths, k + 1, u, env, files, after)
  {
    var touched := Touch(files, paths[0]);
    forall j | 0 <= j < k + 1 ensures Skips(files, paths[j], u, env) {
      if j > 0 {
        assert paths[j] == paths[1..][j - 1];
        assert LoadedAt(touched, paths[j], env) == LoadedAt(files, paths[j], env);
      }
    }
    assert LoadedAt(touched, paths[k + 1], env) == LoadedAt(files, paths[k + 1], env);
  }

  /** `MatchAtShift` for whichever index the search after the first file matched at. */
  lemma MatchShift(paths: seq<Path>, u: Uuid, env: Env, files: Files, after: Files)
    requires |paths| > 0
    requires Skips(files, paths[0], u, env)
    requires exists k :: 0 <= k < |paths[1..]| && MatchAt(paths[1..], k, u, env, Touch(files, paths[0]), after)
    ensures exists k :: 0 <= k < |paths| && MatchAt(paths, k, u, env, files, after)
  {
    var k :| 0 <= k < |paths[1..]| && MatchAt(paths[1..], k, u, env, Touch(files, paths[0]), after);
    MatchAtShift(paths, k, u, env, files, after);
  }

  /** Where the game files are: `games` under `--save-dir`, or under the working directory. */
  function GamesDir(optionalArgs: map<string, string>, cwd: Option<Path>): (r: Result<Path>)
    ensures SAVE_DIR_OPTIONAL_ARGUMENT in optionalArgs ==>
      r == Ok([optionalArgs[SAVE_DIR_OPTIONAL_ARGUMENT], GAMES_FOLDER])
    ensures SAVE_DIR_OPTIONAL_ARGUMENT !in optionalArgs ==>
      (r.Err? <==> cwd.None?) && (r.Ok? ==> r.value == cwd.value + [GAMES_FOLDER])
  {
    CreatePath(GAMES_FOLDER, Lookup(optionalArgs, SAVE_DIR_OPTIONAL_ARGUMENT), cwd)
  }

  /** What `DeleteScore::run` does: locate the games directory, list it, then search it. */
  function Effect(cmd: DeleteScore, env: Env, files: Files): (r: (Outcome, Files))
    ensures r.0.Fail? ==> forall p :: p in files ==> p in r.1 && r.1[p] == files[p]
    ensures GamesDir(cmd.optionalArgs, env.cwd).Ok? && env.listDir(GamesDir(cmd.optionalArgs, env.cwd).value).Entries? ==>
      r == DeleteFrom(env.listDir(GamesDir(cmd.optionalArgs, env.cwd).value).paths, cmd.gameId, env, files)
  {
    match GamesDir(cmd.optionalArgs, env.cwd)
    case Err(e) => (Fail(e), files)
    case Ok(dir) =>
      match env.listDir(dir)
      case CannotOpen => (Fail(DATA_ACCESS_ERROR), files)
      case EntryFailed => (Fail(ENTRY_ACCESS_ERROR), files)
      case Entries(paths) => DeleteFrom(paths, cmd.gameId, env, files)
  }

  /** `DeleteScore::run`: locate and list the games directory, then search the listed files. */
  method Run(cmd: DeleteScore, env: Env, files: Files) returns (r: Outcome, files': Files)
    ensures (r, files') == Effect(cmd, env, files)
  {
    var dir := GamesDir(cmd.optionalArgs, env.cwd);
    if dir.Err? {
      return Fail(dir.error), files;
    }
    var listing := env.listDir(dir.value);
    if listing.CannotOpen? {
      return Fail(DATA_ACCESS_ERROR), files;
    }
    if listing.EntryFailed? {
      return Fail(ENTRY_ACCESS_ERROR), files;
    }
    r, files' := Search(listing.paths, cmd.gameId, env, files);
  }

  /**
   * The loop of `DeleteScore::run`: for each listed file in turn, open and
   * load it, decode the id, and try to delete; save and stop at the first
   * success.
   */
  method Search(paths: seq<Path>, id: string, env: Env, files: Files) returns (r: Outcome, files': Files)
    ensures (r, files') == DeleteFrom(paths, id, env, files)
  {
    files' := files;
    var i := 0;
    while i < |paths|
      invariant 0 <= i <= |paths|
      invariant DeleteFrom(paths, id, env, files) == DeleteFrom(paths[i..], id, env, files')
    {
      ghost var before := files';
      ghost var rest := paths[i..];
      assert rest[0] == paths[i] && rest[1..] == paths[i + 1..];
      var file := new FileWrapper.Open(paths[i], files');
      files' := Touch(files', paths[i]);
      var loaded := file.Load(env.games);
      assert loaded == LoadedAt(before, paths[i], env);
      if loaded.Err? {
        return Fail(loaded.error), files';
      }
      var uuid := env.parseUuid(id);
      if uuid.None? {
        return Fail(DecodeIdMessage(id)), files';
      }
      var games := new Games.FromGames(loaded.value);
      var deleted := games.Delete(uuid.value, env.gameId);
      if deleted.Some? {
        file.Save(games.games, env.games);
        return Pass, files'[paths[i] := file.content];
      }
      assert DeleteFrom(rest, id, env, before) == DeleteFrom(paths[i + 1..], id, env, files');
      i := i + 1;
    }
    return Fail(GameNotFoundMessage(id)), files';
  }

  /**
   * When some file holds the id and every file before it loads without
   * holding it, the deletion succeeds, and it is that first file, and only
   * that file, that is rewritten.
   */
  lemma {:induction false} FirstMatchDeleted(paths: seq<Path>, id: string, env: Env, files: Files, k: nat)
    requires env.parseUuid(id).Some? && k < |paths|
    requires forall j :: 0 <= j < k ==> Skips(files, paths[j], env.parseUuid(id).value, env)
    requires Holds(files, paths[k], env.parseUuid(id).value, env)
    ensures DeleteFrom(paths, id, env, files).0.Pass?
    ensures MatchAt(paths, k, env.parseUuid(id).value, env, files, DeleteFrom(paths, id, env, files).1)
    decreases k
  {
    var u := env.parseUuid(id).value;
    if k > 0 {
      var touched := Touch(files, paths[0]);
      forall j | 0 <= j < k - 1 ensures Skips(touched, paths[1..][j], u, env) {
        assert LoadedAt(touched, paths[j + 1], env) == LoadedAt(files, paths[j + 1], env);
      }
      assert LoadedAt(touched, paths[k], env) == LoadedAt(files, paths[k], env);
      FirstMatchDeleted(paths[1..], id, env, touched, k - 1);
      assert Skips(files, paths[0], u, env);
      assert DeleteFrom(paths, id, env, files) == DeleteFrom(paths[1..], id, env, touched);
    }
    var r := DeleteFrom(paths, id, env, files);
    var k' :| 0 <= k' < |paths| && MatchAt(paths, k', u, env, files, r.1);
    if k' < k {
      assert Skips(files, paths[k'], u, env);
    } else if k < k' {
      assert Skips(files, paths[k], u, env);
    }
  }

  /** When every listed file loads and none holds the id, the result is "Game with id ID not found." and nothing changes. */
  lemma {:induction false} NoMatchNotFound(paths: seq<Path>, id: string, env: Env, files: Files)
    requires env.parseUuid(id).Some?
    requires forall j :: 0 <= j < |paths| ==> Skips(files, paths[j], env.parseUuid(id).value, env)
    ensures DeleteFrom(paths, id, env, files).0 == Fail(GameNotFoundMessage(id))
    decreases |paths|
  {
    if paths != [] {
      var touched := Touch(files, paths[0]);
      forall j | 0 <= j < |paths[1..]| ensures Skips(touched, paths[1..][j], env.parseUuid(id).value, env) {
        assert LoadedAt(touched, paths[j + 1], env) == LoadedAt(files, paths[j + 1], env);
      }
      NoMatchNotFound(paths[1..], id, env, touched);
    }
  }
}
