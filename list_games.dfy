/** The list-games command: every game of every file in the games directory, in date order. */
module ListGamesCommand {
  import opened Wrappers
  import opened Utils
  import opened Arguments
  import opened Game
  import opened FileStorage
  import opened Host
  import DeleteScoreCommand

  const ADMITTED_OPTIONAL_ARGUMENTS: set<string> := {SAVE_DIR_OPTIONAL_ARGUMENT}

  /** A validated list-games command. */
  datatype ListGames = ListGames(optionalArgs: map<string, string>)

  /** `ListGames::create`: an unknown optional key is refused; positional arguments are ignored. */
  method Create(args: seq<string>, optionalArgs: map<string, string>) returns (r: Result<ListGames>)
    ensures !(optionalArgs.Keys <= ADMITTED_OPTIONAL_ARGUMENTS) ==>
      r.Err? && exists key :: key in optionalArgs && key !in ADMITTED_OPTIONAL_ARGUMENTS
                              && r.error == UnknownOptionalMessage("list-games", key)
    ensures optionalArgs.Keys <= ADMITTED_OPTIONAL_ARGUMENTS ==> r == Ok(ListGames(optionalArgs))
  {
    var checked := CheckOptionalArguments(optionalArgs, ADMITTED_OPTIONAL_ARGUMENTS, "list-games");
    if checked.Fail? {
      return Err(checked.error);
    }
    return Ok(ListGames(optionalArgs));
  }

  /**
   * The games of all the listed files, file after file in listing order;
   * the first file that does not load stops the listing with its error.
   */
  function LoadAll(paths: seq<Path>, env: Env, files: Files): (r: Result<seq<Game>>)
    decreases |paths|
  {
    if paths == [] then Ok([])
    else
      match DeleteScoreCommand.LoadedAt(files, paths[0], env)
      case Err(e) => Err(e)
      case Ok(games) => Prepend(games, LoadAll(paths[1..], env, files))
  }

  /** The listing succeeds exactly when every listed file loads. */
  lemma {:induction false} LoadAllOk(paths: seq<Path>, env: Env, files: Files)
    ensures LoadAll(paths, env, files).Ok? <==> forall j :: 0 <= j < |paths| ==> DeleteScoreCommand.LoadedAt(files, paths[j], env).Ok?
    decreases |paths|
  {
    if paths != [] {
      LoadAllOk(paths[1..], env, files);
      assert forall j :: 0 < j < |paths| ==> paths[j] == paths[1..][j - 1];
    }
  }

  /** A failed listing reports the error of the first file that does not load. */
  lemma {:induction false} LoadAllFirstError(paths: seq<Path>, env: Env, files: Files)
    requires LoadAll(paths, env, files).Err?
    ensures exists j :: 0 <= j < |paths| && DeleteScoreCommand.LoadedAt(files, paths[j], env) == Err(LoadAll(paths, env, files).error)
                        && forall i :: 0 <= i < j ==> DeleteScoreCommand.LoadedAt(files, paths[i], env).Ok?
    decreases |paths|
  {
    if DeleteScoreCommand.LoadedAt(files, paths[0], env).Ok? {
      var rest := LoadAll(paths[1..], env, files);
      LoadAllFirstError(paths[1..], env, files);
      var j :| 0 <= j < |paths[1..]| && DeleteScoreCommand.LoadedAt(files, paths[1..][j], env) == Err(rest.error)
               && forall i :: 0 <= i < j ==> DeleteScoreCommand.LoadedAt(files, paths[1..][i], env).Ok?;
      assert forall i :: 0 < i <= j ==> paths[i] == paths[1..][i - 1];
      assert DeleteScoreCommand.LoadedAt(files, paths[j + 1], env) == Err(LoadAll(paths, env, files).error);
    }
  }

  /** A successful listing holds every game of every listed file. */
  lemma {:induction false} LoadAllHoldsEvery(paths: seq<Path>, env: Env, files: Files)
    requires LoadAll(paths, env, files).Ok?
    ensures forall j, g :: 0 <= j < |paths| && DeleteScoreCommand.LoadedAt(files, paths[j], env).Ok? && g in DeleteScoreCommand.LoadedAt(files, paths[j], env).value
                           ==> g in LoadAll(paths, env, files).value
    decreases |paths|
  {
    if paths != [] {
      LoadAllHoldsEvery(paths[1..], env, files);
      assert forall j :: 0 < j < |paths| ==> paths[j] == paths[1..][j - 1];
    }
  }

  /** A successful listing holds nothing but games of the listed files. */
  lemma {:induction false} LoadAllOnlyListed(paths: seq<Path>, env: Env, files: Files)
    requires LoadAll(paths, env, files).Ok?
    ensures forall g :: g in LoadAll(paths, env, files).value ==>
              exists j :: 0 <= j < |paths| && DeleteScoreCommand.LoadedAt(files, paths[j], env).Ok? && g in DeleteScoreCommand.LoadedAt(files, paths[j], env).value
    decreases |paths|
  {
    if paths != [] {
      var first := DeleteScoreCommand.LoadedAt(files, paths[0], env).value;
      var rest := LoadAll(paths[1..], env, files);
      assert LoadAll(paths, env, files).value == first + rest.value;
      LoadAllOnlyListed(paths[1..], env, files);
      forall g | g in first + rest.value
        ensures exists j :: 0 <= j < |paths| && DeleteScoreCommand.LoadedAt(files, paths[j], env).Ok? && g in DeleteScoreCommand.LoadedAt(files, paths[j], env).value
      {
        if g !in first {
          var j :| 0 <= j < |paths[1..]| && DeleteScoreCommand.LoadedAt(files, paths[1..][j], env).Ok? && g in DeleteScoreCommand.LoadedAt(files, paths[1..][j], env).value;
          assert paths[j + 1] == paths[1..][j];
        }
      }
    }
  }

  /** `acc` in front of a successful listing; an error stays the error. */
  function Prepend(acc: seq<Game>, r: Result<seq<Game>>): (p: Result<seq<Game>>)
    ensures p.Ok? <==> r.Ok?
    ensures p.Err? ==> p.error == r.error
    ensures p.Ok? ==> p.value == acc + r.value
  {
    match r
    case Err(e) => Err(e)
    case Ok(games) => Ok(acc + games)
  }

  /** Prepending twice is prepending the concatenation. */
  lemma PrependTwice(a: seq<Game>, b: seq<Game>, r: Result<seq<Game>>)
    ensures Prepend(a, Prepend(b, r)) == Prepend(a + b, r)
  {
    if r.Ok? {
      assert a + (b + r.value) == (a + b) + r.value;
    }
  }

  /**
   * What `ListGames::run` computes before printing the table: all games of
   * the games directory, ordered by date.
   */
  function Listed(cmd: ListGames, env: Env, files: Files): (r: Result<seq<Game>>)
    ensures r.Ok? ==> SortedByDate(r.value)
    ensures var dir := DeleteScoreCommand.GamesDir(cmd.optionalArgs, env.cwd);
            dir.Ok? && env.listDir(dir.value).Entries? ==>
              var all := LoadAll(env.listDir(dir.value).paths, env, files);
              && (r.Ok? <==> all.Ok?)
              && (r.Err? ==> r.error == all.error)
              && (r.Ok? ==> multiset(r.value) == multiset(all.value))
  {
    match DeleteScoreCommand.GamesDir(cmd.optionalArgs, env.cwd)
    case Err(e) => Err(e)
    case Ok(dir) =>
      match env.listDir(dir)
      case CannotOpen => Err(DeleteScoreCommand.DATA_ACCESS_ERROR)
      case EntryFailed => Err(DeleteScoreCommand.ENTRY_ACCESS_ERROR)
      case Entries(paths) =>
        match LoadAll(paths, env, files)
        case Err(e) => Err(e)
        case Ok(games) => Ok(SortByDate(games))
  }

  /**
   * `ListGames::run`: extend one accumulator with the games of each listed
   * file, then order it by date. Files are only opened (a missing one is
   * created empty); nothing is written.
   */
  method Run(cmd: ListGames, env: Env, files: Files) returns (r: Result<seq<Game>>, files': Files)
    ensures r == Listed(cmd, env, files)
    ensures forall p :: p in files ==> p in files' && files'[p] == files[p]
    ensures forall p :: p in files' && p !in files ==> files'[p] == []
  {
    files' := files;
    var dir := DeleteScoreCommand.GamesDir(cmd.optionalArgs, env.cwd);
    if dir.Err? {
      return Err(dir.error), files';
    }
    var listing := env.listDir(dir.value);
    if listing.CannotOpen? {
      return Err(DeleteScoreCommand.DATA_ACCESS_ERROR), files';
    }
    if listing.EntryFailed? {
      return Err(DeleteScoreCommand.ENTRY_ACCESS_ERROR), files';
    }
    var paths := listing.paths;
    var all := new Games.CreateEmpty();
    var i := 0;
    assert paths[i..] == paths;
    assert Prepend([], LoadAll(paths, env, files)) == LoadAll(paths, env, files) by {
      var all0 := LoadAll(paths, env, files);
      if all0.Ok? { assert [] + all0.value == all0.value; }
    }
    while i < |paths|
      invariant 0 <= i <= |paths|
      invariant LoadAll(paths, env, files) == Prepend(all.games, LoadAll(paths[i..], env, files))
      invariant forall p :: Content(files', p) == Content(files, p)
      invariant forall p :: p in files ==> p in files' && files'[p] == files[p]
      invariant forall p :: p in files' && p !in files ==> files'[p] == []
    {
      ghost var rest := paths[i..];
      assert rest[0] == paths[i] && rest[1..] == paths[i + 1..];
      var file := new FileWrapper.Open(paths[i], files');
      files' := Touch(files', paths[i]);
      var loaded := file.Load(env.games);
      assert loaded == DeleteScoreCommand.LoadedAt(files, paths[i], env);
      if loaded.Err? {
        return Err(loaded.error), files';
      }
      var current := new Games.FromGames(loaded.value);
      ghost var acc := all.games;
      all.Extend(current);
      assert LoadAll(rest, env, files) == Prepend(loaded.value, LoadAll(paths[i + 1..], env, files));
      PrependTwice(acc, loaded.value, LoadAll(paths[i + 1..], env, files));
      i := i + 1;
    }
    assert LoadAll(paths[i..], env, files) == Ok([]);
    assert all.games + [] == all.games;
    r := Ok(all.OrderByDate());
  }
}
