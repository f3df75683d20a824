/** The add-score command: build a game from the arguments, then append it to that game's file. */
module AddScoreCommand {
  import opened Wrappers
  import opened Utils
  import opened Arguments
  import opened Game
  import opened FileStorage
  import opened Host

  /** A validated add-score command: the game to record. */
  datatype AddScore = AddScore(game: Game, optionalArgs: map<string, string>)

  /**
   * `AddScore::parse`: the first argument is the game name, the rest are
   * score tokens, and `--time` (if given) is the date. `AddScore::parse`
   * indexes `args[0]` without checking, so at least one argument is required.
   */
  function Parse(args: seq<string>, optionalArgs: map<string, string>, env: Env): (r: Result<AddScore>)
    requires |args| >= 1
    ensures var built := Build(args[0], args[1..], Lookup(optionalArgs, TIME_OPTIONAL_ARGUMENT), env.parseDate, env.today);
            && (r.Err? <==> built.Err?)
            && (r.Err? ==> r.error == built.error)
            && (r.Ok? ==> r.value.game == built.value && r.value.optionalArgs == optionalArgs)
  {
    match Build(args[0], args[1..], Lookup(optionalArgs, TIME_OPTIONAL_ARGUMENT), env.parseDate, env.today)
    case Err(e) => Err(e)
    case Ok(game) => Ok(AddScore(game, optionalArgs))
  }

  /** A game name and no score tokens: parsing fails with "No scores provided.". */
  lemma ParseWithoutScores(name: string, optionalArgs: map<string, string>, env: Env)
    ensures Parse([name], optionalArgs, env) == Err(NO_SCORES_ERROR)
  {
    ScoresOfExamples();
    assert [name][1..] == [];
  }

  /** The game's file: `<game name>.json` under `--save-dir`, or under the working directory. */
  function GamePath(cmd: AddScore, env: Env): (r: Result<Path>)
    ensures SAVE_DIR_OPTIONAL_ARGUMENT in cmd.optionalArgs ==>
      r == Ok([cmd.optionalArgs[SAVE_DIR_OPTIONAL_ARGUMENT], GetName(cmd.game) + ".json"])
    ensures SAVE_DIR_OPTIONAL_ARGUMENT !in cmd.optionalArgs ==>
      (r.Err? <==> env.cwd.None?) && (r.Ok? ==> r.value == env.cwd.value + [cmd.game.gameName + ".json"])
  {
    CreatePath(GetName(cmd.game) + ".json", Lookup(cmd.optionalArgs, SAVE_DIR_OPTIONAL_ARGUMENT), env.cwd)
  }

  /**
   * What `AddScore::run` does to the files: an empty game file gets the
   * one-game collection, otherwise the game is appended to the loaded games;
   * a load error stops before anything is written. No other file is read or
   * written (this revision does not check that the players exist).
   */
  function Effect(cmd: AddScore, env: Env, files: Files): (r: (Outcome, Files))
    ensures GamePath(cmd, env).Err? ==> r == (Fail(GamePath(cmd, env).error), files)
    ensures r.0.Fail? ==> r.1 == files
    ensures GamePath(cmd, env).Ok? ==>
      var path := GamePath(cmd, env).value;
      var prior := Stored(files, path, env.games, []);
      && (r.0.Pass? <==> prior.Ok?)
      && (r.0.Fail? ==> r.0 == Fail(prior.error))
      && (r.0.Pass? ==> r.1 == files[path := env.games.encode(prior.value + [cmd.game])])
  {
    match GamePath(cmd, env)
    case Err(e) => (Fail(e), files)
    case Ok(path) =>
      var data := Content(files, path);
      if |data| == 0 then
        assert [] + [cmd.game] == [cmd.game];
        (Pass, files[path := env.games.encode([cmd.game])])
      else
        match Loaded(data, path, env.games)
        case Err(e) => (Fail(e), files)
        case Ok(games) => (Pass, files[path := env.games.encode(games + [cmd.game])])
  }

  /** `AddScore::run`: open the game's file, start a collection (empty file) or load one, append the game and save. */
  method Run(cmd: AddScore, env: Env, files: Files) returns (r: Outcome, files': Files)
    ensures (r, files') == Effect(cmd, env, files)
  {
    var path := GamePath(cmd, env);
    if path.Err? {
      return Fail(path.error), files;
    }
    var file := new FileWrapper.Open(path.value, files);
    var empty := file.IsEmpty();
    if empty {
      var games := new Games.FromGames([cmd.game]);
      file.Save(games.games, env.games);
    } else {
      var loaded := file.Load(env.games);
      if loaded.Err? {
        return Fail(loaded.error), files;
      }
      var games := new Games.FromGames(loaded.value);
      games.AddGame(cmd.game);
      file.Save(games.games, env.games);
    }
    return Pass, files[path.value := file.content];
  }

  /** After a successful run the game's file loads as the earlier games with the new one last. */
  lemma GameAppendedLast(cmd: AddScore, env: Env, files: Files)
    requires Faithful(env.games)
    requires Effect(cmd, env, files).0.Pass?
    ensures GamePath(cmd, env).Ok?
    ensures var path := GamePath(cmd, env).value;
            var prior := Stored(files, path, env.games, []).value;
            var after := Stored(Effect(cmd, env, files).1, path, env.games, []);
            && after.Ok? && |after.value| == |prior| + 1
            && after.value[..|prior|] == prior && after.value[|prior|] == cmd.game
  {
    var path := GamePath(cmd, env).value;
    var prior := Stored(files, path, env.games, []).value;
    StoredAfterSave(files, path, prior + [cmd.game], env.games, []);
    assert (prior + [cmd.game])[..|prior|] == prior;
  }

  /** Recording two games of the same name keeps both, in the order they were recorded. */
  lemma TwoGamesInOrder(first: AddScore, second: AddScore, env: Env, files: Files)
    requires Faithful(env.games)
    requires GamePath(first, env).Ok? && GamePath(second, env) == GamePath(first, env)
    requires Effect(first, env, files).0.Pass?
    ensures var path := GamePath(first, env).value;
            var prior := Stored(files, path, env.games, []).value;
            var after := Effect(second, env, Effect(first, env, files).1);
            && after.0.Pass?
            && Stored(after.1, path, env.games, []) == Ok(prior + [first.game, second.game])
  {
    var path := GamePath(first, env).value;
    var prior := Stored(files, path, env.games, []).value;
    var middle := Effect(first, env, files).1;
    StoredAfterSave(files, path, prior + [first.game], env.games, []);
    StoredAfterSave(middle, path, prior + [first.game] + [second.game], env.games, []);
    assert prior + [first.game] + [second.game] == prior + [first.game, second.game];
  }
}
