/** The add-player command: validate the arguments, then add the player to `players.json`. */
module AddPlayerCommand {
  import opened Wrappers
  import opened Utils
  import opened Arguments
  import opened Player
  import opened FileStorage
  import opened Host

  const ADMITTED_OPTIONAL_ARGUMENTS: set<string> := {SAVE_DIR_OPTIONAL_ARGUMENT}
  const INVALID_ARGUMENTS_ERROR := "Invalid number of arguments for add-player."

  /** A validated add-player command. */
  datatype AddPlayer = AddPlayer(player: Player, optionalArgs: map<string, string>)

  /**
   * `AddPlayer::create`: an unknown optional key is reported first, then the
   * number of positional arguments must be `PLAYER_FIELD_COUNT`.
   */
  method Create(args: seq<string>, optionalArgs: map<string, string>) returns (r: Result<AddPlayer>)
    ensures !(optionalArgs.Keys <= ADMITTED_OPTIONAL_ARGUMENTS) ==>
      r.Err? && exists key :: key in optionalArgs && key !in ADMITTED_OPTIONAL_ARGUMENTS
                              && r.error == UnknownOptionalMessage("add-player", key)
    ensures optionalArgs.Keys <= ADMITTED_OPTIONAL_ARGUMENTS && |args| != PLAYER_FIELD_COUNT ==>
      r == Err(INVALID_ARGUMENTS_ERROR)
    ensures optionalArgs.Keys <= ADMITTED_OPTIONAL_ARGUMENTS && |args| == PLAYER_FIELD_COUNT ==>
      r == Ok(AddPlayer(FromName(args[0]), optionalArgs))
  {
    var checked := CheckOptionalArguments(optionalArgs, ADMITTED_OPTIONAL_ARGUMENTS, "add-player");
    if checked.Fail? {
      return Err(checked.error);
    }
    if |args| != PLAYER_FIELD_COUNT {
      return Err(INVALID_ARGUMENTS_ERROR);
    }
    return Ok(AddPlayer(FromName(args[0]), optionalArgs));
  }

  /**
   * What `AddPlayer::run` does to the files, branch by branch: an empty file
   * gets the singleton collection; otherwise the loaded collection, with the
   * player added, is written back; a load error or a duplicate name stops
   * before anything is written.
   */
  function Effect(cmd: AddPlayer, env: Env, files: Files): (r: (Outcome, Files))
    ensures PlayersPath(cmd.optionalArgs, env.cwd).Err? ==> r == (Fail(PlayersPath(cmd.optionalArgs, env.cwd).error), files)
    ensures r.0.Fail? ==> r.1 == files
    ensures r.0.Pass? <==>
      && PlayersPath(cmd.optionalArgs, env.cwd).Ok?
      && Stored(files, PlayersPath(cmd.optionalArgs, env.cwd).value, env.players, map[]).Ok?
      && cmd.player.name !in Stored(files, PlayersPath(cmd.optionalArgs, env.cwd).value, env.players, map[]).value
    ensures PlayersPath(cmd.optionalArgs, env.cwd).Ok? && r.0.Pass? ==>
      var path := PlayersPath(cmd.optionalArgs, env.cwd).value;
      var prior := Stored(files, path, env.players, map[]).value;
      r.1 == files[path := env.players.encode(prior[cmd.player.name := cmd.player])]
    ensures PlayersPath(cmd.optionalArgs, env.cwd).Ok?
            && Stored(files, PlayersPath(cmd.optionalArgs, env.cwd).value, env.players, map[]).Ok? && r.0.Fail? ==>
      r.0.error == AlreadyExistsMessage(cmd.player.name)
  {
    match PlayersPath(cmd.optionalArgs, env.cwd)
    case Err(e) => (Fail(e), files)
    case Ok(path) =>
      var data := Content(files, path);
      if |data| == 0 then
        (Pass, files[path := env.players.encode(map[GetName(cmd.player) := cmd.player])])
      else
        match Loaded(data, path, env.players)
        case Err(e) => (Fail(e), files)
        case Ok(players) =>
          match WithPlayer(players, cmd.player)
          case Err(e) => (Fail(e), files)
          case Ok(updated) => (Pass, files[path := env.players.encode(updated)])
  }

  /**
   * `AddPlayer::run`: open the players file, start a collection (empty file)
   * or load one, add the player and save.
   */
  method Run(cmd: AddPlayer, env: Env, files: Files) returns (r: Outcome, files': Files)
    ensures (r, files') == Effect(cmd, env, files)
  {
    var path := PlayersPath(cmd.optionalArgs, env.cwd);
    if path.Err? {
      return Fail(path.error), files;
    }
    var file := new FileWrapper.Open(path.value, files);
    var empty := file.IsEmpty();
    if empty {
      var players := new Players.FromPlayers(map[GetName(cmd.player) := cmd.player]);
      file.Save(players.players, env.players);
    } else {
      var loaded := file.Load(env.players);
      if loaded.Err? {
        return Fail(loaded.error), files;
      }
      var players := new Players.FromPlayers(loaded.value);
      var added := players.AddPlayer(cmd.player);
      if added.Fail? {
        return Fail(added.error), files;
      }
      file.Save(players.players, env.players);
    }
    return Pass, files[path.value := file.content];
  }

  /** After a successful add the players file loads as the earlier collection with the player in it. */
  lemma AddedPlayerIsStored(cmd: AddPlayer, env: Env, files: Files)
    requires Faithful(env.players)
    requires Effect(cmd, env, files).0.Pass?
    ensures PlayersPath(cmd.optionalArgs, env.cwd).Ok?
    ensures var path := PlayersPath(cmd.optionalArgs, env.cwd).value;
            var after := Stored(Effect(cmd, env, files).1, path, env.players, map[]);
            && after.Ok? && cmd.player.name in after.value && after.value[cmd.player.name] == cmd.player
            && after == WithPlayer(Stored(files, path, env.players, map[]).value, cmd.player)
  {
    var path := PlayersPath(cmd.optionalArgs, env.cwd).value;
    var prior := Stored(files, path, env.players, map[]).value;
    StoredAfterSave(files, path, prior[cmd.player.name := cmd.player], env.players, map[]);
  }

  /** Adding the same player a second time fails with "Player X already exists." and writes nothing. */
  lemma AddTwiceFails(cmd: AddPlayer, env: Env, files: Files)
    requires Faithful(env.players)
    requires Effect(cmd, env, files).0.Pass?
    ensures var again := Effect(cmd, env, Effect(cmd, env, files).1);
            again == (Fail(AlreadyExistsMessage(cmd.player.name)), Effect(cmd, env, files).1)
  {
    AddedPlayerIsStored(cmd, env, files);
  }
}
