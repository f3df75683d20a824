/** The delete-player command: validate the arguments, then remove the player from `players.json`. */
module DeletePlayerCommand {
  import opened Wrappers
  import opened Utils
  import opened Player
  import opened FileStorage
  import opened Host
  import AddPlayerCommand

  const INVALID_ARGUMENTS_ERROR := "Invalid number of arguments for delete-player."
  const NO_PLAYERS_DATA_ERROR := "No players' data found."

  /** A validated delete-player command. */
  datatype DeletePlayer = DeletePlayer(player: Player, optionalArgs: map<string, string>)

  /**
   * `DeletePlayer::parse`: exactly `PLAYER_FIELD_COUNT` positional arguments;
   * the optional arguments are kept as given, without any check.
   */
  function Parse(args: seq<string>, optionalArgs: map<string, string>): (r: Result<DeletePlayer>)
    ensures r.Err? <==> |args| != PLAYER_FIELD_COUNT
    ensures r.Err? ==> r.error == INVALID_ARGUMENTS_ERROR
    ensures r.Ok? ==> GetName(r.value.player) == args[0] && r.value.optionalArgs == optionalArgs
  {
    if |args| != PLAYER_FIELD_COUNT then Err(INVALID_ARGUMENTS_ERROR)
    else Ok(DeletePlayer(FromName(args[0]), optionalArgs))
  }

  /** Unlike add-player, no optional key is refused: whether parsing succeeds depends on the positional arguments only. */
  lemma ParseAcceptsAnyOptions(args: seq<string>, o1: map<string, string>, o2: map<string, string>)
    ensures Parse(args, o1).Ok? <==> Parse(args, o2).Ok?
    ensures Parse(args, o1).Ok? ==> Parse(args, o1).value.player == Parse(args, o2).value.player
  {
  }

  /**
   * What `DeletePlayer::run` does to the files: an empty (or missing, hence
   * newly created) players file is an error; otherwise the loaded collection,
   * without the player, is written back; a load error or an unknown name
   * stops before anything is written.
   */
  function Effect(cmd: DeletePlayer, env: Env, files: Files): (r: (Outcome, Files))
    ensures PlayersPath(cmd.optionalArgs, env.cwd).Err? ==> r == (Fail(PlayersPath(cmd.optionalArgs, env.cwd).error), files)
    ensures r.0.Fail? ==> forall p :: p in files ==> p in r.1 && r.1[p] == files[p]
    ensures r.0.Fail? ==> forall p :: p in r.1 && p !in files ==> r.1[p] == []
    ensures PlayersPath(cmd.optionalArgs, env.cwd).Ok? ==>
      var path := PlayersPath(cmd.optionalArgs, env.cwd).value;
      && (|Content(files, path)| == 0 ==> r == (Fail(NO_PLAYERS_DATA_ERROR), Touch(files, path)))
      && (r.0.Pass? <==> |Content(files, path)| != 0 && Loaded(files[path], path, env.players).Ok?
                         && cmd.player.name in Loaded(files[path], path, env.players).value)
      && (r.0.Pass? ==> r.1 == files[path := env.players.encode(Loaded(files[path], path, env.players).value - {cmd.player.name})])
      && (|Content(files, path)| != 0 && Loaded(files[path], path, env.players).Ok? && r.0.Fail? ==>
            r.0.error == NotFoundMessage(cmd.player.name))
  {
    match PlayersPath(cmd.optionalArgs, env.cwd)
    case Err(e) => (Fail(e), files)
    case Ok(path) =>
      var data := Content(files, path);
      if |data| == 0 then (Fail(NO_PLAYERS_DATA_ERROR), Touch(files, path))
      else
        match Loaded(data, path, env.players)
        case Err(e) => (Fail(e), files)
        case Ok(players) =>
          match WithoutPlayer(players, cmd.player)
          case Err(e) => (Fail(e), files)
          case Ok(updated) => (Pass, files[path := env.players.encode(updated)])
  }

  /** `DeletePlayer::run`: open the players file, refuse an empty one, load, remove the player and save. */
  method Run(cmd: DeletePlayer, env: Env, files: Files) returns (r: Outcome, files': Files)
    ensures (r, files') == Effect(cmd, env, files)
  {
    var path := PlayersPath(cmd.optionalArgs, env.cwd);
    if path.Err? {
      return Fail(path.error), files;
    }
    var file := new FileWrapper.Open(path.value, files);
    var empty := file.IsEmpty();
    if empty {
      return Fail(NO_PLAYERS_DATA_ERROR), Touch(files, path.value);
    }
    var loaded := file.Load(env.players);
    if loaded.Err? {
      return Fail(loaded.error), files;
    }
    var players := new Players.FromPlayers(loaded.value);
    var removed := players.RemovePlayer(cmd.player);
    if removed.Fail? {
      return Fail(removed.error), files;
    }
    file.Save(players.players, env.players);
    return Pass, files[path.value := file.content];
  }

  /**
   * Adding a new player and then deleting it (with the same save directory)
   * succeeds and leaves the players file holding the collection it held before.
   */
  lemma AddThenDelete(add: AddPlayerCommand.AddPlayer, del: DeletePlayer, env: Env, files: Files)
    requires Faithful(env.players)
    requires del.player == add.player
    requires PlayersPath(del.optionalArgs, env.cwd) == PlayersPath(add.optionalArgs, env.cwd)
    requires AddPlayerCommand.Effect(add, env, files).0.Pass?
    ensures var added := AddPlayerCommand.Effect(add, env, files).1;
            var path := PlayersPath(add.optionalArgs, env.cwd).value;
            && Effect(del, env, added).0 == Pass
            && Stored(Effect(del, env, added).1, path, env.players, map[]) == Stored(files, path, env.players, map[])
  {
    var added := AddPlayerCommand.Effect(add, env, files).1;
    var path := PlayersPath(add.optionalArgs, env.cwd).value;
    var prior := Stored(files, path, env.players, map[]).value;
    AddPlayerCommand.AddedPlayerIsStored(add, env, files);
    StoredAfterSave(files, path, prior[add.player.name := add.player], env.players, map[]);
    AddThenRemove(prior, add.player);
    StoredAfterSave(added, path, prior, env.players, map[]);
  }
}
