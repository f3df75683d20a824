/** Command dispatch: the first command-line argument picks the command, the rest are its arguments. */
module Commands {
  import opened Wrappers
  import opened Utils
  import opened Player
  import opened Host
  import AddPlayerCommand

  const UNKNOWN_COMMAND_ERROR := "Unknown or missing command."

  /** `Command`: the commands dispatch knows, or the error for anything else. */
  datatype Command = AddPlayer(args: seq<string>) | Invalid(err: string)

  /** `Command::parse`: "add-player" takes the remaining arguments, in order; anything else, or nothing, is invalid. */
  function Parse(args: seq<string>): (c: Command)
    ensures c.AddPlayer? <==> |args| > 0 && args[0] == "add-player"
    ensures c.AddPlayer? ==> |c.args| == |args| - 1 && forall i :: 0 <= i < |c.args| ==> c.args[i] == args[i + 1]
    ensures c.Invalid? ==> c.err == UNKNOWN_COMMAND_ERROR
  {
    if |args| > 0 && args[0] == "add-player" then AddPlayer(args[1..]) else Invalid(UNKNOWN_COMMAND_ERROR)
  }

  /** The two unit tests of `Command::parse`. */
  lemma ParseExamples()
    ensures Parse(["add-player", "player-name"]) == AddPlayer(["player-name"])
    ensures Parse(["invalid-command", "player-name"]) == Invalid(UNKNOWN_COMMAND_ERROR)
    ensures Parse([]) == Invalid(UNKNOWN_COMMAND_ERROR)
  {
    assert ["add-player", "player-name"][1..] == ["player-name"];
  }

  /**
   * `Command::run`: an invalid command returns its error unchanged and
   * touches nothing; add-player validates its arguments (with no optional
   * arguments) and runs.
   */
  method Run(cmd: Command, env: Env, files: Files) returns (r: Outcome, files': Files)
    ensures cmd.Invalid? ==> r == Fail(cmd.err) && files' == files
    ensures cmd.AddPlayer? && |cmd.args| != PLAYER_FIELD_COUNT ==>
      r == Fail(AddPlayerCommand.INVALID_ARGUMENTS_ERROR) && files' == files
    ensures cmd.AddPlayer? && |cmd.args| == PLAYER_FIELD_COUNT ==>
      (r, files') == AddPlayerCommand.Effect(AddPlayerCommand.AddPlayer(FromName(cmd.args[0]), map[]), env, files)
  {
    match cmd
    case Invalid(err) =>
      return Fail(err), files;
    case AddPlayer(args) =>
      var created := AddPlayerCommand.Create(args, map[]);
      if created.Err? {
        return Fail(created.error), files;
      }
      r, files' := AddPlayerCommand.Run(created.value, env, files);
  }
}
