/** Optional command-line arguments (`--key value` pairs) shared by the command handlers. */
module Arguments {
  import opened Wrappers

  /** The one optional argument every handler admits: the save directory. */
  const SAVE_DIR_OPTIONAL_ARGUMENT := "--save-dir"

  /** The date option of add-score. */
  const TIME_OPTIONAL_ARGUMENT := "--time"

  function UnknownOptionalMessage(command: string, key: string): string {
    "Unknown optional command for " + command + " " + key + "."
  }

  /**
   * The loop at the head of each handler's `create`: visit the optional keys
   * in the map's (unspecified) iteration order and fail on the first one that
   * is not admitted. Which unknown key is reported when there are several is
   * the map's choice, so the model picks any.
   */
  method CheckOptionalArguments(optionalArgs: map<string, string>, admitted: set<string>, command: string)
    returns (r: Outcome)
    ensures r.Pass? <==> optionalArgs.Keys <= admitted
    ensures r.Fail? ==> exists key :: key in optionalArgs && key !in admitted
                                      && r.error == UnknownOptionalMessage(command, key)
  {
    var pending := optionalArgs.Keys;
    while pending != {}
      invariant pending <= optionalArgs.Keys
      invariant forall key :: key in optionalArgs && key !in pending ==> key in admitted
      decreases |pending|
    {
      var key :| key in pending;
      if key !in admitted {
        return Fail(UnknownOptionalMessage(command, key));
      }
      pending := pending - {key};
    }
    return Pass;
  }
}
