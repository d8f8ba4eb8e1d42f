/** The option set of the `destroy` command and the defaults it registers. */
module DestroyFlags {

  /**
   * The flag variables the command's closure captures. `color` is the raw
   * value of the color flag. The closure never reads `nonInteractive`;
   * whatever `isInteractive` makes of the registered flag is part of
   * its answer.
   */
  datatype Flags = Flags(
    debug: bool,
    stack: string,
    message: string,
    analyzers: seq<string>,
    color: string,
    diff: bool,
    parallel: int,
    preview: string,
    showConfig: bool,
    showReplacementSteps: bool,
    showSames: bool,
    nonInteractive: bool)

  /** The values the flags hold when none is given on the command line. */
  const Defaults: Flags := Flags(
    debug := false,
    stack := "",
    message := "",
    analyzers := [],
    color := "",
    diff := false,
    parallel := 0,
    preview := "",
    showConfig := false,
    showReplacementSteps := false,
    showSames := false,
    nonInteractive := false)
}
