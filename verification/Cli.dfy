/** The command line of the engine: the argument loop and what it decides to do. */
module Cli {
  import opened Optional
  import opened Jobs

  /** Options that take the next argument as their value, if there is one. */
  const VALUED_JOB: set<string> := {
    "--level", "--profile", "--embed-source-name", "--raster-dpi", "--default-rgb", "--default-cmyk", "--default-gray",
    "--lang", "--password"}

  const VALUED_OUTPUT: set<string> := {
    "--output-condition", "--output-condition-info", "--registry", "--vt-records", "--dest-profile", "--attach-xml",
    "--attach-xml-name", "--facturx-profile", "--image-max-ppi"}

  const VALUED_COLOR: set<string> := {
    "--convert-colors", "--intent", "--convert-objects", "--rgb-gray-to-k", "--ink-limit", "--device-link",
    "--profile-url", "--icc-folder", "--font-folder", "--substitute", "--var", "--var-file", "--pages",
    "--hits-per-page", "--hits-per-doc", "--fallback-raster", "--fallback-pages", "--bookmarks"}

  const VALUED_OTHER: set<string> := {
    "--ocr-engine", "--sign", "--sign-password", "--sign-name", "--sign-reason", "--sign-location", "--out-dir", "-d",
    "--suffix", "-s", "--jobs", "-j", "--einvoice", "--trace", "--list-vars", "--list-profiles", "--report",
    "--report-dict", "--report-lang", "--job-id"}

  predicate TakesValue(arg: string) {
    arg in VALUED_JOB || arg in VALUED_OUTPUT || arg in VALUED_COLOR || arg in VALUED_OTHER
  }

  const JOB_SWITCHES: set<string> := {
    "--check", "--analyze", "--outline-fonts", "--ocr", "--extract-invoice", "--check-invoice", "--verify-password",
    "--embed-source", "--rasterize-pages", "--allow-visual-risk", "--ua"}

  const OTHER_SWITCHES: set<string> := {
    "--batch", "--recursive", "-r", "--watch", "--overwrite", "-w", "--visible-layers", "--dual", "--no-bpc",
    "--keep-spots", "--gray-to-k", "--merge-inputs", "--reconvert", "--fallback-no-text", "--quick", "-q",
    "--certify", "--only-pdfa"}

  predicate IsSwitch(arg: string) {
    arg in JOB_SWITCHES || arg in OTHER_SWITCHES
  }

  const INFORMING: set<string> := {"--version", "-v", "--help", "-h"}

  /** Options whose value is checked on the spot: a file that is read, a range, a list, or a listing
      that ends the program. */
  const CHECKED: set<string> := {
    "--profile", "--raster-dpi", "--substitute", "--default-rgb", "--default-cmyk", "--default-gray", "--dest-profile",
    "--einvoice", "--attach-xml", "--image-max-ppi", "--intent", "--convert-objects", "--ink-limit", "--device-link",
    "--var", "--var-file", "--fallback-raster", "--fallback-pages", "--bookmarks", "--trace", "--list-vars",
    "--list-profiles"}

  const EXIT_USAGE := 64

  /** The outside: with which exit code a checked option stops the program, if at all, and whether a
      profile file has any content. */
  datatype World = World(refuses: (string, string) -> Option<int>, profileText: string -> bool)

  datatype Read = Switch(flag: string) | Valued(flag: string, value: string)

  /** The exit code with which an option stops the loop. */
  function Refusal(world: World, r: Read): Option<int> {
    if r.Switch? then None
    else if r.flag == "--level" then
      if r.value == "ua1" || r.value in LEVELS || r.value in CHECK_ONLY then None else Some(EXIT_USAGE)
    else if r.flag in CHECKED then world.refuses(r.flag, r.value)
    else None
  }

  /** The exit code of the first option that stops the loop. */
  function FirstRefusal(world: World, taken: seq<Read>): Option<int> {
    if taken == [] then None
    else if Refusal(world, taken[0]).Some? then Refusal(world, taken[0])
    else FirstRefusal(world, taken[1..])
  }

  /** What the loop has collected. */
  datatype Seen = Seen(taken: seq<Read>, positional: seq<string>)

  datatype LoopEnd = Stopped(code: int) | Completed(seen: Seen)

  function AddRead(seen: Seen, r: Read): Seen {
    seen.(taken := seen.taken + [r])
  }

  function AddPositional(seen: Seen, arg: string): Seen {
    seen.(positional := seen.positional + [arg])
  }

  /** The argument loop of `main` from position `i` on. An option that lacks its value is taken for a
      positional argument. */
  function Loop(world: World, argv: seq<string>, i: nat, seen: Seen): LoopEnd
    requires i <= |argv|
    decreases |argv| - i
  {
    if i == |argv| then Completed(seen)
    else
      var arg := argv[i];
      if arg in INFORMING then Stopped(0)
      else if TakesValue(arg) && i + 1 < |argv| then
        var r := Valued(arg, argv[i + 1]);
        if Refusal(world, r).Some? then Stopped(Refusal(world, r).value) else Loop(world, argv, i + 2, AddRead(seen, r))
      else if IsSwitch(arg) then Loop(world, argv, i + 1, AddRead(seen, Switch(arg)))
      else Loop(world, argv, i + 1, AddPositional(seen, arg))
  }

  method ReadArguments(world: World, argv: seq<string>) returns (end: LoopEnd)
    ensures end == Loop(world, argv, 0, Seen([], []))
  {
    hide TakesValue, IsSwitch, INFORMING, Refusal;
    var taken: seq<Read>, positional: seq<string> := [], [];
    var i := 0;
    while i < |argv|
      invariant i <= |argv| && Loop(world, argv, i, Seen(taken, positional)) == Loop(world, argv, 0, Seen([], []))
    {
      var arg := argv[i];
      if arg in INFORMING {
        return Stopped(0);
      } else if TakesValue(arg) && i + 1 < |argv| {
        i := i + 1;
        var refusal := Refusal(world, Valued(arg, argv[i]));
        if refusal.Some? {
          return Stopped(refusal.value);
        }
        taken := taken + [Valued(arg, argv[i])];
      } else if IsSwitch(arg) {
        taken := taken + [Switch(arg)];
      } else {
        positional := positional + [arg];
      }
      i := i + 1;
    }
    return Completed(Seen(taken, positional));
  }

  // ----- what happens after the loop -----

  datatype Action =
    | Usage
    | Exit(code: int)
    | Tool
    | Compare
    | MergeInputs
    | VerifyPassword(input: string)
    | Invoice(input: string)
    | Batch(input: string)
    | CheckFile(input: string)
    | ConvertFile(input: string, output: string)   // an empty output stands for the default name

  predicate Switched(taken: seq<Read>, flag: string) {
    exists i | 0 <= i < |taken| :: taken[i] == Switch(flag)
  }

  predicate Given(taken: seq<Read>, flag: string) {
    exists i | 0 <= i < |taken| :: taken[i].Valued? && taken[i].flag == flag
  }

  /** The value that an option was given last, or the empty string. */
  function LastGiven(taken: seq<Read>, flags: set<string>): string {
    if taken == [] then ""
    else
      var r := taken[|taken| - 1];
      if r.Valued? && r.flag in flags then r.value else LastGiven(taken[..|taken| - 1], flags)
  }

  /** A profile with content stands in for a level. */
  predicate ProfileLevel(world: World, taken: seq<Read>) {
    Given(taken, "--profile") && world.profileText(LastGiven(taken, {"--profile"}))
  }

  predicate BatchActive(taken: seq<Read>) {
    || Switched(taken, "--batch") || Switched(taken, "--recursive") || Switched(taken, "-r")
    || Switched(taken, "--watch")
    || Given(taken, "--jobs") || Given(taken, "-j") || LastGiven(taken, {"--out-dir", "-d"}) != ""
  }

  function Act(world: World, seen: Seen): Action {
    var taken, pos := seen.taken, seen.positional;
    var input, output := if |pos| > 0 then pos[0] else "", if |pos| > 1 then pos[1] else "";
    if Switched(taken, "--merge-inputs") && |pos| >= 2 then MergeInputs
    else if |pos| > 2 then Usage
    else if Switched(taken, "--verify-password") then
      if input == "" then Usage else VerifyPassword(input)
    else if Switched(taken, "--extract-invoice") || Switched(taken, "--check-invoice") then
      if input == "" then Usage else Invoice(input)
    else if !(Given(taken, "--level") || Given(taken, "--einvoice") || ProfileLevel(world, taken)) || input == ""
        then Usage
    else if BatchActive(taken) then
      if output != "" then Usage else Batch(input)
    else if Switched(taken, "--check") then
      if output != "" then Usage else CheckFile(input)
    else ConvertFile(input, output)
  }

  /** `main` on the arguments after the program name. */
  function Run(world: World, argv: seq<string>): Action {
    if argv != [] && argv[0] == "tool" then Tool
    else if |argv| >= 3 && argv[0] == "--compare" then Compare
    else match Loop(world, argv, 0, Seen([], []))
      case Stopped(code) => if code == EXIT_USAGE then Usage else Exit(code)
      case Completed(seen) => Act(world, seen)
  }
}
