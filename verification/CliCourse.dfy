/** The command line by the names of its options: what each argument is taken for, that a written
    command line is read as it was meant, and which course the program then takes. */
module CliCourse {
  import opened Optional
  import opened Jobs
  import opened Cli
  import opened Concatenation

  // ----- the options -----

  /** The options that take a value: those of jobs, those about colours and fonts, and the rest. */
  predicate JobOption(arg: string) {
    || arg in {"--level", "--profile", "--embed-source-name", "--raster-dpi", "--default-rgb", "--default-cmyk"}
    || arg in {"--default-gray", "--lang", "--password", "--output-condition", "--output-condition-info"}
    || arg in {"--registry", "--vt-records", "--dest-profile", "--attach-xml", "--attach-xml-name"}
    || arg in {"--facturx-profile", "--image-max-ppi"}
  }

  predicate ColorOption(arg: string) {
    || arg in {"--convert-colors", "--intent", "--convert-objects", "--rgb-gray-to-k", "--ink-limit", "--device-link"}
    || arg in {"--profile-url", "--icc-folder", "--font-folder", "--substitute", "--var", "--var-file", "--pages"}
    || arg in {"--hits-per-page", "--hits-per-doc", "--fallback-raster", "--fallback-pages", "--bookmarks"}
  }

  predicate OtherOption(arg: string) {
    || arg in {"--ocr-engine", "--sign", "--sign-password", "--sign-name", "--sign-reason", "--sign-location"}
    || arg in {"--out-dir", "-d", "--suffix", "-s", "--jobs", "-j", "--einvoice", "--trace"}
    || arg in {"--list-vars", "--list-profiles", "--report", "--report-dict", "--report-lang", "--job-id"}
  }

  predicate Option(arg: string) {
    JobOption(arg) || ColorOption(arg) || OtherOption(arg)
  }

  predicate SwitchName(arg: string) {
    || arg in {"--check", "--analyze", "--outline-fonts", "--ocr", "--extract-invoice", "--check-invoice"}
    || arg in {"--verify-password", "--embed-source", "--rasterize-pages", "--allow-visual-risk", "--ua", "--batch"}
    || arg in {"--recursive", "-r", "--watch", "--overwrite", "-w", "--visible-layers", "--dual", "--no-bpc"}
    || arg in {"--keep-spots", "--gray-to-k", "--merge-inputs", "--reconvert", "--fallback-no-text", "--quick", "-q"}
    || arg in {"--certify", "--only-pdfa"}
  }

  predicate Request(arg: string) {
    arg in {"--version", "-v", "--help", "-h"}
  }

  lemma OptionIff(arg: string)
    ensures TakesValue(arg) <==> Option(arg)
  {
    JobOptionIff(arg);
    ColorOptionIff(arg);
    OtherOptionIff(arg);
    hide JobOption, ColorOption, OtherOption, VALUED_JOB, VALUED_OUTPUT, VALUED_COLOR, VALUED_OTHER;
  }

  lemma JobOptionIff(arg: string)
    ensures arg in VALUED_JOB || arg in VALUED_OUTPUT <==> JobOption(arg)
  {
  }

  lemma ColorOptionIff(arg: string)
    ensures arg in VALUED_COLOR <==> ColorOption(arg)
  {
  }

  lemma OtherOptionIff(arg: string)
    ensures arg in VALUED_OTHER <==> OtherOption(arg)
  {
  }

  lemma SwitchIff(arg: string)
    ensures IsSwitch(arg) <==> SwitchName(arg)
  {
  }

  lemma RequestIff(arg: string)
    ensures arg in INFORMING <==> Request(arg)
  {
  }

  /** No switch takes a value, and neither asks for information. */
  lemma Apart(arg: string)
    ensures SwitchName(arg) ==> !Option(arg) && !Request(arg)
    ensures Option(arg) ==> !Request(arg)
  {
    SwitchNoJobOption(arg);
    SwitchNoColorOption(arg);
    SwitchNoOtherOption(arg);
    OptionNoRequest(arg);
    hide SwitchName, JobOption, ColorOption, OtherOption;
    assert SwitchName(arg) ==> !Request(arg);
  }

  lemma SwitchNoJobOption(arg: string)
    ensures SwitchName(arg) ==> !JobOption(arg) && !Request(arg)
  {
  }

  lemma SwitchNoColorOption(arg: string)
    ensures SwitchName(arg) ==> !ColorOption(arg)
  {
  }

  lemma SwitchNoOtherOption(arg: string)
    ensures SwitchName(arg) ==> !OtherOption(arg)
  {
  }

  lemma OptionNoRequest(arg: string)
    ensures JobOption(arg) || ColorOption(arg) || OtherOption(arg) ==> !Request(arg)
  {
  }

  // ----- a written command line -----

  /** What a user means: an option or a file name. */
  datatype Word = Opt(read: Read) | Pos(arg: string)

  ghost predicate Proper(w: Word) {
    match w
    case Opt(Switch(flag)) => SwitchName(flag)
    case Opt(Valued(flag, _)) => Option(flag)
    case Pos(arg) => !SwitchName(arg) && !Option(arg) && !Request(arg)
  }

  function Spelled(w: Word): seq<string> {
    match w
    case Opt(Switch(flag)) => [flag]
    case Opt(Valued(flag, value)) => [flag, value]
    case Pos(arg) => [arg]
  }

  function Line(ws: seq<Word>): seq<string> {
    if ws == [] then [] else Spelled(ws[0]) + Line(ws[1..])
  }

  function Opts(ws: seq<Word>): seq<Read> {
    if ws == [] then [] else (if ws[0].Opt? then [ws[0].read] else []) + Opts(ws[1..])
  }

  function Files(ws: seq<Word>): seq<string> {
    if ws == [] then [] else (if ws[0].Pos? then [ws[0].arg] else []) + Files(ws[1..])
  }

  /** How a written line goes on at its end: nothing more, a request for information with whatever
      comes after it, or an option that lacks its value. */
  datatype Tail = Nothing | Asking(arg: string, ignored: seq<string>) | Lacking(flag: string)

  ghost predicate ProperTail(t: Tail) {
    (t.Asking? ==> Request(t.arg)) && (t.Lacking? ==> Option(t.flag))
  }

  function TailLine(t: Tail): seq<string> {
    match t
    case Nothing => []
    case Asking(arg, ignored) => [arg] + ignored
    case Lacking(flag) => [flag]
  }

  /** What is read: the first refused value ends the program with its code, a request for information
      with 0; otherwise every option has its value and every other word is a file name, also an
      option at the end that lacks its value. */
  function Meaning(world: World, ws: seq<Word>, t: Tail): LoopEnd {
    match FirstRefusal(world, Opts(ws))
    case Some(code) => Stopped(code)
    case None =>
      match t
      case Nothing => Completed(Seen(Opts(ws), Files(ws)))
      case Asking(_, _) => Stopped(0)
      case Lacking(flag) => Completed(Seen(Opts(ws), Files(ws) + [flag]))
  }

  function Onward(seen: Seen, end: LoopEnd): LoopEnd {
    match end
    case Stopped(_) => end
    case Completed(more) => Completed(Seen(seen.taken + more.taken, seen.positional + more.positional))
  }

  ghost predicate LineAt(argv: seq<string>, i: nat, rest: seq<string>) {
    i <= |argv| && argv[i..] == rest
  }

  lemma LineNext(argv: seq<string>, i: nat, a: seq<string>, b: seq<string>)
    requires LineAt(argv, i, a + b)
    ensures LineAt(argv, i + |a|, b) && forall k | 0 <= k < |a| :: argv[i + k] == a[k]
  {
    assert argv[i..][|a|..] == b;
    assert forall k | 0 <= k < |a| :: argv[i + k] == argv[i..][k] == a[k];
  }

  lemma WordClass(arg: string)
    ensures TakesValue(arg) == Option(arg) && IsSwitch(arg) == SwitchName(arg)
    ensures (arg in INFORMING) == Request(arg)
    ensures SwitchName(arg) ==> !Option(arg) && !Request(arg)
    ensures Option(arg) ==> !Request(arg)
  {
    hide Option, SwitchName, Request, TakesValue, IsSwitch, INFORMING;
    OptionIff(arg);
    SwitchIff(arg);
    RequestIff(arg);
    Apart(arg);
  }

  lemma TailRead(world: World, argv: seq<string>, i: nat, t: Tail, seen: Seen)
    requires ProperTail(t) && LineAt(argv, i, TailLine(t))
    ensures Loop(world, argv, i, seen) == Onward(seen, Meaning(world, [], t))
  {
    hide Option, SwitchName, Request, TakesValue, IsSwitch, INFORMING;
    assert |argv| - i == |TailLine(t)|;
    if t.Nothing? {
      assert Seen(seen.taken + [], seen.positional + []) == seen;
    } else {
      var arg := TailLine(t)[0];
      assert argv[i..][0] == arg;
      WordClass(arg);
      if t.Lacking? {
        LackingRead(world, argv, i, seen);
      }
    }
  }

  lemma LackingRead(world: World, argv: seq<string>, i: nat, seen: Seen)
    requires i + 1 == |argv| && Option(argv[i])
    ensures Loop(world, argv, i, seen) == Completed(AddPositional(seen, argv[i]))
    ensures AddPositional(seen, argv[i]) == Seen(seen.taken + [], seen.positional + ([] + [argv[i]]))
  {
    hide Option, SwitchName, Request, TakesValue, IsSwitch, INFORMING;
    WordClass(argv[i]);
    var next := AddPositional(seen, argv[i]);
    assert Loop(world, argv, i + 1, next) == Completed(next);
  }

  /** Every command line that is written from options and file names, in any order, is read as it
      was meant. */
  lemma {:induction false} LineRead(world: World, argv: seq<string>, i: nat, ws: seq<Word>, t: Tail, seen: Seen)
    requires (forall w <- ws :: Proper(w)) && ProperTail(t) && LineAt(argv, i, Line(ws) + TailLine(t))
    ensures Loop(world, argv, i, seen) == Onward(seen, Meaning(world, ws, t))
    decreases |ws|
  {
    hide Option, SwitchName, Request, TakesValue, IsSwitch, INFORMING, Refusal, Loop, TailLine, Meaning, Onward,
      Proper, Spelled, After, LineAt;
    if ws == [] {
      assert Line(ws) + TailLine(t) == TailLine(t);
      TailRead(world, argv, i, t, seen);
    } else {
      var w, rest := ws[0], Line(ws[1..]) + TailLine(t);
      assert Proper(w);
      Assoc(Spelled(w), Line(ws[1..]), TailLine(t));
      LineNext(argv, i, Spelled(w), rest);
      LineInside(argv, i + |Spelled(w)|, rest);
      WordRead(world, argv, i, w, seen);
      if !(w.Opt? && Refusal(world, w.read).Some?) {
        LineRead(world, argv, i + |Spelled(w)|, ws[1..], t, After(seen, w));
        OnwardStep(world, seen, ws, t);
      } else {
        RefusedFirst(world, seen, ws, t);
      }
    }
  }

  lemma LineInside(argv: seq<string>, i: nat, rest: seq<string>)
    requires LineAt(argv, i, rest)
    ensures i <= |argv|
  {
  }

  function After(seen: Seen, w: Word): Seen {
    if w.Opt? then AddRead(seen, w.read) else AddPositional(seen, w.arg)
  }

  lemma WordRead(world: World, argv: seq<string>, i: nat, w: Word, seen: Seen)
    requires Proper(w) && i + |Spelled(w)| <= |argv|
    requires forall k | 0 <= k < |Spelled(w)| :: argv[i + k] == Spelled(w)[k]
    ensures Loop(world, argv, i, seen) ==
            if w.Opt? && Refusal(world, w.read).Some? then Stopped(Refusal(world, w.read).value)
            else Loop(world, argv, i + |Spelled(w)|, After(seen, w))
  {
    hide Option, SwitchName, Request, TakesValue, IsSwitch, INFORMING;
    assert argv[i + 0] == Spelled(w)[0];
    WordClass(argv[i]);
    if |Spelled(w)| == 2 {
      assert argv[i + 1] == Spelled(w)[1];
    }
  }

  lemma OptsCons(ws: seq<Word>)
    requires ws != []
    ensures ws[0].Opt? ==> Opts(ws) == [ws[0].read] + Opts(ws[1..]) && Files(ws) == Files(ws[1..])
    ensures ws[0].Pos? ==> Opts(ws) == Opts(ws[1..]) && Files(ws) == [ws[0].arg] + Files(ws[1..])
  {
  }

  lemma RefusalCons(world: World, r: Read, rest: seq<Read>)
    ensures FirstRefusal(world, [r] + rest) ==
            if Refusal(world, r).Some? then Refusal(world, r) else FirstRefusal(world, rest)
  {
    hide Refusal;
    assert ([r] + rest)[0] == r && ([r] + rest)[1..] == rest;
  }

  lemma RefusedFirst(world: World, seen: Seen, ws: seq<Word>, t: Tail)
    requires ws != [] && ws[0].Opt? && Refusal(world, ws[0].read).Some?
    ensures Onward(seen, Meaning(world, ws, t)) == Stopped(Refusal(world, ws[0].read).value)
  {
    hide Refusal, Opts, Files, FirstRefusal;
    OptsCons(ws);
    RefusalCons(world, ws[0].read, Opts(ws[1..]));
  }

  lemma OnwardStep(world: World, seen: Seen, ws: seq<Word>, t: Tail)
    requires ws != [] && !(ws[0].Opt? && Refusal(world, ws[0].read).Some?)
    ensures Onward(After(seen, ws[0]), Meaning(world, ws[1..], t)) == Onward(seen, Meaning(world, ws, t))
  {
    hide Refusal, Opts, Files, FirstRefusal;
    var w, opts, files := ws[0], Opts(ws[1..]), Files(ws[1..]);
    OptsCons(ws);
    if w.Opt? {
      RefusalCons(world, w.read, opts);
      Assoc(seen.taken, [w.read], opts);
    } else {
      Assoc(seen.positional, [w.arg], files);
      if t.Lacking? {
        Assoc([w.arg], files, [t.flag]);
        Assoc(seen.positional, [w.arg], files + [t.flag]);
      }
    }
  }

  lemma CommandLineRead(world: World, ws: seq<Word>, t: Tail)
    requires (forall w <- ws :: Proper(w)) && ProperTail(t)
    ensures Loop(world, Line(ws) + TailLine(t), 0, Seen([], [])) == Meaning(world, ws, t)
  {
    hide Proper, Loop, ProperTail;
    var argv := Line(ws) + TailLine(t);
    assert argv[0..] == argv;
    LineRead(world, argv, 0, ws, t, Seen([], []));
    var end := Meaning(world, ws, t);
    if end.Completed? {
      assert [] + end.seen.taken == end.seen.taken && [] + end.seen.positional == end.seen.positional;
    }
  }

  /** Every command line is written that way. */
  lemma {:induction false} EveryLine(argv: seq<string>) returns (ws: seq<Word>, t: Tail)
    ensures (forall w <- ws :: Proper(w)) && ProperTail(t) && argv == Line(ws) + TailLine(t)
    decreases |argv|
  {
    hide Option, SwitchName, Request;
    if argv == [] {
      ws, t := [], Nothing;
    } else if Request(argv[0]) {
      ws, t := [], Asking(argv[0], argv[1..]);
    } else if Option(argv[0]) && |argv| == 1 {
      ws, t := [], Lacking(argv[0]);
    } else {
      var w := if Option(argv[0]) then Opt(Valued(argv[0], argv[1]))
               else if SwitchName(argv[0]) then Opt(Switch(argv[0])) else Pos(argv[0]);
      var n := |Spelled(w)|;
      var more;
      more, t := EveryLine(argv[n..]);
      ws := [w] + more;
      assert argv == Spelled(w) + argv[n..];
      assert ws[1..] == more;
      Assoc(Spelled(w), Line(more), TailLine(t));
    }
  }

  // ----- refused values -----

  /** A level is read against the list of levels, and the checked options by what they find; no
      other option is refused. */
  lemma RefusalIs(world: World, flag: string, value: string)
    ensures Refusal(world, Switch(flag)) == None
    ensures flag == "--level" ==>
              Refusal(world, Valued(flag, value)) ==
              if value == "ua1" || LevelName(value) then None else Some(64)
    ensures Checked(flag) ==> Refusal(world, Valued(flag, value)) == world.refuses(flag, value)
    ensures flag != "--level" && !Checked(flag) ==> Refusal(world, Valued(flag, value)) == None
  {
    LevelNameIff(value);
    CheckedIff(flag);
    hide LevelName, Checked, CHECKED, LEVELS, CHECK_ONLY;
  }

  predicate LevelName(l: string) {
    || l in {"1b", "1a", "2b", "2u", "2a", "3b", "3u", "3a", "4", "4f", "4e", "x1a", "x3", "x4", "x6", "e1"}
    || l in {"vt1", "vt3", "x4p", "x5g", "x5n", "x5pg", "x6n", "x6p", "vt2"}
  }

  predicate Checked(flag: string) {
    || flag in {"--profile", "--raster-dpi", "--substitute", "--default-rgb", "--default-cmyk", "--default-gray"}
    || flag in {"--dest-profile", "--einvoice", "--attach-xml", "--image-max-ppi", "--intent", "--convert-objects"}
    || flag in {"--ink-limit", "--device-link", "--var", "--var-file", "--fallback-raster", "--fallback-pages"}
    || flag in {"--bookmarks", "--trace", "--list-vars", "--list-profiles"}
  }

  lemma LevelNameIff(l: string)
    ensures l in LEVELS || l in CHECK_ONLY <==> LevelName(l)
  {
  }

  lemma CheckedIff(flag: string)
    ensures flag in CHECKED <==> Checked(flag)
    ensures flag == "--level" ==> !Checked(flag)
  {
  }

  // ----- the course -----

  ghost predicate On(seen: Seen, flag: string) {
    Switch(flag) in seen.taken
  }

  ghost predicate With(seen: Seen, flag: string) {
    exists i | 0 <= i < |seen.taken| :: seen.taken[i].Valued? && seen.taken[i].flag == flag
  }

  /** The last value that one of two options was given, "" if none was. */
  ghost predicate LastValue(seen: Seen, a: string, b: string, v: string) {
    if !With(seen, a) && !With(seen, b) then v == ""
    else exists i | 0 <= i < |seen.taken| ::
      && seen.taken[i].Valued? && seen.taken[i].flag in {a, b} && seen.taken[i].value == v
      && forall j | i < j < |seen.taken| :: !(seen.taken[j].Valued? && seen.taken[j].flag in {a, b})
  }

  lemma {:induction false} LastGivenIs(taken: seq<Read>, files: seq<string>, a: string, b: string)
    ensures LastValue(Seen(taken, files), a, b, LastGiven(taken, {a, b}))
  {
    if taken != [] {
      var n := |taken| - 1;
      var front := taken[..n];
      LastGivenIs(front, files, a, b);
      if taken[n].Valued? && taken[n].flag in {a, b} {
        assert taken[n].flag == a || taken[n].flag == b;
      } else {
        hide With, LastValue;
        assert front + [taken[n]] == taken;
        LastValueKept(front, files, a, b, taken[n], LastGiven(front, {a, b}));
      }
    }
  }

  lemma WithKept(front: seq<Read>, files: seq<string>, r: Read, flag: string)
    requires !(r.Valued? && r.flag == flag)
    ensures With(Seen(front + [r], files), flag) <==> With(Seen(front, files), flag)
  {
    var all := front + [r];
    assert forall i | 0 <= i < |front| :: all[i] == front[i];
  }

  lemma LastValueKept(front: seq<Read>, files: seq<string>, a: string, b: string, r: Read, v: string)
    requires LastValue(Seen(front, files), a, b, v) && !(r.Valued? && r.flag in {a, b})
    ensures LastValue(Seen(front + [r], files), a, b, v)
  {
    hide With;
    WithKept(front, files, r, a);
    WithKept(front, files, r, b);
    var all := front + [r];
    assert forall i | 0 <= i < |front| :: all[i] == front[i];
  }

  /** A level was named, an invoice was given, or a profile with content stands in for a level. */
  ghost predicate LevelKnown(world: World, seen: Seen) {
    || With(seen, "--level") || With(seen, "--einvoice")
    || (With(seen, "--profile") && world.profileText(LastGiven(seen.taken, {"--profile"})))
  }

  /** Several inputs at once: by a switch, by a number of jobs, or by naming an output directory. */
  ghost predicate Several(seen: Seen) {
    || On(seen, "--batch") || On(seen, "--recursive") || On(seen, "-r") || On(seen, "--watch")
    || With(seen, "--jobs") || With(seen, "-j") || LastGiven(seen.taken, {"--out-dir", "-d"}) != ""
  }

  /** The course for every command line without refused values. */
  lemma CourseIs(world: World, seen: Seen)
    ensures var n := |seen.positional|;
            var input, output := if n > 0 then seen.positional[0] else "", if n > 1 then seen.positional[1] else "";
            Act(world, seen) ==
            if n >= 2 && On(seen, "--merge-inputs") then MergeInputs
            else if n > 2 || input == "" then Usage
            else if On(seen, "--verify-password") then VerifyPassword(input)
            else if On(seen, "--extract-invoice") || On(seen, "--check-invoice") then Invoice(input)
            else if !LevelKnown(world, seen) then Usage
            else if !Several(seen) && !On(seen, "--check") then ConvertFile(input, output)
            else if output != "" then Usage
            else if Several(seen) then Batch(input) else CheckFile(input)
  {
    hide LastGiven;
  }

  /** The program on a written command line: a tool, a comparison of two files, or the course of what
      was read; exit code 64 stands for a usage error. */
  lemma ProgramCourse(world: World, ws: seq<Word>, t: Tail)
    requires (forall w <- ws :: Proper(w)) && ProperTail(t)
    ensures var argv := Line(ws) + TailLine(t);
            Run(world, argv) ==
            if argv != [] && argv[0] == "tool" then Tool
            else if argv != [] && argv[0] == "--compare" && |argv| > 2 then Compare
            else match Meaning(world, ws, t)
              case Stopped(code) => if code == 64 then Usage else Exit(code)
              case Completed(seen) => Act(world, seen)
  {
    hide Loop, Act, Meaning, Proper, ProperTail, Line, TailLine;
    CommandLineRead(world, ws, t);
  }
}
