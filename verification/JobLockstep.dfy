/** The engine's argument loop reads an accepted job the way the validator did. */
module JobLockstep {
  import opened Optional
  import opened Jobs
  import opened Cli

  // ----- the flags of a job on the command line -----

  lemma SwitchFlags(k: nat)
    requires k < TEXT_START
    ensures IsSwitch(FLAGS[k]) && !TakesValue(FLAGS[k]) && FLAGS[k] !in INFORMING
  {
  }

  lemma ValuedFlags(k: nat)
    requires TEXT_START <= k < FLAG_COUNT
    ensures TakesValue(FLAGS[k]) && FLAGS[k] !in INFORMING
  {
  }

  lemma HeadFlags()
    ensures IsSwitch("--check") && !TakesValue("--check") && "--check" !in INFORMING
    ensures IsSwitch("--verify-password") && !TakesValue("--verify-password") && "--verify-password" !in INFORMING
    ensures TakesValue("--level") && "--level" !in INFORMING
    ensures TakesValue("--password") && "--password" !in INFORMING
  {
  }

  /** No option contains a dot, so no path to a file of a job is taken for one. */
  lemma DotlessInforming(s: string)
    requires '.' in s
    ensures s !in INFORMING
  {
  }

  lemma DotlessJobSwitches(s: string)
    requires '.' in s
    ensures s !in JOB_SWITCHES
  {
  }

  lemma DotlessOtherSwitches(s: string)
    requires '.' in s
    ensures s !in OTHER_SWITCHES
  {
  }

  lemma DotlessSwitches(s: string)
    requires '.' in s
    ensures !IsSwitch(s)
  {
    hide JOB_SWITCHES, OTHER_SWITCHES;
    DotlessJobSwitches(s);
    DotlessOtherSwitches(s);
  }

  lemma DotlessJob(s: string)
    requires '.' in s
    ensures s !in VALUED_JOB
  {
  }

  lemma DotlessOutput(s: string)
    requires '.' in s
    ensures s !in VALUED_OUTPUT
  {
  }

  lemma DotlessColor(s: string)
    requires '.' in s
    ensures s !in VALUED_COLOR
  {
  }

  lemma DotlessOther(s: string)
    requires '.' in s
    ensures s !in VALUED_OTHER
  {
  }

  lemma DotlessValued(s: string)
    requires '.' in s
    ensures !TakesValue(s)
  {
    hide VALUED_JOB, VALUED_OUTPUT, VALUED_COLOR, VALUED_OTHER;
    DotlessJob(s);
    DotlessOutput(s);
    DotlessColor(s);
    DotlessOther(s);
  }

  lemma PathHasDot(dir: string, name: string)
    requires '.' in name
    ensures '.' in PathJoin(dir, name) && PathJoin(dir, name) != ""
  {
    var p := PathJoin(dir, name);
    assert p[|p| - |name|..] == name;
    var k :| 0 <= k < |name| && name[k] == '.';
    assert p[|p| - |name| + k] == '.';
  }

  // ----- resolved paths -----

  const JOB_FILES: set<string> := {
    "attachment.xml", "dest.icc", "rgb.icc", "cmyk.icc", "gray.icc", "profile.json", "in.pdf", "in.jpg"}

  /** The arguments that occur in accepted jobs. */
  predicate Known(a: Arg) {
    match a
    case Lit(_) => true
    case File(n) => n in JOB_FILES
    case Out(n) => n == "out.pdf"
    case Profile(_) => true
  }

  lemma OptionKnown(site: Site, args: seq<Arg>, i: nat)
    requires LitAt(args, i) && ReadOption(site, args, i).Next?
    ensures forall k | i <= k < ReadOption(site, args, i).i :: Known(args[k])
  {
    hide FLAGS, FlagIndex, ValueOk, PasswordOk, LibraryProfile;
    FlagsDistinct();
    FileNamesKnown();
  }

  lemma FileNamesKnown()
    ensures |FILE_NAMES| == 5 && forall k | 0 <= k < 5 :: FILE_NAMES[k] in JOB_FILES
  {
  }

  lemma {:induction false} OptionsKnown(site: Site, args: seq<Arg>, i: nat, seen: set<string>)
    requires i <= |args| && Options(site, args, i, seen).Next?
    ensures forall k | i <= k < Options(site, args, i, seen).i :: Known(args[k])
    decreases |args| - i
  {
    hide ReadOption, Known;
    if LitAt(args, i) {
      OptionKnown(site, args, i);
      OptionsKnown(site, args, ReadOption(site, args, i).i, seen + {args[i].text});
    }
  }

  lemma AcceptedKnown(kind: Kind, site: Site, args: seq<Arg>, k: nat)
    requires Validate(kind, args, site).Accepted? && k < |args|
    ensures Known(args[k])
  {
    hide Options, LevelOk, PasswordOk;
    if kind != Verify {
      OptionsKnown(site, args, HeadLength(kind), {});
    }
  }

  /** In an accepted job every file or profile resolves to a path below its directory, and no such
      path is an option of the engine. */
  lemma PathsAreNoOptions(kind: Kind, site: Site, args: seq<Arg>, dir: string, profiles: string, k: nat)
    requires Validate(kind, args, site).Accepted? && k < |args| && !args[k].Lit?
    ensures var path := Resolve(args, dir, profiles)[k];
            && (if args[k].Profile? then profiles else dir) <= path
            && !IsSwitch(path) && !TakesValue(path) && path !in INFORMING
  {
    hide Validate, IsSwitch, TakesValue, INFORMING;
    AcceptedKnown(kind, site, args, k);
    var path := Resolve(args, dir, profiles)[k];
    match args[k] {
      case File(n) =>
        FileHasDot(n);
        PathHasDot(dir, n);
      case Out(n) =>
        assert n[3] == '.';
        PathHasDot(dir, n);
      case Profile(id) =>
        assert (id + ".json")[|id|] == '.';
        PathHasDot(profiles, id + ".json");
    }
    DotlessSwitches(path);
    DotlessValued(path);
    DotlessInforming(path);
  }

  lemma FileHasDot(n: string)
    requires n in JOB_FILES
    ensures '.' in n
  {
    assert n[|n| - 4] == '.' || n[|n| - 5] == '.';
  }

  // ----- lockstep -----

  /** What the engine should read from the options of a job: each flag as itself, with the argument
      behind it as its value exactly where the validator took one. */
  function OptionReads(site: Site, args: seq<Arg>, argv: seq<string>, i: nat): seq<Read>
    requires |argv| == |args| && i <= |args|
    decreases |args| - i
  {
    if !LitAt(args, i) then []
    else
      var r := ReadOption(site, args, i);
      if r.Stop? then []
      else
        [if r.i == i + 1 then Switch(argv[i]) else Valued(argv[i], argv[r.i - 1])] +
        OptionReads(site, args, argv, r.i)
  }

  /** Continuing after some reads: stop at the first refusal, otherwise go on with all of them. */
  ghost predicate Continues(world: World, argv: seq<string>, i: nat, seen: Seen, taken: seq<Read>, j: nat)
    requires i <= |argv| && j <= |argv|
  {
    var stop := FirstRefusal(world, taken);
    Loop(world, argv, i, seen) ==
    if stop.Some? then Stopped(stop.value) else Loop(world, argv, j, seen.(taken := seen.taken + taken))
  }

  lemma OptionStep(world: World, site: Site, args: seq<Arg>, argv: seq<string>, i: nat, seen: Seen)
    requires |argv| == |args| && LitAt(args, i) && argv[i] == args[i].text && ReadOption(site, args, i).Next?
    ensures var j := ReadOption(site, args, i).i;
            var r := if j == i + 1 then Switch(argv[i]) else Valued(argv[i], argv[j - 1]);
            Loop(world, argv, i, seen) ==
            if Refusal(world, r).Some? then Stopped(Refusal(world, r).value) else Loop(world, argv, j, AddRead(seen, r))
  {
    hide FLAGS, TakesValue, IsSwitch, INFORMING, FlagIndex, ValueOk, PasswordOk, LibraryProfile, Present, FILE_NAMES;
    var k := FlagIndex(args[i].text);
    FlagsDistinct();
    if k < TEXT_START {
      SwitchFlags(k);
    } else {
      ValuedFlags(k);
    }
  }

  lemma {:induction false} OptionsLockstep(world: World, site: Site, args: seq<Arg>, argv: seq<string>, i: nat,
      flags: set<string>, seen: Seen)
    requires |argv| == |args| && i <= |args| && Options(site, args, i, flags).Next?
    requires forall k | 0 <= k < |args| :: args[k].Lit? ==> argv[k] == args[k].text
    ensures Continues(world, argv, i, seen, OptionReads(site, args, argv, i), Options(site, args, i, flags).i)
    decreases |args| - i
  {
    hide ReadOption, Loop, Refusal;
    if !LitAt(args, i) {
      assert seen.taken + [] == seen.taken;
    } else {
      var j := ReadOption(site, args, i).i;
      var r := if j == i + 1 then Switch(argv[i]) else Valued(argv[i], argv[j - 1]);
      var rest := OptionReads(site, args, argv, j);
      OptionStep(world, site, args, argv, i, seen);
      OptionsLockstep(world, site, args, argv, j, flags + {args[i].text}, AddRead(seen, r));
      var all := [r] + rest;
      assert all[0] == r && all[1..] == rest;
      assert (seen.taken + [r]) + rest == seen.taken + all;
    }
  }

  // ----- whole jobs -----

  function HeadReads(kind: Kind, argv: seq<string>): seq<Read>
    requires |argv| >= HeadLength(kind)
  {
    if kind == Check then [Switch("--check"), Valued("--level", argv[2])] else [Valued("--level", argv[1])]
  }

  /** Everything the engine should read from an accepted job. */
  function JobReads(kind: Kind, site: Site, args: seq<Arg>, argv: seq<string>): seq<Read>
    requires |argv| == |args| && Validate(kind, args, site).Accepted?
  {
    if kind == Verify then
      if IsLit(args, 1, "--password") then [Switch("--verify-password"), Valued("--password", argv[2])]
      else [Switch("--verify-password")]
    else HeadReads(kind, argv) + OptionReads(site, args, argv, HeadLength(kind))
  }

  function JobPositional(kind: Kind, argv: seq<string>): seq<string>
    requires |argv| >= 2
  {
    if kind == Convert then [argv[|argv| - 2], argv[|argv| - 1]] else [argv[|argv| - 1]]
  }

  /** An argument with a dot is taken for a positional one. */
  lemma PositionalStep(world: World, argv: seq<string>, i: nat, seen: Seen)
    requires i < |argv| && '.' in argv[i]
    ensures Loop(world, argv, i, seen) == Loop(world, argv, i + 1, AddPositional(seen, argv[i]))
  {
    hide TakesValue, IsSwitch, INFORMING;
    DotlessInforming(argv[i]);
    DotlessSwitches(argv[i]);
    DotlessValued(argv[i]);
  }

  lemma LoopEnds(world: World, argv: seq<string>, seen: Seen)
    ensures Loop(world, argv, |argv|, seen) == Completed(seen)
  {
  }

  lemma InputHasDot(kind: Kind, site: Site, args: seq<Arg>, i: nat)
    requires Ending(kind, site, args, i).Accepted?
    ensures i < |args| && args[i].File? && '.' in args[i].name
  {
    assert "in.pdf"[2] == '.' && "in.jpg"[2] == '.';
  }

  /** The input and the output at the end of a job are positional arguments. */
  lemma EndingLockstep(world: World, kind: Kind, site: Site, args: seq<Arg>, dir: string, profiles: string, i: nat,
      seen: Seen)
    requires Ending(kind, site, args, i).Accepted? && seen.positional == [] && i >= 1
    ensures var argv := Resolve(args, dir, profiles);
            && i < |argv|
            && Loop(world, argv, i, seen) == Completed(seen.(positional := JobPositional(kind, argv)))
            && (forall p <- JobPositional(kind, argv) :: p != "")
  {
    hide Loop, PathJoin;
    var argv := Resolve(args, dir, profiles);
    InputHasDot(kind, site, args, i);
    PathHasDot(dir, args[i].name);
    PositionalStep(world, argv, i, seen);
    if kind == Convert {
      assert "out.pdf"[3] == '.';
      PathHasDot(dir, "out.pdf");
      PositionalStep(world, argv, i + 1, AddPositional(seen, argv[i]));
      LoopEnds(world, argv, AddPositional(AddPositional(seen, argv[i]), argv[i + 1]));
    } else {
      LoopEnds(world, argv, AddPositional(seen, argv[i]));
    }
  }

  lemma LevelPasses(world: World, kind: Kind, level: string)
    requires LevelOk(kind, level)
    ensures Refusal(world, Valued("--level", level)) == None
  {
    hide LEVELS, CHECK_ONLY, CHECKED;
  }

  /** The head of a check or conversion job. */
  lemma HeadLockstep(world: World, kind: Kind, argv: seq<string>, level: string)
    requires kind != Verify && |argv| > HeadLength(kind) && LevelOk(kind, level)
    requires kind == Check ==> argv[..3] == ["--check", "--level", level]
    requires kind == Convert ==> argv[..2] == ["--level", level]
    ensures Loop(world, argv, 0, Seen([], [])) == Loop(world, argv, HeadLength(kind), Seen(HeadReads(kind, argv), []))
    ensures FirstRefusal(world, HeadReads(kind, argv)) == None
  {
    hide TakesValue, IsSwitch, INFORMING, CHECKED, LevelOk, Refusal;
    HeadFlags();
    LevelPasses(world, kind, level);
    SwitchPasses(world, "--check");
    if kind == Check {
      assert argv[0] == argv[..3][0] && argv[1] == argv[..3][1] && argv[2] == argv[..3][2];
      RefusalTwo(world, Switch("--check"), Valued("--level", level));
      var s := AddRead(Seen([], []), Switch("--check"));
      assert Loop(world, argv, 0, Seen([], [])) == Loop(world, argv, 1, s);
      assert Loop(world, argv, 1, s) == Loop(world, argv, 3, AddRead(s, Valued("--level", level)));
      assert AddRead(s, Valued("--level", level)).taken == HeadReads(kind, argv);
    } else {
      assert argv[0] == argv[..2][0] && argv[1] == argv[..2][1];
      RefusalOne(world, Valued("--level", level));
      var s := AddRead(Seen([], []), Valued("--level", level));
      assert Loop(world, argv, 0, Seen([], [])) == Loop(world, argv, 2, s);
      assert s.taken == HeadReads(kind, argv);
    }
  }

  lemma RefusalOne(world: World, a: Read)
    requires Refusal(world, a).None?
    ensures FirstRefusal(world, [a]) == None
  {
    hide Refusal;
    assert [a][1..] == [];
    assert FirstRefusal(world, []) == None;
  }

  lemma RefusalTwo(world: World, a: Read, b: Read)
    requires Refusal(world, a).None? && Refusal(world, b).None?
    ensures FirstRefusal(world, [a, b]) == None
  {
    hide Refusal;
    RefusalOne(world, b);
    assert [a, b][1..] == [b];
  }

  lemma SwitchPasses(world: World, flag: string)
    ensures Refusal(world, Switch(flag)) == None
  {
  }

  lemma {:induction false} RefusalAppend(world: World, a: seq<Read>, b: seq<Read>)
    requires FirstRefusal(world, a).None?
    ensures FirstRefusal(world, a + b) == FirstRefusal(world, b)
  {
    hide Refusal;
    if a == [] {
      assert a + b == b;
    } else {
      assert (a + b)[1..] == a[1..] + b;
      RefusalAppend(world, a[1..], b);
    }
  }

  lemma VerifyLockstep(world: World, site: Site, args: seq<Arg>, dir: string, profiles: string)
    requires Validate(Verify, args, site).Accepted?
    ensures var argv := Resolve(args, dir, profiles);
            Loop(world, argv, 0, Seen([], [])) ==
            Completed(Seen(JobReads(Verify, site, args, argv), JobPositional(Verify, argv)))
    ensures FirstRefusal(world, JobReads(Verify, site, args, Resolve(args, dir, profiles))) == None
    ensures forall p <- JobPositional(Verify, Resolve(args, dir, profiles)) :: p != ""
  {
    hide TakesValue, IsSwitch, INFORMING, PasswordOk, Refusal;
    var argv := Resolve(args, dir, profiles);
    HeadFlags();
    SwitchPasses(world, "--verify-password");
    var s := AddRead(Seen([], []), Switch("--verify-password"));
    assert Loop(world, argv, 0, Seen([], [])) == Loop(world, argv, 1, s);
    if IsLit(args, 1, "--password") {
      PasswordPasses(world, argv[2]);
      var r := Valued("--password", argv[2]);
      assert Loop(world, argv, 1, s) == Loop(world, argv, 3, AddRead(s, r));
      EndingLockstep(world, Verify, site, args, dir, profiles, 3, AddRead(s, r));
      RefusalTwo(world, Switch("--verify-password"), r);
    } else {
      EndingLockstep(world, Verify, site, args, dir, profiles, 1, s);
      RefusalOne(world, Switch("--verify-password"));
    }
  }

  lemma PasswordPasses(world: World, value: string)
    ensures Refusal(world, Valued("--password", value)) == None
  {
  }

  /** For every job that the validator accepts: the engine's loop reads each flag as that flag and
      each value as its value, and unless a file or range check stops it, it ends with exactly the
      input, or the input and the output, as positional arguments. */
  lemma JobIsReadAsMeant(world: World, kind: Kind, site: Site, args: seq<Arg>, dir: string, profiles: string)
    requires Validate(kind, args, site).Accepted?
    ensures var argv := Resolve(args, dir, profiles);
            var taken := JobReads(kind, site, args, argv);
            Loop(world, argv, 0, Seen([], [])) ==
            match FirstRefusal(world, taken)
            case Some(code) => Stopped(code)
            case None => Completed(Seen(taken, JobPositional(kind, argv)))
    ensures forall p <- JobPositional(kind, Resolve(args, dir, profiles)) :: p != ""
  {
    hide Loop, Options, OptionReads, LevelOk, Ending, HeadReads, FirstRefusal;
    var argv := Resolve(args, dir, profiles);
    if kind == Verify {
      VerifyLockstep(world, site, args, dir, profiles);
    } else {
      var h := HeadLength(kind);
      var level := args[h - 1].text;
      var end := Options(site, args, h, {}).i;
      assert Ending(kind, site, args, end).Accepted?;
      assert end >= h;
      EndIsInside(kind, site, args, end);
      assert kind == Check ==> argv[..3] == ["--check", "--level", level];
      assert kind == Convert ==> argv[..2] == ["--level", level];
      HeadLockstep(world, kind, argv, level);
      var head, opts := HeadReads(kind, argv), OptionReads(site, args, argv, h);
      RefusalAppend(world, head, opts);
      OptionsLockstep(world, site, args, argv, h, {}, Seen(head, []));
      EndingLockstep(world, kind, site, args, dir, profiles, end, Seen(head + opts, []));
    }
  }

  lemma EndIsInside(kind: Kind, site: Site, args: seq<Arg>, i: nat)
    requires Ending(kind, site, args, i).Accepted?
    ensures i < |args|
  {
  }

  // ----- what the engine then does -----

  /** Every flag read from the options of a job is one of the table. */
  lemma {:induction false} OptionFlags(site: Site, args: seq<Arg>, argv: seq<string>, i: nat, flags: set<string>)
    requires |argv| == |args| && i <= |args| && Options(site, args, i, flags).Next?
    requires forall k | 0 <= k < |args| :: args[k].Lit? ==> argv[k] == args[k].text
    ensures forall r <- OptionReads(site, args, argv, i) :: r.flag in FLAGS
    decreases |args| - i
  {
    hide FLAGS, FlagIndex, ValueOk, PasswordOk, LibraryProfile, Present, FILE_NAMES;
    if LitAt(args, i) {
      var j := ReadOption(site, args, i).i;
      FlagsDistinct();
      assert FLAGS[FlagIndex(args[i].text)] == args[i].text;
      OptionFlags(site, args, argv, j, flags + {args[i].text});
    }
  }

  /** Flags that change the course of the program and that no job can carry. */
  const FOREIGN: set<string> := {
    "--merge-inputs", "--extract-invoice", "--check-invoice", "--batch", "--recursive", "-r", "--watch", "--jobs", "-j",
    "--out-dir", "-d", "--verify-password"}

  lemma ForeignSwitch(k: nat)
    requires k < TEXT_START
    ensures FLAGS[k] !in FOREIGN
  {
  }

  lemma ForeignText(k: nat)
    requires TEXT_START <= k < PASSWORD_AT
    ensures FLAGS[k] !in FOREIGN
  {
  }

  lemma ForeignFile(k: nat)
    requires PASSWORD_AT <= k < FLAG_COUNT
    ensures FLAGS[k] !in FOREIGN
  {
  }

  lemma ForeignHead()
    ensures "--check" !in FOREIGN && "--level" !in FOREIGN
  {
  }

  lemma ForeignFlags(f: string)
    requires f in FLAGS || f == "--check" || f == "--level"
    ensures f !in FOREIGN
  {
    hide FLAGS, FOREIGN;
    FlagsDistinct();
    if f in FLAGS {
      var k :| 0 <= k < |FLAGS| && FLAGS[k] == f;
      if k < TEXT_START {
        ForeignSwitch(k);
      } else if k < PASSWORD_AT {
        ForeignText(k);
      } else {
        ForeignFile(k);
      }
    } else {
      ForeignHead();
    }
  }

  lemma CheckIsNoOption()
    ensures "--check" !in FLAGS
  {
  }

  lemma {:induction false} NothingGiven(taken: seq<Read>, flags: set<string>)
    requires forall r <- taken :: r.flag !in flags
    ensures LastGiven(taken, flags) == ""
  {
    if taken != [] {
      NothingGiven(taken[..|taken| - 1], flags);
    }
  }

  lemma NoForeign(taken: seq<Read>)
    requires forall r <- taken :: r.flag !in FOREIGN
    ensures forall f <- FOREIGN :: !Switched(taken, f) && !Given(taken, f)
    ensures LastGiven(taken, {"--out-dir", "-d"}) == "" && !BatchActive(taken)
  {
    hide LastGiven;
    NothingGiven(taken, {"--out-dir", "-d"});
  }

  /** The action of a job. */
  function Meant(kind: Kind, argv: seq<string>): Action
    requires |argv| >= 2
  {
    match kind
    case Verify => VerifyPassword(argv[|argv| - 1])
    case Check => CheckFile(argv[|argv| - 1])
    case Convert => ConvertFile(argv[|argv| - 2], argv[|argv| - 1])
  }

  /** A check or conversion job decides for its file. */
  lemma FileAction(world: World, taken: seq<Read>, kind: Kind, argv: seq<string>)
    requires kind != Verify && |argv| >= 2 && forall p <- JobPositional(kind, argv) :: p != ""
    requires !Switched(taken, "--merge-inputs") && !Switched(taken, "--verify-password")
    requires !Switched(taken, "--extract-invoice") && !Switched(taken, "--check-invoice")
    requires Given(taken, "--level") && !BatchActive(taken) && (Switched(taken, "--check") <==> kind == Check)
    ensures Act(world, Seen(taken, JobPositional(kind, argv))) == Meant(kind, argv)
  {
    hide Switched, Given, BatchActive, ProfileLevel;
    var pos := JobPositional(kind, argv);
    assert pos[0] in pos && (kind == Convert ==> pos[1] in pos);
  }

  lemma VerifyAction(world: World, taken: seq<Read>, argv: seq<string>)
    requires |argv| >= 2 && argv[|argv| - 1] != "" && taken != [] && taken[0] == Switch("--verify-password")
    ensures Act(world, Seen(taken, JobPositional(Verify, argv))) == Meant(Verify, argv)
  {
    assert Switched(taken, "--verify-password");
    hide Switched, Given, BatchActive, ProfileLevel;
  }

  /** For every accepted job that no file or range check stops, the engine does what the job says: it
      verifies the password of the input, checks the input, or converts the input to the output. */
  lemma JobActs(world: World, kind: Kind, site: Site, args: seq<Arg>, dir: string, profiles: string)
    requires Validate(kind, args, site).Accepted?
    requires FirstRefusal(world, JobReads(kind, site, args, Resolve(args, dir, profiles))).None?
    ensures var argv := Resolve(args, dir, profiles);
            |argv| >= 2 && Run(world, argv) == Meant(kind, argv)
  {
    hide Loop, FirstRefusal, Options, OptionReads, FOREIGN, FLAGS, LevelOk, PasswordOk, Act, Ending;
    var argv := Resolve(args, dir, profiles);
    var taken := JobReads(kind, site, args, argv);
    JobIsReadAsMeant(world, kind, site, args, dir, profiles);
    NotSpecial(kind, site, args);
    assert argv[0] == args[0].text;
    if kind == Verify {
      assert argv[|argv| - 1] in JobPositional(kind, argv);
      VerifyAction(world, taken, argv);
    } else {
      CourseOfJob(kind, site, args, argv);
      FileAction(world, taken, kind, argv);
    }
  }

  /** What a job starts with is neither of the words that `main` looks for first. */
  lemma NotSpecial(kind: Kind, site: Site, args: seq<Arg>)
    requires Validate(kind, args, site).Accepted?
    ensures |args| >= 2 && args[0].Lit? && args[0].text != "tool" && args[0].text != "--compare"
  {
    hide Options, LevelOk, PasswordOk;
  }

  /** The switches of a job that decide the course of the program. */
  lemma CourseOfJob(kind: Kind, site: Site, args: seq<Arg>, argv: seq<string>)
    requires kind != Verify && Validate(kind, args, site).Accepted? && |argv| == |args|
    requires forall k | 0 <= k < |args| :: args[k].Lit? ==> argv[k] == args[k].text
    ensures var taken := JobReads(kind, site, args, argv);
            && !Switched(taken, "--merge-inputs") && !Switched(taken, "--verify-password")
            && !Switched(taken, "--extract-invoice") && !Switched(taken, "--check-invoice")
            && Given(taken, "--level") && !BatchActive(taken) && (Switched(taken, "--check") <==> kind == Check)
  {
    hide Options, OptionReads, FOREIGN, BatchActive, FLAGS, LevelOk, Ending, Switched, Given;
    var taken := JobReads(kind, site, args, argv);
    var head, opts := HeadReads(kind, argv), OptionReads(site, args, argv, HeadLength(kind));
    OptionFlags(site, args, argv, HeadLength(kind), {});
    forall r | r in taken
      ensures r.flag !in FOREIGN
    {
      ForeignFlags(r.flag);
    }
    NoForeign(taken);
    ForeignMembers();
    CheckSwitched(head, opts, kind, argv);
  }

  lemma ForeignMembers()
    ensures "--merge-inputs" in FOREIGN && "--extract-invoice" in FOREIGN && "--check-invoice" in FOREIGN &&
            "--verify-password" in FOREIGN
  {
  }

  lemma CheckSwitched(head: seq<Read>, opts: seq<Read>, kind: Kind, argv: seq<string>)
    requires kind != Verify && |argv| >= HeadLength(kind) && head == HeadReads(kind, argv)
    requires forall r <- opts :: r.flag in FLAGS
    ensures Switched(head + opts, "--check") <==> kind == Check
    ensures Given(head + opts, "--level")
  {
    hide FLAGS;
    var all := head + opts;
    CheckIsNoOption();
    assert all[|head| - 1] == head[|head| - 1];
    if kind == Check {
      assert all[0] == Switch("--check");
    } else {
      forall i | 0 <= i < |all|
        ensures all[i] != Switch("--check")
      {
        if i >= 1 {
          assert all[i] in opts;
        }
      }
    }
  }
}
