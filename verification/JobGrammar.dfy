/** The jobs that the service accepts, as a grammar of argument lists: the validator accepts a list
    if and only if the grammar has it. */
module JobGrammar {
  import opened Optional
  import opened Jobs
  import opened JobOptions

  // ----- the grammar -----

  predicate SwitchFlag(f: string) {
    f in {"--ua", "--allow-visual-risk", "--rasterize-pages", "--outline-fonts", "--analyze", "--embed-source"}
  }

  predicate TextFlag(f: string) {
    || f in {"--lang", "--output-condition", "--output-condition-info", "--registry", "--vt-records"}
    || f in {"--attach-xml-name", "--facturx-profile", "--embed-source-name", "--raster-dpi", "--image-max-ppi"}
  }

  predicate UploadFlag(f: string, name: string) {
    || (f == "--attach-xml" && name == "attachment.xml") || (f == "--dest-profile" && name == "dest.icc")
    || (f == "--default-rgb" && name == "rgb.icc") || (f == "--default-cmyk" && name == "cmyk.icc")
    || (f == "--default-gray" && name == "gray.icc")
  }

  /** A file of the job directory, if that is known. */
  ghost predicate There(site: Site, name: string) {
    site.files.None? || name in site.files.value
  }

  /** One option with its value. */
  ghost predicate IsOption(site: Site, o: seq<Arg>) {
    && (|o| == 1 || |o| == 2) && o[0].Lit?
    && var f := o[0].text;
       if |o| == 1 then SwitchFlag(f)
       else match o[1]
         case Lit(v) => (TextFlag(f) && ValueOk(f, v)) || (f == "--password" && PasswordOk(v))
         case Profile(id) => f == "--profile" && LibraryProfile(site, id)
         case File(n) => ((f == "--profile" && n == "profile.json") || UploadFlag(f, n)) && There(site, n)
         case Out(_) => false
  }

  ghost predicate AllOptions(site: Site, p: seq<seq<Arg>>) {
    forall i | 0 <= i < |p| :: IsOption(site, p[i])
  }

  /** No option is given twice, and none of them is in `seen`. */
  ghost predicate EachOnce(p: seq<seq<Arg>>, seen: set<string>)
    requires forall i | 0 <= i < |p| :: p[i] != [] && p[i][0].Lit?
  {
    && (forall i | 0 <= i < |p| :: p[i][0].text !in seen)
    && forall i, j | 0 <= i < j < |p| :: p[i][0].text != p[j][0].text
  }

  ghost predicate Listed(site: Site, p: seq<seq<Arg>>, seen: set<string>) {
    AllOptions(site, p) && EachOnce(p, seen)
  }

  // ----- one option -----

  lemma SwitchIndex(f: string)
    ensures FlagIndex(f) < 6 <==> SwitchFlag(f)
  {
    SwitchTable();
    hide FlagIndex;
    if FlagIndex(f) < 6 {
      hide FLAGS;
    } else {
      assert forall k | 0 <= k < 6 :: FLAGS[k] != f;
    }
  }

  /** The position of a flag is known once its place in the table is. */
  lemma IndexIs(f: string, k: nat)
    requires k < 23 && |FLAGS| == 23 && FLAGS[k] == f
    ensures FlagIndex(f) == k
  {
    hide FLAGS;
    FlagIndexOf(k);
  }

  lemma TextIndex(f: string)
    ensures 6 <= FlagIndex(f) < 16 <==> TextFlag(f)
  {
    hide FlagIndex, FLAGS;
    TextTable();
    var k := FlagIndex(f);
    if TextFlag(f) {
      var m := if f == "--lang" then 6 else if f == "--output-condition" then 7
               else if f == "--output-condition-info" then 8 else if f == "--registry" then 9
               else if f == "--vt-records" then 10 else if f == "--attach-xml-name" then 11
               else if f == "--facturx-profile" then 12 else if f == "--embed-source-name" then 13
               else if f == "--raster-dpi" then 14 else 15;
      IndexIs(f, m);
    }
  }

  lemma FileIndex(f: string)
    ensures |FILE_NAMES| == 5
    ensures FlagIndex(f) == 16 <==> f == "--password"
    ensures FlagIndex(f) == 17 <==> f == "--profile"
    ensures forall n :: UploadFlag(f, n) <==> 18 <= FlagIndex(f) < 23 && n == FILE_NAMES[FlagIndex(f) - 18]
  {
    hide FlagIndex, FLAGS, FILE_NAMES;
    FileTable();
    var k := FlagIndex(f);
    if f in {"--password", "--profile", "--attach-xml", "--dest-profile", "--default-rgb"} {
      IndexIs(f, if f == "--password" then 16 else if f == "--profile" then 17 else if f == "--attach-xml" then 18
                 else if f == "--dest-profile" then 19 else 20);
    } else if f in {"--default-cmyk", "--default-gray"} {
      IndexIs(f, if f == "--default-cmyk" then 21 else 22);
    }
  }

  /** What `ReadOption` takes is an option of the grammar. */
  lemma ReadIsOption(site: Site, args: seq<Arg>, i: nat)
    requires LitAt(args, i) && ReadOption(site, args, i).Next?
    ensures var j := ReadOption(site, args, i).i;
            i < j <= |args| && IsOption(site, args[i..j])
  {
    hide FlagIndex, FILE_NAMES, ValueOk, PasswordOk, LibraryProfile, SwitchFlag, TextFlag, UploadFlag;
    var f, j := args[i].text, ReadOption(site, args, i).i;
    SwitchIndex(f);
    TextIndex(f);
    FileIndex(f);
    assert args[i..j][0] == args[i];
    if j == i + 2 {
      assert args[i..j][1] == args[i + 1];
    }
  }

  /** And every option of the grammar is taken. */
  lemma OptionIsRead(site: Site, args: seq<Arg>, i: nat, o: seq<Arg>)
    requires IsOption(site, o) && i + |o| <= |args| && args[i..i + |o|] == o
    ensures LitAt(args, i) && args[i] == o[0] && ReadOption(site, args, i) == Next(i + |o|)
  {
    hide FlagIndex, FILE_NAMES, ValueOk, PasswordOk, LibraryProfile, SwitchFlag, TextFlag, UploadFlag;
    var f := o[0].text;
    SwitchIndex(f);
    TextIndex(f);
    FileIndex(f);
    assert args[i] == args[i..i + |o|][0];
    if |o| == 2 {
      assert args[i + 1] == args[i..i + |o|][1];
    }
  }

  // ----- the list of options -----

  lemma ListedCons(site: Site, o: seq<Arg>, p: seq<seq<Arg>>, seen: set<string>)
    requires IsOption(site, o) && o[0].text !in seen && Listed(site, p, seen + {o[0].text})
    ensures Listed(site, [o] + p, seen)
  {
    hide IsOption;
    var all := [o] + p;
    OptionStarts(site, o);
    forall i | 0 <= i < |p|
      ensures p[i] != [] && p[i][0].Lit? && p[i][0].text != o[0].text && p[i][0].text !in seen
    {
      OptionStarts(site, p[i]);
      assert p[i][0].text !in seen + {o[0].text};
    }
    assert forall i | 0 < i < |all| :: all[i] == p[i - 1];
  }

  lemma ListedTail(site: Site, p: seq<seq<Arg>>, seen: set<string>)
    requires p != [] && Listed(site, p, seen)
    ensures IsOption(site, p[0]) && p[0][0].text !in seen && Listed(site, p[1..], seen + {p[0][0].text})
  {
    hide IsOption;
    var tail := p[1..];
    assert forall i | 0 <= i < |tail| :: tail[i] == p[i + 1];
    forall i | 0 <= i < |p|
      ensures p[i] != [] && p[i][0].Lit?
    {
      OptionStarts(site, p[i]);
    }
  }

  lemma OptionStarts(site: Site, o: seq<Arg>)
    requires IsOption(site, o)
    ensures o != [] && o[0].Lit?
  {
  }

  /** What the loop takes is a list of different options. */
  lemma {:induction false} OptionsListed(site: Site, args: seq<Arg>, i: nat, seen: set<string>)
    returns (p: seq<seq<Arg>>)
    requires i <= |args| && Options(site, args, i, seen).Next?
    ensures Listed(site, p, seen) && args[i..Options(site, args, i, seen).i] == Joined(p)
    decreases |args| - i
  {
    hide ReadOption, IsOption;
    if !LitAt(args, i) {
      p := [];
    } else {
      var j, end := ReadOption(site, args, i).i, Options(site, args, i, seen).i;
      ReadIsOption(site, args, i);
      var o := args[i..j];
      assert o[0] == args[i];
      var rest := OptionsListed(site, args, j, seen + {o[0].text});
      p := [o] + rest;
      ListedCons(site, o, rest, seen);
      assert p[1..] == rest;
      assert args[i..end] == o + args[j..end];
    }
  }

  /** Every list of different options is taken, up to what is no literal. */
  lemma {:induction false} ListedTaken(site: Site, args: seq<Arg>, i: nat, p: seq<seq<Arg>>, seen: set<string>)
    requires Listed(site, p, seen) && i + |Joined(p)| <= |args| && args[i..i + |Joined(p)|] == Joined(p)
    requires !LitAt(args, i + |Joined(p)|)
    ensures Options(site, args, i, seen) == Next(i + |Joined(p)|)
    decreases |p|
  {
    hide ReadOption, IsOption, Listed;
    if p != [] {
      ListedTail(site, p, seen);
      OptionStarts(site, p[0]);
      var n, rest := |p[0]|, Joined(p[1..]);
      var whole := args[i..i + n + |rest|];
      assert whole == p[0] + rest;
      assert args[i..i + n] == whole[..n] == p[0];
      assert args[i + n..i + n + |rest|] == whole[n..] == rest;
      OptionIsRead(site, args, i, p[0]);
      ListedTaken(site, args, i + n, p[1..], seen + {p[0][0].text});
    }
  }

  // ----- whole jobs -----

  predicate InputName(kind: Kind, name: string) {
    name == "in.pdf" || (kind != Verify && name == "in.jpg")
  }

  /** `--check` for a check, the level, the options, the input, and the output of a conversion. */
  function Job(kind: Kind, level: string, p: seq<seq<Arg>>, input: string): seq<Arg> {
    ((if kind == Check then [Lit("--check")] else []) + [Lit("--level"), Lit(level)]) +
    (Joined(p) + Tail(kind, input))
  }

  ghost predicate InGrammar(kind: Kind, site: Site, level: string, p: seq<seq<Arg>>, input: string) {
    && LevelNamed(kind, level) && Listed(site, p, {}) && InputName(kind, input) && There(site, input)
  }

  lemma JobTaken(kind: Kind, site: Site, level: string, p: seq<seq<Arg>>, input: string)
    requires kind != Verify && InGrammar(kind, site, level, p, input)
    ensures Validate(kind, Job(kind, level, p, input), site) == Accepted
  {
    hide Options, LevelNamed, LevelOk, Listed, Joined, Ending;
    LevelTable(kind, level);
    var args, h, opts := Job(kind, level, p, input), HeadLength(kind), Joined(p);
    var tail := Tail(kind, input);
    HeadStands(kind, level, opts + tail);
    TailStands(args, h, opts, tail);
    ListedTaken(site, args, h, p, {});
    EndingTaken(kind, site, args, h + |opts|, input);
  }

  lemma EndingTaken(kind: Kind, site: Site, args: seq<Arg>, i: nat, input: string)
    requires kind != Verify && i <= |args| && args[i..] == Tail(kind, input)
    requires InputName(kind, input) && There(site, input)
    ensures i < |args| && args[i] == File(input) && Ending(kind, site, args, i) == Accepted
  {
    var tail := args[i..];
    assert tail[0] == args[i];
    if kind == Convert {
      assert tail[1] == args[i + 1];
    }
  }

  function Tail(kind: Kind, input: string): seq<Arg> {
    [File(input)] + if kind == Convert then [Out("out.pdf")] else []
  }

  lemma HeadStands(kind: Kind, level: string, rest: seq<Arg>)
    requires kind != Verify
    ensures var args, h := ((if kind == Check then [Lit("--check")] else []) + [Lit("--level"), Lit(level)]) + rest,
                           HeadLength(kind);
            && |args| >= h && args[h..] == rest && args[h - 2] == Lit("--level") && args[h - 1] == Lit(level)
            && (kind == Check ==> args[0] == Lit("--check"))
  {
  }

  lemma TailStands(args: seq<Arg>, h: nat, a: seq<Arg>, b: seq<Arg>)
    requires h <= |args| && args[h..] == a + b
    ensures |args| == h + |a| + |b| && args[h..h + |a|] == a && args[h + |a|..] == b
    ensures forall k | 0 <= k < |b| :: args[h + |a| + k] == b[k]
  {
    var rest := args[h..];
    assert rest[..|a|] == a && rest[|a|..] == b;
    assert args[h..h + |a|] == rest[..|a|] && args[h + |a|..] == rest[|a|..];
    forall k | 0 <= k < |b|
      ensures args[h + |a| + k] == b[k]
    {
      assert args[h + |a|..][k] == b[k];
    }
  }

  lemma JobParsed(kind: Kind, site: Site, args: seq<Arg>) returns (level: string, p: seq<seq<Arg>>, input: string)
    requires kind != Verify && Validate(kind, args, site) == Accepted
    ensures InGrammar(kind, site, level, p, input) && args == Job(kind, level, p, input)
  {
    hide Options, LevelNamed, LevelOk, Listed, Ending, Joined;
    var h := HeadLength(kind);
    level := args[h - 1].text;
    LevelTable(kind, level);
    p := OptionsListed(site, args, h, {});
    var end := Options(site, args, h, {}).i;
    EndingStands(kind, site, args, end);
    input := args[end].name;
    HeadIs(kind, args, level);
    assert args == args[..h] + (args[h..end] + args[end..]);
  }

  lemma EndingStands(kind: Kind, site: Site, args: seq<Arg>, i: nat)
    requires Ending(kind, site, args, i) == Accepted
    ensures i < |args| && args[i].File? && args[i..] == Tail(kind, args[i].name)
    ensures InputName(kind, args[i].name) && There(site, args[i].name)
  {
  }

  lemma HeadIs(kind: Kind, args: seq<Arg>, level: string)
    requires kind != Verify && HeadLength(kind) <= |args| && (kind == Check ==> args[0] == Lit("--check"))
    requires args[HeadLength(kind) - 2] == Lit("--level") && args[HeadLength(kind) - 1] == Lit(level)
    ensures args[..HeadLength(kind)] == (if kind == Check then [Lit("--check")] else []) + [Lit("--level"), Lit(level)]
  {
  }

  /** A conversion or a check is accepted if and only if it has this form. */
  lemma AcceptedIff(kind: Kind, site: Site, args: seq<Arg>)
    requires kind != Verify
    ensures Validate(kind, args, site) == Accepted <==>
            exists level, p, input :: InGrammar(kind, site, level, p, input) && args == Job(kind, level, p, input)
  {
    hide Validate, InGrammar, Job;
    if Validate(kind, args, site) == Accepted {
      var level, p, input := JobParsed(kind, site, args);
    }
    forall level, p, input | InGrammar(kind, site, level, p, input) && args == Job(kind, level, p, input)
      ensures Validate(kind, args, site) == Accepted
    {
      JobTaken(kind, site, level, p, input);
    }
  }

  /** Checking a password: with or without one, and always of the PDF. */
  lemma VerifyAcceptedIff(site: Site, args: seq<Arg>)
    ensures Validate(Verify, args, site) == Accepted <==>
            && There(site, "in.pdf")
            && (|| args == [Lit("--verify-password"), File("in.pdf")]
                || exists pw :: PasswordOk(pw) &&
                     args == [Lit("--verify-password"), Lit("--password"), Lit(pw), File("in.pdf")])
  {
    hide PasswordOk;
    if Validate(Verify, args, site) == Accepted {
      if IsLit(args, 1, "--password") {
        assert args == [Lit("--verify-password"), Lit("--password"), Lit(args[2].text), File("in.pdf")];
      } else {
        assert args == [Lit("--verify-password"), File("in.pdf")];
      }
    }
  }

  // ----- refusals -----

  ghost predicate Known(f: string) {
    SwitchFlag(f) || Takes(f)
  }

  /** The options with a value. */
  ghost predicate Takes(f: string) {
    TextFlag(f) || f == "--password" || f == "--profile" || exists n :: UploadFlag(f, n)
  }

  /** The option at `k` has no admissible value, wherever its file may be. */
  ghost predicate BadValueAt(site: Site, args: seq<Arg>, k: nat, f: string) {
    && k < |args| && args[k] == Lit(f)
    && !(k + 2 <= |args| && IsOption(Site(None, site.bundled), args[k..k + 2]))
  }

  /** Why the options are refused: one is given twice, one is not known, the value of one is not
      admissible, or its file is not there. */
  ghost predicate OptionFault(site: Site, args: seq<Arg>, r: Reason) {
    match r
    case Twice(f) => exists j, k | 0 <= j < k < |args| :: args[j] == args[k] == Lit(f)
    case NotAllowed(f) => Lit(f) in args && !Known(f)
    case InvalidValue(f) => Takes(f) && exists k: nat :: BadValueAt(site, args, k, f)
    case Missing(n) => File(n) in args && !There(site, n)
    case _ => false
  }

  lemma SameLibrary(site: Site, id: string)
    ensures LibraryProfile(site, id) <==> LibraryProfile(Site(None, site.bundled), id)
  {
    hide IdPart;
  }

  lemma OneFault(site: Site, args: seq<Arg>, i: nat)
    requires LitAt(args, i) && ReadOption(site, args, i).Stop?
    ensures OptionFault(site, args, ReadOption(site, args, i).reason)
  {
    hide FlagIndex, FILE_NAMES, ValueOk, PasswordOk, LibraryProfile, SwitchFlag, TextFlag, UploadFlag;
    var f := args[i].text;
    SwitchIndex(f);
    TextIndex(f);
    FileIndex(f);
    assert args[i] == Lit(f) && Lit(f) in args;
    var k := FlagIndex(f);
    if 18 <= k < 23 {
      assert UploadFlag(f, FILE_NAMES[k - 18]);
    }
    if i + 2 <= |args| {
      assert args[i..i + 2][0] == args[i] && args[i..i + 2][1] == args[i + 1];
      if args[i + 1].Profile? {
        SameLibrary(site, args[i + 1].id);
      }
    }
    if ReadOption(site, args, i).reason.InvalidValue? {
      assert BadValueAt(site, args, i, f);
    }
  }

  lemma {:induction false} OptionsFault(site: Site, args: seq<Arg>, i: nat, seen: set<string>)
    requires i <= |args| && Options(site, args, i, seen).Stop?
    requires forall f <- seen :: exists k | 0 <= k < i :: args[k] == Lit(f)
    ensures OptionFault(site, args, Options(site, args, i, seen).reason)
    decreases |args| - i
  {
    hide ReadOption, Known, Takes, There;
    var f := args[i].text;
    if f in seen {
      var k :| 0 <= k < i && args[k] == Lit(f);
      assert args[k] == args[i] == Lit(f);
    } else if ReadOption(site, args, i).Stop? {
      OneFault(site, args, i);
    } else {
      forall e <- seen + {f}
        ensures exists k | 0 <= k < ReadOption(site, args, i).i :: args[k] == Lit(e)
      {
        if e == f {
          assert args[i] == Lit(e);
        }
      }
      OptionsFault(site, args, ReadOption(site, args, i).i, seen + {f});
    }
  }

  ghost predicate InputAt(kind: Kind, args: seq<Arg>, k: nat) {
    k < |args| && args[k].File? && InputName(kind, args[k].name)
  }

  /** Why the end of a job is refused. */
  ghost predicate EndFault(kind: Kind, site: Site, args: seq<Arg>, i: nat, r: Reason) {
    match r
    case BadInput => !InputAt(kind, args, i)
    case Missing(n) => InputAt(kind, args, i) && args[i].name == n && !There(site, n)
    case BadOutput => kind == Convert && InputAt(kind, args, i) && !(i + 1 < |args| && args[i + 1] == Out("out.pdf"))
    case Trailing => InputAt(kind, args, i) && i + (if kind == Convert then 2 else 1) < |args|
    case _ => false
  }

  lemma EndingFault(kind: Kind, site: Site, args: seq<Arg>, i: nat)
    requires Ending(kind, site, args, i).Refused?
    ensures EndFault(kind, site, args, i, Ending(kind, site, args, i).reason)
  {
  }

  /** Every refusal names what is wrong with the job. */
  ghost predicate Fault(kind: Kind, site: Site, args: seq<Arg>, r: Reason) {
    match r
    case Expected(want) =>
      || (want == "--verify-password" && kind == Verify && !IsLit(args, 0, want))
      || (want == "--check" && kind == Check && !IsLit(args, 0, want))
      || (want == "--level" && kind == Check && !IsLit(args, 1, want))
      || (want == "--level" && kind == Convert && !IsLit(args, 0, want))
    case InvalidLevel =>
      kind != Verify && forall l :: LevelNamed(kind, l) ==> !IsLit(args, if kind == Check then 2 else 1, l)
    case _ => OptionFault(site, args, r) || exists i: nat :: EndFault(kind, site, args, i, r)
  }

  lemma RefusalHolds(kind: Kind, site: Site, args: seq<Arg>)
    requires Validate(kind, args, site).Refused?
    ensures Fault(kind, site, args, Validate(kind, args, site).reason)
  {
    hide Options, LevelOk, LevelNamed, PasswordOk, Ending, OptionFault, EndFault;
    if kind == Verify {
      VerifyFault(site, args);
    } else {
      var h := HeadLength(kind);
      forall l
        ensures LevelOk(kind, l) <==> LevelNamed(kind, l)
      {
        LevelTable(kind, l);
      }
      if (kind == Check ==> IsLit(args, 0, "--check")) && IsLit(args, h - 2, "--level") && LitAt(args, h - 1) &&
         LevelOk(kind, args[h - 1].text) {
        var r := Options(site, args, h, {});
        if r.Stop? {
          OptionsFault(site, args, h, {});
          FaultIsKnown(site, args, r.reason);
        } else {
          EndingFault(kind, site, args, r.i);
          EndIsKnown(kind, site, args, r.i, Ending(kind, site, args, r.i).reason);
        }
      }
    }
  }

  lemma FaultIsKnown(site: Site, args: seq<Arg>, r: Reason)
    requires OptionFault(site, args, r)
    ensures !r.Expected? && !r.InvalidLevel?
  {
  }

  lemma EndIsKnown(kind: Kind, site: Site, args: seq<Arg>, i: nat, r: Reason)
    requires EndFault(kind, site, args, i, r)
    ensures !r.Expected? && !r.InvalidLevel?
  {
  }

  lemma VerifyFault(site: Site, args: seq<Arg>)
    requires Validate(Verify, args, site).Refused?
    ensures Fault(Verify, site, args, Validate(Verify, args, site).reason)
  {
    hide PasswordOk, Ending;
    if IsLit(args, 0, "--verify-password") {
      if IsLit(args, 1, "--password") {
        assert args[1] in args && Takes("--password");
        if 3 <= |args| {
          assert args[1..3][0] == args[1] && args[1..3][1] == args[2];
        }
        assert !(LitAt(args, 2) && PasswordOk(args[2].text)) ==> BadValueAt(site, args, 1, "--password");
        if LitAt(args, 2) && PasswordOk(args[2].text) {
          EndingFault(Verify, site, args, 3);
        }
      } else {
        EndingFault(Verify, site, args, 1);
      }
    }
  }

  // ----- what the arguments become -----

  /** Files stand in the job directory, profiles in the library. */
  lemma Resolved(dir: string, profiles: string, name: string, text: string)
    requires dir != "" && dir[|dir| - 1] != '/' && profiles != "" && profiles[|profiles| - 1] != '/'
    ensures Resolve([Lit(text), File(name), Out(name), Profile(name)], dir, profiles) ==
            [text, dir + "/" + name, dir + "/" + name, profiles + "/" + (name + ".json")]
    ensures Resolve([File(name)], dir + "/", profiles) == [dir + "/" + name]
  {
    assert (dir + "/")[|dir + "/"| - 1] == '/';
  }
}
