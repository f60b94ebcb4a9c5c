/** Jobs of the HTTP service: the argument type, the validator and the builder. */
module Jobs {

  import opened Optional

  /** An argument of a job: literal text, an input or output file of the job directory, or a
      profile of the library. */
  datatype Arg = Lit(text: string) | File(name: string) | Out(name: string) | Profile(id: string)

  datatype Kind = Convert | Check | Verify

  // ----- resolving -----

  /** `Path::join` with a relative name. */
  function PathJoin(dir: string, name: string): string {
    if dir == "" || dir[|dir| - 1] == '/' then dir + name else dir + "/" + name
  }

  function ResolveArg(a: Arg, dir: string, profiles: string): string {
    match a
    case Lit(s) => s
    case File(n) => PathJoin(dir, n)
    case Out(n) => PathJoin(dir, n)
    case Profile(id) => PathJoin(profiles, id + ".json")
  }

  function Resolve(args: seq<Arg>, dir: string, profiles: string): (argv: seq<string>)
    ensures |argv| == |args| && forall i | 0 <= i < |args| :: argv[i] == ResolveArg(args[i], dir, profiles)
  {
    seq(|args|, i requires 0 <= i < |args| => ResolveArg(args[i], dir, profiles))
  }

  // ----- tables -----

  const LEVELS: seq<string> := [
    "1b", "1a", "2b", "2u", "2a", "3b", "3u", "3a", "4", "4f", "4e", "x1a", "x3", "x4", "x6", "e1", "vt1", "vt3"]

  const CHECK_ONLY: seq<string> := ["x4p", "x5g", "x5n", "x5pg", "x6n", "x6p", "vt2"]

  const BOOL_KEYS: seq<string> := ["ua", "allowVisualRisk", "rasterizePages", "outlineFonts", "analyze", "embedSource"]

  const TEXT_KEYS: seq<string> := [
    "lang", "outputCondition", "outputConditionInfo", "registry", "vtRecords", "attachXmlName", "facturxProfile",
    "embedSourceName", "rasterDpi", "imageMaxPpi"]

  const FILE_KEYS: seq<string> := ["xml", "destProfile", "defaultRgb", "defaultCmyk", "defaultGray"]

  const FILE_NAMES: seq<string> := ["attachment.xml", "dest.icc", "rgb.icc", "cmyk.icc", "gray.icc"]

  /** All options of a job in the order in which the builder writes them: the six switches, the ten
      text options, the password, the profile and the five file options. */
  const FLAGS: seq<string> := [
    "--ua", "--allow-visual-risk", "--rasterize-pages", "--outline-fonts", "--analyze", "--embed-source",
    "--lang", "--output-condition", "--output-condition-info", "--registry", "--vt-records", "--attach-xml-name",
    "--facturx-profile", "--embed-source-name", "--raster-dpi", "--image-max-ppi",
    "--password", "--profile",
    "--attach-xml", "--dest-profile", "--default-rgb", "--default-cmyk", "--default-gray"]

  const TEXT_START := 6
  const PASSWORD_AT := 16
  const PROFILE_AT := 17
  const FILE_START := 18
  const FLAG_COUNT := 23

  /** The position of `flag` in `table` from `n` on, or the length of the table. */
  function IndexIn(table: seq<string>, flag: string, n: nat): (i: nat)
    requires n <= |table|
    ensures n <= i <= |table| && (i < |table| ==> table[i] == flag) && forall k | n <= k < i :: table[k] != flag
    decreases |table| - n
  {
    if n == |table| || table[n] == flag then n else IndexIn(table, flag, n + 1)
  }

  /** The position of a flag in the table of options. */
  function FlagIndex(flag: string): (i: nat)
    ensures i <= |FLAGS| && (i < |FLAGS| ==> FLAGS[i] == flag) && forall k | 0 <= k < i :: FLAGS[k] != flag
  {
    IndexIn(FLAGS, flag, 0)
  }

  lemma FlagsDistinct()
    ensures |FLAGS| == FLAG_COUNT
    ensures forall j, k | 0 <= j < k < |FLAGS| :: FLAGS[j] != FLAGS[k]
  {
  }

  lemma FlagIndexOf(k: nat)
    requires k < |FLAGS|
    ensures FlagIndex(FLAGS[k]) == k
  {
    hide FlagIndex, FLAGS;
    FlagsDistinct();
  }

  // ----- values -----

  function Utf16Units(s: string): nat {
    if s == "" then 0 else (if s[0] as int >= 0x10000 then 2 else 1) + Utf16Units(s[1..])
  }

  function Utf8Bytes(s: string): nat {
    if s == "" then 0
    else
      var c := s[0] as int;
      (if c < 0x80 then 1 else if c < 0x800 then 2 else if c < 0x10000 then 3 else 4) + Utf8Bytes(s[1..])
  }

  predicate IsText(v: string) {
    var units := Utf16Units(v);
    0 < units <= 512 && forall i | 0 <= i < |v| :: v[i] as int >= 0x20 && v[i] as int != 0x7f
  }

  predicate Digit(c: char) {
    '0' <= c <= '9'
  }

  predicate Alphanumeric(c: char) {
    Digit(c) || 'a' <= c <= 'z' || 'A' <= c <= 'Z'
  }

  function FirstDot(s: string, i: nat): (j: nat)
    requires i <= |s|
    ensures i <= j <= |s|
    decreases |s| - i
  {
    if i == |s| || s[i] == '.' then i else FirstDot(s, i + 1)
  }

  predicate IsNumber(v: string) {
    var dot := FirstDot(v, 0);
    && Utf8Bytes(v) <= 10
    && dot > 0 && (forall i | 0 <= i < dot :: Digit(v[i]))
    && (dot < |v| ==> dot + 1 < |v| && forall i | dot < i < |v| :: Digit(v[i]))
  }

  predicate ValueOk(flag: string, v: string) {
    && IsText(v)
    && (flag in {"--raster-dpi", "--image-max-ppi"} ==> IsNumber(v))
    && (flag == "--vt-records" ==> forall i | 0 <= i < |v| :: Digit(v[i]) || v[i] in {',', '-', ' '})
    && (flag == "--facturx-profile" ==>
          Utf8Bytes(v) <= 32 && forall i | 0 <= i < |v| :: Alphanumeric(v[i]) || v[i] in {' ', '_', '-'})
  }

  predicate PasswordOk(p: string) {
    p != "" && Utf8Bytes(p) <= 65536 && '\0' !in p
  }

  // ----- the validator -----

  /** The files in the job directory, if there is one, and which profiles resolve inside the
      library. */
  datatype Site = Site(files: Option<set<string>>, bundled: string -> bool)

  predicate Present(site: Site, name: string) {
    site.files.Some? ==> name in site.files.value
  }

  predicate IdPart(s: string) {
    0 < |s| <= 100 && forall i | 0 <= i < |s| :: 'a' <= s[i] <= 'z' || Digit(s[i]) || s[i] == '-'
  }

  predicate LibraryProfile(site: Site, id: string) {
    exists k | 0 <= k < |id| :: id[k] == '/' && IdPart(id[..k]) && IdPart(id[k + 1..]) && site.bundled(id)
  }

  datatype Reason =
    | Expected(want: string) | InvalidLevel | Twice(flag: string) | InvalidValue(flag: string)
    | NotAllowed(flag: string) | BadInput | BadOutput | Trailing | Missing(name: string)

  datatype Verdict = Accepted | Refused(reason: Reason)

  /** Where reading goes on, or why it stops. */
  datatype Next = Next(i: nat) | Stop(reason: Reason)

  /** The value at position `i`, if there is one. */
  predicate LitAt(args: seq<Arg>, i: nat) {
    i < |args| && args[i].Lit?
  }

  predicate FileAt(args: seq<Arg>, i: nat, name: string) {
    i < |args| && args[i] == File(name)
  }

  /** One option of the loop, its flag at position `i`. */
  function ReadOption(site: Site, args: seq<Arg>, i: nat): (r: Next)
    requires LitAt(args, i)
    ensures r.Next? ==> i < r.i <= |args| && r.i <= i + 2
  {
    var flag := args[i].text;
    var k := FlagIndex(flag);
    if k < TEXT_START then Next(i + 1)
    else if k < PASSWORD_AT then
      if LitAt(args, i + 1) && ValueOk(flag, args[i + 1].text) then Next(i + 2) else Stop(InvalidValue(flag))
    else if k == PASSWORD_AT then
      if LitAt(args, i + 1) && PasswordOk(args[i + 1].text) then Next(i + 2) else Stop(InvalidValue(flag))
    else if k == PROFILE_AT then
      if i + 1 < |args| && args[i + 1].Profile? && LibraryProfile(site, args[i + 1].id) then Next(i + 2)
      else if FileAt(args, i + 1, "profile.json") then
        if Present(site, "profile.json") then Next(i + 2) else Stop(Missing("profile.json"))
      else Stop(InvalidValue(flag))
    else if k < FLAG_COUNT then
      var name := FILE_NAMES[k - FILE_START];
      if FileAt(args, i + 1, name) then
        if Present(site, name) then Next(i + 2) else Stop(Missing(name))
      else Stop(InvalidValue(flag))
    else Stop(NotAllowed(flag))
  }

  /** The loop over the options: where it ends, or why it stops. */
  function Options(site: Site, args: seq<Arg>, i: nat, seen: set<string>): (r: Next)
    requires i <= |args|
    ensures r.Next? ==> i <= r.i <= |args| && !LitAt(args, r.i)
    decreases |args| - i
  {
    if !LitAt(args, i) then Next(i)
    else if args[i].text in seen then Stop(Twice(args[i].text))
    else
      var r := ReadOption(site, args, i);
      if r.Stop? then r else Options(site, args, r.i, seen + {args[i].text})
  }

  /** The end of a job from position `i`: the input and, for a conversion, the output. */
  function Ending(kind: Kind, site: Site, args: seq<Arg>, i: nat): Verdict {
    if !(FileAt(args, i, "in.pdf") || (kind != Verify && FileAt(args, i, "in.jpg"))) then Refused(BadInput)
    else if !Present(site, args[i].name) then Refused(Missing(args[i].name))
    else if kind == Convert && !(i + 1 < |args| && args[i + 1] == Out("out.pdf")) then Refused(BadOutput)
    else if i + (if kind == Convert then 2 else 1) != |args| then Refused(Trailing)
    else Accepted
  }

  predicate IsLit(args: seq<Arg>, i: nat, text: string) {
    i < |args| && args[i] == Lit(text)
  }

  predicate LevelOk(kind: Kind, l: string) {
    l in LEVELS || (kind == Check && l in CHECK_ONLY)
  }

  /** The position after `--check`, `--level` and the level. */
  function HeadLength(kind: Kind): nat {
    if kind == Check then 3 else 2
  }

  /** `validate_job`. */
  function Validate(kind: Kind, args: seq<Arg>, site: Site): Verdict {
    if kind == Verify then ValidateVerify(args, site)
    else if kind == Check && !IsLit(args, 0, "--check") then Refused(Expected("--check"))
    else
      var h := HeadLength(kind);
      if !IsLit(args, h - 2, "--level") then Refused(Expected("--level"))
      else if !(LitAt(args, h - 1) && LevelOk(kind, args[h - 1].text)) then Refused(InvalidLevel)
      else
        var r := Options(site, args, h, {});
        if r.Stop? then Refused(r.reason) else Ending(kind, site, args, r.i)
  }

  function ValidateVerify(args: seq<Arg>, site: Site): Verdict {
    if !IsLit(args, 0, "--verify-password") then Refused(Expected("--verify-password"))
    else if IsLit(args, 1, "--password") then
      if LitAt(args, 2) && PasswordOk(args[2].text) then Ending(Verify, site, args, 3)
      else Refused(InvalidValue("--password"))
    else Ending(Verify, site, args, 1)
  }

  /** `validate_job` with its iterator and its list of options already seen. */
  method ValidateJob(kind: Kind, args: seq<Arg>, site: Site) returns (v: Verdict)
    ensures v == Validate(kind, args, site)
  {
    hide ReadOption, LevelOk, PasswordOk;
    var i := 0;
    if kind == Verify {
      if !IsLit(args, i, "--verify-password") {
        return Refused(Expected("--verify-password"));
      }
      i := i + 1;
      if IsLit(args, i, "--password") {
        i := i + 1;
        if !(LitAt(args, i) && PasswordOk(args[i].text)) {
          return Refused(InvalidValue("--password"));
        }
        i := i + 1;
      }
      return Ending(kind, site, args, i);
    }
    if kind == Check {
      if !IsLit(args, i, "--check") {
        return Refused(Expected("--check"));
      }
      i := i + 1;
    }
    if !IsLit(args, i, "--level") {
      return Refused(Expected("--level"));
    }
    i := i + 1;
    if !(LitAt(args, i) && LevelOk(kind, args[i].text)) {
      return Refused(InvalidLevel);
    }
    i := i + 1;
    ghost var all := Options(site, args, i, {});
    var seen: seq<string> := [];
    assert (set f | f in seen) == {};
    while LitAt(args, i)
      invariant i <= |args| && all == Options(site, args, i, set f | f in seen)
      decreases |args| - i
    {
      var flag := args[i].text;
      if flag in seen {
        return Refused(Twice(flag));
      }
      ghost var before := set f | f in seen;
      seen := seen + [flag];
      assert (set f | f in seen) == before + {flag};
      var r := ReadOption(site, args, i);
      if r.Stop? {
        return Refused(r.reason);
      }
      i := r.i;
    }
    return Ending(kind, site, args, i);
  }

  // ----- the builder -----

  datatype Field = Text(text: string) | Upload

  /** What a request brings: query parameters in order, form fields, and the password header.
      `stores` says which files of the job directory can be written. */
  datatype Request = Request(
    query: seq<(string, string)>, fields: map<string, Field>, password: Option<string>, stores: string -> bool)

  function QueryGet(q: seq<(string, string)>, k: string): Option<string> {
    if q == [] then None else if q[0].0 == k then Some(q[0].1) else QueryGet(q[1..], k)
  }

  function TextField(req: Request, k: string): Option<string> {
    if k in req.fields && req.fields[k].Text? then Some(req.fields[k].text) else None
  }

  function Get(req: Request, k: string): Option<string> {
    var v := QueryGet(req.query, k);
    if v.Some? then v else TextField(req, k)
  }

  predicate IsTrue(v: Option<string>) {
    v.Some? && v.value in {"true", "1", "on"}
  }

  datatype BuildError = BadLevel | BadValue(key: string) | BadProfile | Internal(name: string)

  /** The arguments an option contributes, and the files written for it. */
  datatype Built = Built(args: seq<Arg>, stored: set<string>) | Failed(error: BuildError)

  /** The password of a request: the header before the form field, an empty one ignored. */
  function Password(req: Request): Option<string> {
    var p := if req.password.Some? then req.password else TextField(req, "password");
    if p.Some? && p.value != "" then p else None
  }

  function StoredFile(req: Request, flag: string, name: string): Built {
    if req.stores(name) then Built([Lit(flag), File(name)], {name}) else Failed(Internal(name))
  }

  /** The option at position `n` of the table. */
  function Piece(req: Request, site: Site, n: nat): Built
    requires n < FLAG_COUNT
  {
    var flag := FLAGS[n];
    if n < TEXT_START then
      if IsTrue(Get(req, BOOL_KEYS[n])) then Built([Lit(flag)], {}) else Built([], {})
    else if n < PASSWORD_AT then
      var v := Get(req, TEXT_KEYS[n - TEXT_START]);
      if v.None? || v.value == "" then Built([], {})
      else if IsText(v.value) && ValueOk(flag, v.value) then Built([Lit(flag), Lit(v.value)], {})
      else Failed(BadValue(TEXT_KEYS[n - TEXT_START]))
    else if n == PASSWORD_AT then
      var p := Password(req);
      if p.Some? then Built([Lit(flag), Lit(p.value)], {}) else Built([], {})
    else if n == PROFILE_AT then
      var id := QueryGet(req.query, "profile");
      if id.Some? && id.value != "" then
        if LibraryProfile(site, id.value) then Built([Lit(flag), Profile(id.value)], {}) else Failed(BadProfile)
      else if "profile" in req.fields then StoredFile(req, flag, "profile.json")
      else Built([], {})
    else if FILE_KEYS[n - FILE_START] in req.fields then StoredFile(req, flag, FILE_NAMES[n - FILE_START])
    else Built([], {})
  }

  function Then(a: Built, b: Built): Built {
    if a.Failed? then a else if b.Failed? then b else Built(a.args + b.args, a.stored + b.stored)
  }

  /** The options from position `n` of the table on; the first error wins. */
  function PiecesFrom(req: Request, site: Site, n: nat): Built
    requires n <= FLAG_COUNT
    decreases FLAG_COUNT - n
  {
    if n == FLAG_COUNT then Built([], {})
    else
      var p := Piece(req, site, n);
      if p.Failed? then p else Then(p, PiecesFrom(req, site, n + 1))
  }

  function Head(kind: Kind, level: string): seq<Arg> {
    if kind == Check then [Lit("--check"), Lit("--level"), Lit(level)] else [Lit("--level"), Lit(level)]
  }

  /** `build_args`. */
  function Build(req: Request, kind: Kind, site: Site): Built {
    var level := Get(req, "level");
    if level.Some? && LevelOk(kind, level.value)
    then Then(Built(Head(kind, level.value), {}), PiecesFrom(req, site, 0))
    else Failed(BadLevel)
  }

  lemma PiecesStep(req: Request, site: Site, n: nat, sofar: Built)
    requires n < FLAG_COUNT && sofar.Built?
    ensures var p := Piece(req, site, n);
            Then(sofar, PiecesFrom(req, site, n)) ==
            if p.Failed? then p else Then(Then(sofar, p), PiecesFrom(req, site, n + 1))
  {
    hide Piece;
  }

  /** `build_args` as a loop that appends to the list of arguments. */
  method BuildArgs(req: Request, kind: Kind, site: Site) returns (b: Built)
    ensures b == Build(req, kind, site)
  {
    hide Piece, PiecesFrom, LevelOk, Get;
    var level := Get(req, "level");
    if level.None? || !LevelOk(kind, level.value) {
      return Failed(BadLevel);
    }
    b := Built(Head(kind, level.value), {});
    ghost var all := Then(b, PiecesFrom(req, site, 0));
    for n := 0 to FLAG_COUNT
      invariant b.Built? && all == Then(b, PiecesFrom(req, site, n))
    {
      PiecesStep(req, site, n, b);
      var p := Piece(req, site, n);
      if p.Failed? {
        return p;
      }
      b := Then(b, p);
    }
    NoPiecesLeft(req, site, b);
  }

  lemma NoPiecesLeft(req: Request, site: Site, b: Built)
    requires b.Built?
    ensures Then(b, PiecesFrom(req, site, FLAG_COUNT)) == b
  {
  }

  /** The whole job that the service submits for a conversion or a check. */
  function JobArgs(built: seq<Arg>, kind: Kind, input: string): seq<Arg> {
    built + ([File(input)] + if kind == Convert then [Out("out.pdf")] else [])
  }

  /** The job that the service submits to verify a password. */
  function VerifyArgs(req: Request): seq<Arg> {
    [Lit("--verify-password")] +
    (if req.password.Some? && req.password.value != "" then [Lit("--password"), Lit(req.password.value)] else []) +
    [File("in.pdf")]
  }
}
