/** Which options a request switches on: the argument list of a job by the names of the request's
    parameters. */
module JobOptions {
  import opened Optional
  import opened Jobs

  // ----- parameters of a request -----

  ghost predicate FirstAt(q: seq<(string, string)>, key: string, i: nat) {
    i < |q| && q[i].0 == key && forall j | 0 <= j < i :: q[j].0 != key
  }

  ghost predicate InQuery(q: seq<(string, string)>, key: string, v: string) {
    exists i: nat :: FirstAt(q, key, i) && q[i].1 == v
  }

  ghost predicate Absent(q: seq<(string, string)>, key: string) {
    forall i | 0 <= i < |q| :: q[i].0 != key
  }

  /** The value of a parameter: the first of that name in the query, else the text field. */
  ghost predicate Has(req: Request, key: string, v: string) {
    InQuery(req.query, key, v) || (Absent(req.query, key) && key in req.fields && req.fields[key] == Text(v))
  }

  lemma {:induction false} QueryGetIs(q: seq<(string, string)>, key: string)
    ensures match QueryGet(q, key)
            case Some(v) => InQuery(q, key, v) && !Absent(q, key)
            case None => Absent(q, key)
  {
    if q != [] {
      var tail := q[1..];
      QueryGetIs(tail, key);
      assert forall i | 0 <= i < |tail| :: tail[i] == q[i + 1];
      if q[0].0 == key {
        assert FirstAt(q, key, 0);
      } else if QueryGet(tail, key).Some? {
        var i: nat :| FirstAt(tail, key, i) && tail[i].1 == QueryGet(tail, key).value;
        assert q[i + 1].0 == key;
        assert FirstAt(q, key, i + 1) && q[i + 1].1 == QueryGet(q, key).value;
      } else {
        assert forall i | 0 < i < |q| :: q[i] == tail[i - 1];
      }
    }
  }

  lemma InQueryUnique(q: seq<(string, string)>, key: string, v: string, w: string)
    requires InQuery(q, key, v) && InQuery(q, key, w)
    ensures v == w
  {
    var i: nat :| FirstAt(q, key, i) && q[i].1 == v;
    var j: nat :| FirstAt(q, key, j) && q[j].1 == w;
    assert i == j;
  }

  lemma QueryHas(q: seq<(string, string)>, key: string, v: string)
    ensures InQuery(q, key, v) <==> QueryGet(q, key) == Some(v)
  {
    QueryGetIs(q, key);
    if InQuery(q, key, v) {
      var i: nat :| FirstAt(q, key, i) && q[i].1 == v;
      assert !Absent(q, key);
      InQueryUnique(q, key, v, QueryGet(q, key).value);
    }
  }

  lemma GetHas(req: Request, key: string, v: string)
    ensures Has(req, key, v) <==> Get(req, key) == Some(v)
  {
    hide InQuery, Absent, QueryGet;
    QueryGetIs(req.query, key);
    QueryHas(req.query, key, v);
  }

  // ----- what each option asks for -----

  ghost predicate SwitchAsked(req: Request, key: string, flag: string, args: seq<Arg>) {
    if Has(req, key, "true") || Has(req, key, "1") || Has(req, key, "on") then args == [Lit(flag)] else args == []
  }

  ghost predicate TextAsked(req: Request, key: string, flag: string, args: seq<Arg>) {
    if exists v :: Has(req, key, v) && v != "" then exists v :: Has(req, key, v) && args == [Lit(flag), Lit(v)]
    else args == []
  }

  /** The header before the form field; an empty password is none. */
  ghost predicate PasswordAsked(req: Request, args: seq<Arg>) {
    match req.password
    case Some(p) => args == if p == "" then [] else [Lit("--password"), Lit(p)]
    case None =>
      if "password" in req.fields && req.fields["password"].Text? && req.fields["password"].text != ""
      then args == [Lit("--password"), Lit(req.fields["password"].text)] else args == []
  }

  /** A profile of the library that the query names, else an uploaded one. */
  ghost predicate ProfileAsked(req: Request, args: seq<Arg>) {
    if exists v :: InQuery(req.query, "profile", v) && v != ""
    then exists v :: InQuery(req.query, "profile", v) && args == [Lit("--profile"), Profile(v)]
    else args == if "profile" in req.fields then [Lit("--profile"), File("profile.json")] else []
  }

  ghost predicate FileAsked(req: Request, key: string, flag: string, name: string, args: seq<Arg>) {
    args == if key in req.fields then [Lit(flag), File(name)] else []
  }

  ghost predicate SwitchesAsked(req: Request, p: seq<seq<Arg>>)
    requires |p| == 23
  {
    && SwitchAsked(req, "ua", "--ua", p[0])
    && SwitchAsked(req, "allowVisualRisk", "--allow-visual-risk", p[1])
    && SwitchAsked(req, "rasterizePages", "--rasterize-pages", p[2])
    && SwitchAsked(req, "outlineFonts", "--outline-fonts", p[3])
    && SwitchAsked(req, "analyze", "--analyze", p[4])
    && SwitchAsked(req, "embedSource", "--embed-source", p[5])
  }

  ghost predicate TextsAsked(req: Request, p: seq<seq<Arg>>)
    requires |p| == 23
  {
    && TextAsked(req, "lang", "--lang", p[6])
    && TextAsked(req, "outputCondition", "--output-condition", p[7])
    && TextAsked(req, "outputConditionInfo", "--output-condition-info", p[8])
    && TextAsked(req, "registry", "--registry", p[9])
    && TextAsked(req, "vtRecords", "--vt-records", p[10])
    && TextAsked(req, "attachXmlName", "--attach-xml-name", p[11])
    && TextAsked(req, "facturxProfile", "--facturx-profile", p[12])
    && TextAsked(req, "embedSourceName", "--embed-source-name", p[13])
    && TextAsked(req, "rasterDpi", "--raster-dpi", p[14])
    && TextAsked(req, "imageMaxPpi", "--image-max-ppi", p[15])
  }

  ghost predicate FilesAsked(req: Request, p: seq<seq<Arg>>)
    requires |p| == 23
  {
    && FileAsked(req, "xml", "--attach-xml", "attachment.xml", p[18])
    && FileAsked(req, "destProfile", "--dest-profile", "dest.icc", p[19])
    && FileAsked(req, "defaultRgb", "--default-rgb", "rgb.icc", p[20])
    && FileAsked(req, "defaultCmyk", "--default-cmyk", "cmyk.icc", p[21])
    && FileAsked(req, "defaultGray", "--default-gray", "gray.icc", p[22])
  }

  // ----- the pieces of the builder -----

  lemma SwitchPiece(req: Request, site: Site, n: nat, key: string, flag: string)
    requires n < 6 && |FLAGS| == 23 && |BOOL_KEYS| == 6 && BOOL_KEYS[n] == key && FLAGS[n] == flag
    ensures Piece(req, site, n).Built? && Piece(req, site, n).stored == {}
    ensures SwitchAsked(req, key, flag, Piece(req, site, n).args)
  {
    hide FLAGS, BOOL_KEYS, Has;
    GetHas(req, key, "true");
    GetHas(req, key, "1");
    GetHas(req, key, "on");
  }

  /** The values that a text option takes. */
  ghost predicate TextFits(req: Request, key: string, flag: string) {
    forall v | Has(req, key, v) && v != "" :: ValueOk(flag, v)
  }

  lemma TextPiece(req: Request, site: Site, n: nat, key: string, flag: string)
    requires 6 <= n < 16 && |FLAGS| == 23 && |TEXT_KEYS| == 10 && TEXT_KEYS[n - 6] == key && FLAGS[n] == flag
    ensures Piece(req, site, n).Built? <==> TextFits(req, key, flag)
    ensures Piece(req, site, n).Built? ==>
              Piece(req, site, n).stored == {} && TextAsked(req, key, flag, Piece(req, site, n).args)
    ensures Piece(req, site, n).Failed? ==> Piece(req, site, n).error == BadValue(key)
  {
    hide FLAGS, TEXT_KEYS, Has, Get;
    forall v
      ensures Has(req, key, v) <==> Get(req, key) == Some(v)
    {
      GetHas(req, key, v);
    }
    hide IsText, IsNumber;
    assert forall v | ValueOk(flag, v) :: IsText(v);
    hide ValueOk;
    var got := Get(req, key);
    if got.Some? {
      assert Has(req, key, got.value);
    }
  }

  lemma PasswordPiece(req: Request, site: Site)
    requires |FLAGS| == 23 && FLAGS[16] == "--password"
    ensures Piece(req, site, 16).Built? && Piece(req, site, 16).stored == {}
    ensures PasswordAsked(req, Piece(req, site, 16).args)
  {
    hide FLAGS;
  }

  /** The profile that the query names is in the library; one that is uploaded can be stored. */
  ghost predicate ProfileFits(req: Request, site: Site) {
    if exists v :: InQuery(req.query, "profile", v) && v != ""
    then exists v :: InQuery(req.query, "profile", v) && LibraryProfile(site, v)
    else "profile" in req.fields ==> req.stores("profile.json")
  }

  lemma ProfilePiece(req: Request, site: Site)
    requires |FLAGS| == 23 && FLAGS[17] == "--profile"
    ensures Piece(req, site, 17).Built? <==> ProfileFits(req, site)
    ensures Piece(req, site, 17).Built? ==> ProfileAsked(req, Piece(req, site, 17).args)
  {
    hide FLAGS, InQuery, QueryGet, LibraryProfile;
    forall v
      ensures InQuery(req.query, "profile", v) <==> QueryGet(req.query, "profile") == Some(v)
    {
      QueryHas(req.query, "profile", v);
    }
    var got := QueryGet(req.query, "profile");
    if got.Some? {
      assert InQuery(req.query, "profile", got.value);
    }
  }

  lemma FilePiece(req: Request, site: Site, n: nat, key: string, flag: string, name: string)
    requires 18 <= n < 23 && |FLAGS| == 23 && |FILE_KEYS| == |FILE_NAMES| == 5
    requires FLAGS[n] == flag && FILE_KEYS[n - 18] == key && FILE_NAMES[n - 18] == name
    ensures Piece(req, site, n).Built? <==> (key in req.fields ==> req.stores(name))
    ensures Piece(req, site, n).Built? ==> FileAsked(req, key, flag, name, Piece(req, site, n).args)
  {
    hide FLAGS, FILE_KEYS, FILE_NAMES;
  }

  /** The options one after the other. */
  function Joined(p: seq<seq<Arg>>): seq<Arg> {
    if p == [] then [] else p[0] + Joined(p[1..])
  }

  function PieceArgs(req: Request, site: Site, n: nat): seq<Arg>
    requires n < 23
  {
    var p := Piece(req, site, n);
    if p.Built? then p.args else []
  }

  function AllPieces(req: Request, site: Site, n: nat): (r: seq<seq<Arg>>)
    requires n <= 23
    ensures |r| == 23 - n
  {
    seq(23 - n, i requires 0 <= i < 23 - n => PieceArgs(req, site, n + i))
  }

  lemma {:induction false} PiecesJoined(req: Request, site: Site, n: nat)
    requires n <= 23
    ensures PiecesFrom(req, site, n).Built? <==> forall k | n <= k < 23 :: Piece(req, site, k).Built?
    ensures PiecesFrom(req, site, n).Built? ==> PiecesFrom(req, site, n).args == Joined(AllPieces(req, site, n))
    decreases 23 - n
  {
    hide Piece;
    if n < 23 {
      PiecesJoined(req, site, n + 1);
      var all := AllPieces(req, site, n);
      assert all[0] == PieceArgs(req, site, n);
      assert all[1..] == AllPieces(req, site, n + 1);
    }
  }

  lemma SwitchTable()
    ensures |FLAGS| == 23 && |BOOL_KEYS| == 6
    ensures BOOL_KEYS[0] == "ua" && BOOL_KEYS[1] == "allowVisualRisk" && BOOL_KEYS[2] == "rasterizePages"
    ensures BOOL_KEYS[3] == "outlineFonts" && BOOL_KEYS[4] == "analyze" && BOOL_KEYS[5] == "embedSource"
    ensures FLAGS[0] == "--ua" && FLAGS[1] == "--allow-visual-risk" && FLAGS[2] == "--rasterize-pages"
    ensures FLAGS[3] == "--outline-fonts" && FLAGS[4] == "--analyze" && FLAGS[5] == "--embed-source"
  {
  }

  lemma TextTable()
    ensures |FLAGS| == 23 && |TEXT_KEYS| == 10
    ensures TEXT_KEYS[0] == "lang" && TEXT_KEYS[1] == "outputCondition" && TEXT_KEYS[2] == "outputConditionInfo"
    ensures TEXT_KEYS[3] == "registry" && TEXT_KEYS[4] == "vtRecords" && TEXT_KEYS[5] == "attachXmlName"
    ensures TEXT_KEYS[6] == "facturxProfile" && TEXT_KEYS[7] == "embedSourceName" && TEXT_KEYS[8] == "rasterDpi"
    ensures TEXT_KEYS[9] == "imageMaxPpi"
    ensures FLAGS[6] == "--lang" && FLAGS[7] == "--output-condition" && FLAGS[8] == "--output-condition-info"
    ensures FLAGS[9] == "--registry" && FLAGS[10] == "--vt-records" && FLAGS[11] == "--attach-xml-name"
    ensures FLAGS[12] == "--facturx-profile" && FLAGS[13] == "--embed-source-name" && FLAGS[14] == "--raster-dpi"
    ensures FLAGS[15] == "--image-max-ppi"
  {
  }

  lemma FileTable()
    ensures |FLAGS| == 23 && |FILE_KEYS| == |FILE_NAMES| == 5
    ensures FLAGS[16] == "--password" && FLAGS[17] == "--profile"
    ensures FLAGS[18] == "--attach-xml" && FLAGS[19] == "--dest-profile" && FLAGS[20] == "--default-rgb"
    ensures FLAGS[21] == "--default-cmyk" && FLAGS[22] == "--default-gray"
    ensures FILE_KEYS[0] == "xml" && FILE_KEYS[1] == "destProfile" && FILE_KEYS[2] == "defaultRgb"
    ensures FILE_KEYS[3] == "defaultCmyk" && FILE_KEYS[4] == "defaultGray"
    ensures FILE_NAMES[0] == "attachment.xml" && FILE_NAMES[1] == "dest.icc" && FILE_NAMES[2] == "rgb.icc"
    ensures FILE_NAMES[3] == "cmyk.icc" && FILE_NAMES[4] == "gray.icc"
  {
  }

  ghost predicate AllBuilt(req: Request, site: Site, from: nat, to: nat)
    requires to <= 23
  {
    forall k: nat | from <= k < to :: Piece(req, site, k).Built?
  }

  lemma SwitchPieces(req: Request, site: Site)
    ensures AllBuilt(req, site, 0, 6) && SwitchesAsked(req, AllPieces(req, site, 0))
  {
    hide FLAGS, BOOL_KEYS, Piece, SwitchAsked;
    SwitchTable();
    SwitchPiece(req, site, 0, "ua", "--ua");
    SwitchPiece(req, site, 1, "allowVisualRisk", "--allow-visual-risk");
    SwitchPiece(req, site, 2, "rasterizePages", "--rasterize-pages");
    SwitchPiece(req, site, 3, "outlineFonts", "--outline-fonts");
    SwitchPiece(req, site, 4, "analyze", "--analyze");
    SwitchPiece(req, site, 5, "embedSource", "--embed-source");
  }

  ghost predicate TextsFit(req: Request) {
    && TextFits(req, "lang", "--lang")
    && TextFits(req, "outputCondition", "--output-condition")
    && TextFits(req, "outputConditionInfo", "--output-condition-info")
    && TextFits(req, "registry", "--registry")
    && TextFits(req, "vtRecords", "--vt-records")
    && TextFits(req, "attachXmlName", "--attach-xml-name")
    && TextFits(req, "facturxProfile", "--facturx-profile")
    && TextFits(req, "embedSourceName", "--embed-source-name")
    && TextFits(req, "rasterDpi", "--raster-dpi")
    && TextFits(req, "imageMaxPpi", "--image-max-ppi")
  }

  lemma TextPieces(req: Request, site: Site)
    ensures AllBuilt(req, site, 6, 16) <==> TextsFit(req)
    ensures TextsFit(req) ==> TextsAsked(req, AllPieces(req, site, 0))
  {
    hide FLAGS, TEXT_KEYS, Piece, TextAsked, TextFits;
    TextTable();
    TextPiece(req, site, 6, "lang", "--lang");
    TextPiece(req, site, 7, "outputCondition", "--output-condition");
    TextPiece(req, site, 8, "outputConditionInfo", "--output-condition-info");
    TextPiece(req, site, 9, "registry", "--registry");
    TextPiece(req, site, 10, "vtRecords", "--vt-records");
    TextPiece(req, site, 11, "attachXmlName", "--attach-xml-name");
    TextPiece(req, site, 12, "facturxProfile", "--facturx-profile");
    TextPiece(req, site, 13, "embedSourceName", "--embed-source-name");
    TextPiece(req, site, 14, "rasterDpi", "--raster-dpi");
    TextPiece(req, site, 15, "imageMaxPpi", "--image-max-ppi");
  }

  ghost predicate FilesFit(req: Request) {
    && ("xml" in req.fields ==> req.stores("attachment.xml"))
    && ("destProfile" in req.fields ==> req.stores("dest.icc"))
    && ("defaultRgb" in req.fields ==> req.stores("rgb.icc"))
    && ("defaultCmyk" in req.fields ==> req.stores("cmyk.icc"))
    && ("defaultGray" in req.fields ==> req.stores("gray.icc"))
  }

  lemma FilePieces(req: Request, site: Site)
    ensures AllBuilt(req, site, 16, 23) <==> ProfileFits(req, site) && FilesFit(req)
    ensures ProfileFits(req, site) && FilesFit(req) ==>
              var p := AllPieces(req, site, 0);
              PasswordAsked(req, p[16]) && ProfileAsked(req, p[17]) && FilesAsked(req, p)
  {
    hide FLAGS, FILE_KEYS, FILE_NAMES, Piece, FileAsked, PasswordAsked, ProfileAsked, ProfileFits;
    FileTable();
    PasswordPiece(req, site);
    ProfilePiece(req, site);
    FilePiece(req, site, 18, "xml", "--attach-xml", "attachment.xml");
    FilePiece(req, site, 19, "destProfile", "--dest-profile", "dest.icc");
    FilePiece(req, site, 20, "defaultRgb", "--default-rgb", "rgb.icc");
    FilePiece(req, site, 21, "defaultCmyk", "--default-cmyk", "cmyk.icc");
    FilePiece(req, site, 22, "defaultGray", "--default-gray", "gray.icc");
  }

  // ----- the whole list -----

  /** The levels; some can only be checked. */
  predicate LevelNamed(kind: Kind, level: string) {
    || level in {"1b", "1a", "2b", "2u", "2a", "3b", "3u", "3a", "4", "4f", "4e", "x1a", "x3", "x4", "x6", "e1"}
    || level in {"vt1", "vt3"}
    || (kind == Check && level in {"x4p", "x5g", "x5n", "x5pg", "x6n", "x6p", "vt2"})
  }

  ghost predicate LevelAsked(req: Request, kind: Kind, level: string) {
    Has(req, "level", level) && LevelNamed(kind, level)
  }

  lemma LevelTable(kind: Kind, level: string)
    ensures LevelOk(kind, level) <==> LevelNamed(kind, level)
  {
  }

  /** A request is built if and only if its level is one of the list, its text values are admissible,
      the profile it names is in the library, and what it uploads can be stored. */
  lemma BuildsIff(req: Request, kind: Kind, site: Site)
    ensures Build(req, kind, site).Built? <==>
            && (exists level :: LevelAsked(req, kind, level))
            && TextsFit(req) && ProfileFits(req, site) && FilesFit(req)
  {
    hide Has, LevelOk, PiecesFrom, Piece, TextsFit, ProfileFits, FilesFit, Get;
    LevelGiven(req, kind);
    PiecesJoined(req, site, 0);
    SwitchPieces(req, site);
    TextPieces(req, site);
    FilePieces(req, site);
  }

  lemma LevelGiven(req: Request, kind: Kind)
    ensures (exists level :: LevelAsked(req, kind, level)) <==>
            Get(req, "level").Some? && LevelOk(kind, Get(req, "level").value)
  {
    hide Has, LevelOk, Get;
    forall level
      ensures LevelAsked(req, kind, level) <==> Get(req, "level") == Some(level) && LevelOk(kind, level)
    {
      GetHas(req, "level", level);
      LevelTable(kind, level);
    }
    var got := Get(req, "level");
    assert got.Some? && LevelOk(kind, got.value) ==> LevelAsked(req, kind, got.value);
  }

  /** The arguments of every request that is built: the level, and then what its parameters ask for,
      each option behind its own name, in this order and with nothing else. */
  lemma BuiltAsAsked(req: Request, kind: Kind, site: Site) returns (level: string, p: seq<seq<Arg>>)
    requires Build(req, kind, site).Built?
    ensures LevelAsked(req, kind, level) && |p| == 23
    ensures SwitchesAsked(req, p) && TextsAsked(req, p) && PasswordAsked(req, p[16]) && ProfileAsked(req, p[17])
    ensures FilesAsked(req, p)
    ensures Build(req, kind, site).args ==
            (if kind == Check then [Lit("--check")] else []) + [Lit("--level"), Lit(level)] + Joined(p)
  {
    hide Has, LevelOk, PiecesFrom, Piece, Get, SwitchesAsked, TextsAsked, PasswordAsked, ProfileAsked, FilesAsked,
      TextsFit, ProfileFits, FilesFit, Joined;
    level := Get(req, "level").value;
    GetHas(req, "level", level);
    LevelTable(kind, level);
    p := AllPieces(req, site, 0);
    BuildsIff(req, kind, site);
    PiecesJoined(req, site, 0);
    SwitchPieces(req, site);
    TextPieces(req, site);
    FilePieces(req, site);
    assert Head(kind, level) == (if kind == Check then [Lit("--check")] else []) + [Lit("--level"), Lit(level)];
  }

  // ----- refusals -----

  lemma {:induction false} FirstFailure(req: Request, site: Site, n: nat) returns (k: nat)
    requires n <= 23 && PiecesFrom(req, site, n).Failed?
    ensures n <= k < 23 && PiecesFrom(req, site, n) == Piece(req, site, k) && AllBuilt(req, site, n, k)
    decreases 23 - n
  {
    hide Piece;
    if Piece(req, site, n).Failed? {
      k := n;
    } else {
      k := FirstFailure(req, site, n + 1);
    }
  }

  /** The parameter of a text option and its flag. */
  predicate TextOption(key: string, flag: string) {
    || (key, flag) in {("lang", "--lang"), ("outputCondition", "--output-condition")}
    || (key, flag) in {("outputConditionInfo", "--output-condition-info"), ("registry", "--registry")}
    || (key, flag) in {("vtRecords", "--vt-records"), ("attachXmlName", "--attach-xml-name")}
    || (key, flag) in {("facturxProfile", "--facturx-profile"), ("embedSourceName", "--embed-source-name")}
    || (key, flag) in {("rasterDpi", "--raster-dpi"), ("imageMaxPpi", "--image-max-ppi")}
  }

  /** Why a request is refused: its level before anything else, then a text value that is not
      admissible, then the profile, then a file that cannot be stored. */
  lemma RefusedBecause(req: Request, kind: Kind, site: Site)
    requires Build(req, kind, site).Failed?
    ensures match Build(req, kind, site).error
            case BadLevel => !exists level :: LevelAsked(req, kind, level)
            case BadValue(key) =>
              && (exists level :: LevelAsked(req, kind, level))
              && exists flag :: TextOption(key, flag) && !TextFits(req, key, flag)
            case BadProfile =>
              && (exists level :: LevelAsked(req, kind, level)) && TextsFit(req)
              && exists v :: InQuery(req.query, "profile", v) && v != "" && !LibraryProfile(site, v)
            case Internal(name) =>
              (exists level :: LevelAsked(req, kind, level)) && TextsFit(req) && !req.stores(name)
  {
    hide LevelAsked, LevelOk, Get, PiecesFrom, TextsFit, LibraryProfile, FLAGS, BOOL_KEYS, TEXT_KEYS, FILE_KEYS,
      TextOption, TextFits;
    LevelGiven(req, kind);
    if exists level :: LevelAsked(req, kind, level) {
      var k := FirstFailure(req, site, 0);
      TextPieces(req, site);
      PieceFails(req, site, k);
    }
  }

  lemma PieceFails(req: Request, site: Site, k: nat)
    requires k < 23 && Piece(req, site, k).Failed?
    ensures match Piece(req, site, k).error
            case BadLevel => false
            case BadValue(key) => exists flag :: TextOption(key, flag) && !TextFits(req, key, flag)
            case BadProfile =>
              k >= 16 && exists v :: InQuery(req.query, "profile", v) && v != "" && !LibraryProfile(site, v)
            case Internal(name) => k >= 16 && !req.stores(name)
  {
    hide Get, LibraryProfile, FLAGS, BOOL_KEYS, TEXT_KEYS, FILE_KEYS, FILE_NAMES, Has, InQuery, QueryGet, ValueOk,
      IsText, TextFits;
    SwitchTable();
    TextTable();
    FileTable();
    if 6 <= k < 16 {
      TextPiece(req, site, k, TEXT_KEYS[k - 6], FLAGS[k]);
      assert TextOption(TEXT_KEYS[k - 6], FLAGS[k]);
    } else if k == 17 {
      var id := QueryGet(req.query, "profile");
      if id.Some? {
        QueryHas(req.query, "profile", id.value);
      }
    }
  }
}
