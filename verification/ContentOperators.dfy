/** The operators of a content stream by their spelling: what each of them does to the state of a
    walk and what it reports, from any state. */
module ContentOperators {
  import opened PdfContent
  import opened ContentWalk

  // ----- spellings -----

  /** The dispatch of `op`: the operator that a spelling stands for. */
  function OpOf(text: string): Op {
    match text
    case "q" => Save
    case "Q" => Restore
    case "cm" => Concat
    case "CS" => SetSpace(true)
    case "cs" => SetSpace(false)
    case "G" => SetDevice(true, Gray)
    case "g" => SetDevice(false, Gray)
    case "RG" => SetDevice(true, Rgb)
    case "rg" => SetDevice(false, Rgb)
    case "K" => SetDevice(true, Cmyk)
    case "k" => SetDevice(false, Cmyk)
    case "SC" => SetColor(true, false)
    case "SCN" => SetColor(true, true)
    case "sc" => SetColor(false, false)
    case "scn" => SetColor(false, true)
    case _ => ShapeOpOf(text)
  }

  function ShapeOpOf(text: string): Op {
    match text
    case "J" => SetLine(Cap)
    case "M" => SetLine(Miter)
    case "d" => SetLine(Dash)
    case "j" => SetLine(Join)
    case "w" => SetLine(Width)
    case "m" => Segment(MoveTo)
    case "l" => Segment(LineTo)
    case "c" => Segment(CurveC)
    case "v" => Segment(CurveV)
    case "y" => Segment(CurveY)
    case "re" => Segment(Rect)
    case "h" => Segment(Close)
    case _ => PaintOpOf(text)
  }

  function PaintOpOf(text: string): Op {
    match text
    case "S" => Paint(StrokeOpen)
    case "s" => Paint(StrokeClosed)
    case "f" => Paint(FillNonzero)
    case "F" => Paint(FillObsolete)
    case "f*" => Paint(FillEvenOdd)
    case "B" => Paint(BothNonzero)
    case "B*" => Paint(BothEvenOdd)
    case "b" => Paint(BothClosed)
    case "b*" => Paint(BothClosedEvenOdd)
    case "n" => Paint(NoPaint)
    case "Tf" => SelectFont
    case "EI" => EndInline
    case "Do" => Invoke
    case _ => OtherOp(text)
  }

  /** How an operator is written. */
  function Spelling(op: Op): string {
    match op
    case Save => "q"
    case Restore => "Q"
    case Concat => "cm"
    case SetSpace(stroke) => if stroke then "CS" else "cs"
    case SetDevice(stroke, Gray) => if stroke then "G" else "g"
    case SetDevice(stroke, Rgb) => if stroke then "RG" else "rg"
    case SetDevice(stroke, Cmyk) => if stroke then "K" else "k"
    case SetColor(stroke, extended) =>
      if stroke then (if extended then "SCN" else "SC") else (if extended then "scn" else "sc")
    case SetLine(key) => LineSpelling(key)
    case Segment(kind) => SegSpelling(kind)
    case Paint(paint) => PaintSpelling(paint)
    case SelectFont => "Tf"
    case EndInline => "EI"
    case Invoke => "Do"
    case OtherOp(text) => text
  }

  function LineSpelling(key: LineKey): string {
    match key
    case Cap => "J"
    case Miter => "M"
    case Dash => "d"
    case Join => "j"
    case Width => "w"
  }

  function SegSpelling(kind: SegKind): string {
    match kind
    case MoveTo => "m"
    case LineTo => "l"
    case CurveC => "c"
    case CurveV => "v"
    case CurveY => "y"
    case Rect => "re"
    case Close => "h"
  }

  function PaintSpelling(paint: PaintKind): string {
    match paint
    case StrokeOpen => "S"
    case StrokeClosed => "s"
    case FillNonzero => "f"
    case FillObsolete => "F"
    case FillEvenOdd => "f*"
    case BothNonzero => "B"
    case BothEvenOdd => "B*"
    case BothClosed => "b"
    case BothClosedEvenOdd => "b*"
    case NoPaint => "n"
  }

  /** Every text is the spelling of the operator it is read as, so no two are confused. */
  lemma SpellingOfOp(text: string)
    ensures Spelling(OpOf(text)) == text
  {
  }

  // ----- one operator -----

  /** A stream that is one operator. */
  function RunOne(g: Graph, ctx: Context, st: State, text: string): Outcome {
    Run(g, ctx, st, [Operator(OpOf(text))])
  }

  lemma OneStep(g: Graph, ctx: Context, st: State, text: string)
    ensures RunOne(g, ctx, st, text) == Step(g, ctx, st, Operator(OpOf(text)))
  {
    hide Plain, Draw, OpOf;
    var ts := [Operator(OpOf(text))];
    var first := Step(g, ctx, st, ts[0]);
    assert ts[1..] == [];
    assert Run(g, ctx, first.st, []) == Outcome(first.st, []);
  }

  lemma PaintSpelled(text: string)
    requires text in {"S", "s", "f", "F", "f*", "B", "B*", "b", "b*", "n"}
    ensures OpOf(text).Paint?
    ensures OpOf(text).paint.Strokes() <==> text in {"S", "s", "B", "B*", "b", "b*"}
    ensures OpOf(text).paint.Fills() <==> text in {"f", "F", "f*", "B", "B*", "b", "b*"}
  {
  }

  /** The ten paint operators: which of them stroke, which fill and which do both, what they report
      of the state, and that each of them ends the path. */
  lemma PaintReported(g: Graph, ctx: Context, st: State, text: string)
    requires text in {"S", "s", "f", "F", "f*", "B", "B*", "b", "b*", "n"}
    ensures var out := RunOne(g, ctx, st, text);
            && out.st == st.(ops := [], path := [])
            && (st.path == [] || text == "n" ==> out.events == [])
            && (st.path != [] && text in {"S", "s"} ==> out.events == [PathPainted(st.path, st.gs, true, false)])
            && (st.path != [] && text in {"f", "F", "f*"} ==>
                  out.events == [PathPainted(st.path, st.gs, false, true)])
            && (st.path != [] && text in {"B", "B*", "b", "b*"} ==>
                  out.events == [PathPainted(st.path, st.gs, true, true)])
  {
    hide OpOf, RunOne, PaintKind.Strokes, PaintKind.Fills;
    PaintSpelled(text);
    OneStep(g, ctx, st, text);
  }

  /** The state as a text-free record: what an operator leaves besides its operands. */
  function Left(gs: Gs, st: State): State {
    State(gs, st.stack, [], st.path)
  }

  /** The six device operators set space and colour of their own side and report the space. */
  lemma DeviceSet(g: Graph, ctx: Context, st: State, text: string, name: string)
    requires (text, name) in {("G", "/DeviceGray"), ("g", "/DeviceGray"), ("RG", "/DeviceRGB"), ("rg", "/DeviceRGB"),
                              ("K", "/DeviceCMYK"), ("k", "/DeviceCMYK")}
    ensures var out, color := RunOne(g, ctx, st, text), Color(st.ops, OpOf(text));
            && out.events == [SpaceSet(Name(name))]
            && (text in {"G", "RG", "K"} ==>
                  out.st == Left(st.gs.(strokeSpace := Name(name), strokeColor := color), st))
            && (text in {"g", "rg", "k"} ==>
                  out.st == Left(st.gs.(fillSpace := Name(name), fillColor := color), st))
  {
    OneStep(g, ctx, st, text);
  }

  /** The colour operators keep their operands and their spelling for their own side. */
  lemma ColorSet(g: Graph, ctx: Context, st: State, text: string)
    requires text in {"SC", "SCN", "sc", "scn"}
    ensures var out, color := RunOne(g, ctx, st, text), Color(st.ops, OpOf(text));
            && out.events == []
            && (text in {"SC", "SCN"} ==> out.st == Left(st.gs.(strokeColor := color), st))
            && (text in {"sc", "scn"} ==> out.st == Left(st.gs.(fillColor := color), st))
  {
    assert OpOf(text) == SetColor(text in {"SC", "SCN"}, text in {"SCN", "scn"});
    hide OpOf, RunOne;
    OneStep(g, ctx, st, text);
  }

  /** A named space: the four names that stand for themselves, any other name that the resources
      define, and a name that they do not. The colour of that side is forgotten. */
  lemma SpaceChosen(g: Graph, ctx: Context, st: State, text: string, space: Obj)
    requires text in {"CS", "cs"} && st.ops != []
    requires if st.ops[0] in {Name("/DeviceGray"), Name("/DeviceRGB"), Name("/DeviceCMYK"), Name("/Pattern")}
             then space == st.ops[0]
             else if st.ops[0].Name? && ctx.res.Resources? && st.ops[0].name in ctx.res.spaces
             then space == ctx.res.spaces[st.ops[0].name]
             else space == st.ops[0]
    ensures var out := RunOne(g, ctx, st, text);
            && out.events == [SpaceSet(space)]
            && (text == "CS" ==> out.st == Left(st.gs.(strokeSpace := space, strokeColor := NoColor), st))
            && (text == "cs" ==> out.st == Left(st.gs.(fillSpace := space, fillColor := NoColor), st))
  {
    OneStep(g, ctx, st, text);
  }

  /** A line setting keeps its operands; a width is the first of them as a number, and 0 when that is
      missing or no number. */
  lemma LineSet(g: Graph, ctx: Context, st: State, text: string, key: LineKey)
    requires (text, key) in {("J", Cap), ("M", Miter), ("d", Dash), ("j", Join), ("w", Width)}
    ensures var out := RunOne(g, ctx, st, text);
            var width := if text != "w" then st.gs.lineWidth
                         else if st.ops != [] && st.ops[0].Num? then st.ops[0].value else 0.0;
            out == Outcome(Left(st.gs.(line := st.gs.line[key := st.ops], lineWidth := width), st), [])
  {
    assert OpOf(text) == SetLine(key);
    hide OpOf, RunOne;
    OneStep(g, ctx, st, text);
  }

  /** A path operator adds one segment that holds its operands as numbers, 0 for one that is none. */
  lemma SegmentAdded(g: Graph, ctx: Context, st: State, text: string, kind: SegKind)
    requires (text, kind) in {("m", MoveTo), ("l", LineTo), ("c", CurveC), ("v", CurveV), ("y", CurveY),
                              ("re", Rect), ("h", Close)}
    ensures var out := RunOne(g, ctx, st, text);
            && out.events == [] && |out.st.path| == |st.path| + 1
            && out.st == State(st.gs, st.stack, [], st.path + [out.st.path[|st.path|]])
            && out.st.path[|st.path|].kind == kind && |out.st.path[|st.path|].v| == |st.ops|
            && forall i | 0 <= i < |st.ops| ::
                 out.st.path[|st.path|].v[i] == if st.ops[i].Num? then st.ops[i].value else 0.0
  {
    assert OpOf(text) == Segment(kind);
    hide OpOf, RunOne;
    OneStep(g, ctx, st, text);
  }

  /** `cm` puts its matrix before the current one: a point goes through the operands first. */
  lemma MatrixConcatenated(g: Graph, ctx: Context, st: State, a: real, b: real, c: real, d: real, e: real, f: real,
      p: Point)
    requires st.ops == [Num(a), Num(b), Num(c), Num(d), Num(e), Num(f)]
    ensures var out := RunOne(g, ctx, st, "cm");
            && out == Outcome(Left(st.gs.(ctm := out.st.gs.ctm), st), [])
            && Apply(out.st.gs.ctm, p) == Apply(st.gs.ctm, Apply(Matrix(a, b, c, d, e, f), p))
  {
    assert OpOf("cm") == Concat;
    hide OpOf, RunOne, Mul, Apply;
    OneStep(g, ctx, st, "cm");
    var m := Matrix(a, b, c, d, e, f);
    assert MatrixOf(st.ops) == m;
    MulComposes(m, st.gs.ctm, p);
  }

  /** Where a matrix moves the origin and the two unit points. */
  lemma UnitPointsMoved(m: Matrix)
    ensures Apply(m, Point(0.0, 0.0)) == Point(m.e, m.f)
    ensures Apply(m, Point(1.0, 0.0)) == Point(m.a + m.e, m.b + m.f)
    ensures Apply(m, Point(0.0, 1.0)) == Point(m.c + m.e, m.d + m.f)
  {
  }

  /** `q` saves and `Q` takes back, if there is something to take back. */
  lemma SavedAndRestored(g: Graph, ctx: Context, st: State, gs: Gs)
    ensures RunOne(g, ctx, st, "q") == Outcome(State(st.gs, st.stack + [st.gs], [], st.path), [])
    ensures RunOne(g, ctx, st.(stack := st.stack + [gs]), "Q") == Outcome(State(gs, st.stack, [], st.path), [])
    ensures RunOne(g, ctx, st.(stack := []), "Q") == Outcome(State(st.gs, [], [], st.path), [])
  {
    OneStep(g, ctx, st, "q");
    OneStep(g, ctx, st.(stack := []), "Q");
    var st' := st.(stack := st.stack + [gs]);
    OneStep(g, ctx, st', "Q");
    assert st'.stack[..|st'.stack| - 1] == st.stack;
  }

  /** A font is reported when its name is among the resources, an inline image at its end. */
  lemma FontsAndInlineImages(g: Graph, ctx: Context, st: State, font: string)
    requires st.ops != [] && st.ops[0] == Name(font)
    ensures RunOne(g, ctx, st, "Tf") ==
            Outcome(Left(st.gs, st), if ctx.res.Resources? && font in ctx.res.fonts then [FontSelected(font)] else [])
    ensures RunOne(g, ctx, st, "EI") == Outcome(Left(st.gs, st), [InlineImage])
  {
    assert OpOf("Tf") == SelectFont && OpOf("EI") == EndInline;
    hide OpOf, RunOne;
    OneStep(g, ctx, st, "Tf");
    OneStep(g, ctx, st, "EI");
  }

  /** The operators that need operands and do not have them. */
  lemma OperandsMissing(g: Graph, ctx: Context, st: State, text: string)
    requires || (text == "cm" && |st.ops| != 6)
             || (text in {"CS", "cs"} && st.ops == [])
             || (text in {"Tf", "Do"} && (st.ops == [] || !st.ops[0].Name?))
    ensures RunOne(g, ctx, st, text) == Outcome(Left(st.gs, st), [])
  {
    OneStep(g, ctx, st, text);
  }

  /** Every other spelling only drops its operands. */
  lemma OtherOperator(g: Graph, ctx: Context, st: State, text: string)
    requires text !in {"q", "Q", "cm", "CS", "cs", "G", "g", "RG", "rg", "K", "k", "SC", "SCN", "sc", "scn"}
    requires text !in {"J", "M", "d", "j", "w", "m", "l", "c", "v", "y", "re", "h"}
    requires text !in {"S", "s", "f", "F", "f*", "B", "B*", "b", "b*", "n", "Tf", "EI", "Do"}
    ensures RunOne(g, ctx, st, text) == Outcome(Left(st.gs, st), [])
  {
    assert OpOf(text) == OtherOp(text);
    hide OpOf, RunOne;
    OneStep(g, ctx, st, text);
  }

  // ----- drawing objects -----

  /** The state in which the content of a form or page starts. */
  function Start(ctm: Matrix): State {
    State(Gs(ctm, Name("/DeviceGray"), Name("/DeviceGray"), NoColor, NoColor, map[], 1.0), [], [], [])
  }

  /** Six objects as a matrix: in this order, 0 for one that is no number. */
  lemma MatrixRead(items: seq<Obj>, i: nat)
    requires i < 6 == |items|
    ensures var m := MatrixOf(items);
            [m.a, m.b, m.c, m.d, m.e, m.f][i] == if items[i].Num? then items[i].value else 0.0
  {
  }

  lemma PageWalked(g: Graph, res: Resources, content: seq<Token>)
    ensures WalkPage(g, res, content) ==
            Run(g, Context(res, 0, {}), Start(Matrix(1.0, 0.0, 0.0, 1.0, 0.0, 0.0)), content).events
  {
  }

  /** The resources name a stream of the document. */
  ghost predicate NamesStream(g: Graph, res: Resources, name: string) {
    res.Resources? && name in res.xobjects && res.xobjects[name] in g
  }

  lemma ImageReported(g: Graph, ctx: Context, st: State, name: string)
    requires st.ops != [] && st.ops[0] == Name(name) && NamesStream(g, ctx.res, name)
    requires g[ctx.res.xobjects[name]].Image?
    ensures RunOne(g, ctx, st, "Do") ==
            Outcome(Left(st.gs, st), [ImageDrawn(ctx.res.xobjects[name], st.gs.ctm, ctx.depth)])
  {
    OneStep(g, ctx, st, "Do");
  }

  /** A form at depth 15 or less that is not open is walked from a new state in its own resources, or
      in the caller's when it has none; its matrix comes before the current one, and only an array
      of six counts. Nothing of the caller's state changes. */
  lemma FormWalked(g: Graph, ctx: Context, st: State, name: string, x: Ref, own: Resources, inner: Matrix, p: Point)
    requires st.ops != [] && st.ops[0] == Name(name) && NamesStream(g, ctx.res, name) && x == ctx.res.xobjects[name]
    requires g[x].Form? && g[x].resources == own && ctx.depth <= 15 && x !in ctx.busy
    requires inner == if |g[x].matrix| == 6 then MatrixOf(g[x].matrix) else Matrix(1.0, 0.0, 0.0, 1.0, 0.0, 0.0)
    ensures var ctm := Mul(inner, st.gs.ctm);
            && RunOne(g, ctx, st, "Do") ==
               Outcome(Left(st.gs, st),
                       Run(g, Context(if own.Resources? then own else ctx.res, ctx.depth + 1, ctx.busy + {x}),
                           Start(ctm), g[x].content).events)
            && Apply(ctm, p) == Apply(st.gs.ctm, Apply(inner, p))
  {
    OneStep(g, ctx, st, "Do");
    hide Mul, Apply, Run;
    MulComposes(inner, st.gs.ctm, p);
  }

  /** What `Do` passes over: an open form, a form at depth 16 or more, any other stream, and a name
      that stands for no stream. */
  lemma ObjectPassedOver(g: Graph, ctx: Context, st: State, name: string)
    requires st.ops != [] && st.ops[0] == Name(name)
    requires !NamesStream(g, ctx.res, name) || g[ctx.res.xobjects[name]].OtherStream? ||
             (g[ctx.res.xobjects[name]].Form? && (ctx.depth >= 16 || ctx.res.xobjects[name] in ctx.busy))
    ensures RunOne(g, ctx, st, "Do") == Outcome(Left(st.gs, st), [])
  {
    OneStep(g, ctx, st, "Do");
  }
}
