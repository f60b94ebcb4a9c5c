/** PDF objects, content-stream operators and graphics state shared by both content walkers. */
module PdfContent {

  /** A PDF object as a content stream or a colour space holds it. Everything that is not a
      number, a name or an array is kept as the text that unparses to it. */
  datatype Obj = Num(value: real) | Name(name: string) | Arr(items: seq<Obj>) | Opaque(text: string)

  datatype Device = Gray | Rgb | Cmyk

  datatype LineKey = Cap | Miter | Dash | Join | Width

  datatype SegKind = MoveTo | LineTo | CurveC | CurveV | CurveY | Rect | Close

  datatype PaintKind =
    | StrokeOpen | StrokeClosed | FillNonzero | FillObsolete | FillEvenOdd
    | BothNonzero | BothEvenOdd | BothClosed | BothClosedEvenOdd | NoPaint
  {
    /** Stroking: the stroke operators and those that fill and stroke. */
    predicate Strokes() {
      this in {StrokeOpen, StrokeClosed, BothNonzero, BothEvenOdd, BothClosed, BothClosedEvenOdd}
    }

    /** Filling: every paint operator but the stroke operators and the one that paints nothing. */
    predicate Fills() {
      this !in {StrokeOpen, StrokeClosed, NoPaint}
    }
  }

  /** The operators the walkers tell apart; the stroking flag is the upper-case spelling. */
  datatype Op =
    | Save                                      // q
    | Restore                                   // Q
    | Concat                                    // cm
    | SetSpace(stroke: bool)                    // CS cs
    | SetDevice(stroke: bool, device: Device)   // G g RG rg K k
    | SetColor(stroke: bool, extended: bool)    // SC SCN sc scn
    | SetLine(key: LineKey)                     // J M d j w
    | Segment(kind: SegKind)                    // m l c v y re h
    | Paint(paint: PaintKind)                   // S s f F f* B B* b b* n
    | SelectFont                                // Tf
    | EndInline                                 // EI
    | Invoke                                    // Do
    | OtherOp(text: string)

  datatype Token = Operand(obj: Obj) | Operator(op: Op)

  /** The six numbers of a transformation matrix. */
  datatype Matrix = Matrix(a: real, b: real, c: real, d: real, e: real, f: real)

  const IDENTITY := Matrix(1.0, 0.0, 0.0, 1.0, 0.0, 0.0)

  function Mul(x: Matrix, y: Matrix): Matrix {
    Matrix(x.a * y.a + x.b * y.c, x.a * y.b + x.b * y.d, x.c * y.a + x.d * y.c,
           x.c * y.b + x.d * y.d, x.e * y.a + x.f * y.c + y.e, x.e * y.b + x.f * y.d + y.f)
  }

  datatype Point = Point(x: real, y: real)

  function Apply(m: Matrix, p: Point): Point {
    Point(m.a * p.x + m.c * p.y + m.e, m.b * p.x + m.d * p.y + m.f)
  }

  /** One coordinate of a composed point map. */
  lemma Composed(xa: real, xb: real, xc: real, xd: real, xe: real, xf: real, ya: real, yc: real, ye: real, px: real,
      py: real)
    ensures (xa * ya + xb * yc) * px + (xc * ya + xd * yc) * py + (xe * ya + xf * yc + ye) ==
            ya * (xa * px + xc * py + xe) + yc * (xb * px + xd * py + xf) + ye
  {
    assert (xa * ya + xb * yc) * px == xa * ya * px + xb * yc * px;
    assert (xc * ya + xd * yc) * py == xc * ya * py + xd * yc * py;
    assert ya * (xa * px + xc * py + xe) == xa * ya * px + xc * ya * py + xe * ya;
    assert yc * (xb * px + xd * py + xf) == xb * yc * px + xd * yc * py + xf * yc;
  }

  /** The product is composition of the point maps (section 8.3.4 of ISO 32000-1): applying
      `Mul(x, y)` is applying `x` and then `y`. */
  lemma MulComposes(x: Matrix, y: Matrix, p: Point)
    ensures Apply(Mul(x, y), p) == Apply(y, Apply(x, p))
  {
    ComposedX(x, y, p);
    ComposedY(x, y, p);
  }

  lemma ComposedX(x: Matrix, y: Matrix, p: Point)
    ensures Apply(Mul(x, y), p).x == Apply(y, Apply(x, p)).x
  {
    Composed(x.a, x.b, x.c, x.d, x.e, x.f, y.a, y.c, y.e, p.x, p.y);
  }

  lemma ComposedY(x: Matrix, y: Matrix, p: Point)
    ensures Apply(Mul(x, y), p).y == Apply(y, Apply(x, p)).y
  {
    Composed(x.a, x.b, x.c, x.d, x.e, x.f, y.b, y.d, y.f, p.x, p.y);
  }

  /** An operand read as a number; anything else counts as 0. */
  function NumberOf(o: Obj): real {
    if o.Num? then o.value else 0.0
  }

  /** `n(i)`: the i-th operand as a number, 0 when it is missing or not a number. */
  function Nth(ops: seq<Obj>, i: nat): real {
    if i < |ops| then NumberOf(ops[i]) else 0.0
  }

  function MatrixOf(ops: seq<Obj>): Matrix {
    Matrix(Nth(ops, 0), Nth(ops, 1), Nth(ops, 2), Nth(ops, 3), Nth(ops, 4), Nth(ops, 5))
  }

  /** The key of an indirect object: streams are always indirect. */
  type Ref = nat

  datatype Resources =
    | NotDictionary
    | Resources(xobjects: map<string, Ref>, spaces: map<string, Obj>, fonts: set<string>)

  /** A stream by its `/Subtype`. `matrix` holds the items of an array-valued `/Matrix` and is
      empty otherwise; `content` is the token sequence that the parser delivers. */
  datatype Stream =
    | Image
    | Form(matrix: seq<Obj>, resources: Resources, content: seq<Token>)
    | OtherStream

  /** The streams of a document. Forms name each other through their resources, so the graph
      may be cyclic. */
  type Graph = map<Ref, Stream>

  /** The stream that a resource name stands for, if any. */
  predicate Resolves(g: Graph, res: Resources, name: string) {
    res.Resources? && name in res.xobjects && res.xobjects[name] in g
  }

  function FormMatrix(matrix: seq<Obj>): Matrix {
    if |matrix| == 6 then MatrixOf(matrix) else IDENTITY
  }

  /** A form without a resource dictionary of its own uses the caller's. */
  function FormResources(own: Resources, outer: Resources): Resources {
    if own.Resources? then own else outer
  }

  datatype Seg = Seg(kind: SegKind, v: seq<real>)

  /** The operands and the operator that last set a colour. */
  datatype Color = NoColor | Color(operands: seq<Obj>, setter: Op)

  datatype Gs = Gs(
    ctm: Matrix, strokeSpace: Obj, fillSpace: Obj, strokeColor: Color, fillColor: Color,
    line: map<LineKey, seq<Obj>>, lineWidth: real)

  const DEVICE_GRAY := Name("/DeviceGray")

  function FreshGs(base: Matrix): Gs {
    Gs(base, DEVICE_GRAY, DEVICE_GRAY, NoColor, NoColor, map[], 1.0)
  }

  /** What a walk reports to its sink. `depth` is the number of forms around an image. */
  datatype Event =
    | ImageDrawn(x: Ref, ctm: Matrix, depth: nat)
    | PathPainted(path: seq<Seg>, gs: Gs, stroke: bool, fill: bool)
    | SpaceSet(space: Obj)
    | FontSelected(font: string)
    | InlineImage
}
