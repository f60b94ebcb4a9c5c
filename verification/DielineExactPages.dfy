/** Pages whose dieline extraction is stable, by a condition on the page and its forms alone. */
module DielineExactPages {
  import opened PdfContent
  import opened ContentWalk
  import opened Dieline
  import opened PrintedNumber
  import opened DielineStability
  import opened DielineSketch

  // ----- counting matrices -----

  /** Matrices by grade: the grade of a product is at most the sum of the grades. */
  type Family = (nat, Matrix) -> bool

  /** The identity has grade 0, grades add up, and up to grade `n` matrices print exactly. */
  ghost predicate Graded(family: Family, n: nat) {
    && family(0, IDENTITY)
    && (forall i: nat, j: nat, x, y | family(i, x) && family(j, y) :: family(i + j, Mul(x, y)))
    && forall i: nat, x | i <= n && family(i, x) :: MatrixExact(x)
  }

  function Grade(m: Matrix): nat {
    if m == IDENTITY then 0 else 1
  }

  /** Under a matrix of grade `i`, another matrix of the family may be concatenated. */
  ghost predicate Allows(family: Family, n: nat, i: nat, m: Matrix) {
    family(Grade(m), m) && i + Grade(m) <= n
  }

  /** The grade of the matrix and the grades on the stack after an operator. */
  function GradeAfter(ops: seq<Obj>, op: Op, i: nat, grades: seq<nat>): nat {
    if op == Concat && |ops| == 6 then i + Grade(MatrixOf(ops))
    else if op == Restore && grades != [] then grades[|grades| - 1]
    else i
  }

  function GradesAfter(op: Op, i: nat, grades: seq<nat>): seq<nat> {
    if op == Save then grades + [i]
    else if op == Restore && grades != [] then grades[..|grades| - 1]
    else grades
  }

  ghost predicate OperatorOk(family: Family, n: nat, ops: seq<Obj>, op: Op, i: nat) {
    && (op == Concat && |ops| == 6 ==> Allows(family, n, i, MatrixOf(ops)))
    && (op.Segment? ==> forall j | 0 <= j < |ops| :: PrintsExactly(NumberOf(ops[j])))
  }

  /** A walk over q, Q, cm, Do and the path operators that only counts: no chain of matrices on the
      page and through its forms is longer than `n`, all are of the family, and all path numbers
      print exactly. */
  ghost predicate Counts(family: Family, n: nat, g: Graph, ctx: Context, ops: seq<Obj>, ts: seq<Token>, i: nat,
      grades: seq<nat>)
    decreases MAX_DEPTH - ctx.depth, |ts|, 1
  {
    ts == [] ||
    match ts[0]
    case Operand(o) => Counts(family, n, g, ctx, ops + [o], ts[1..], i, grades)
    case Operator(op) =>
      && OperatorOk(family, n, ops, op, i)
      && (op == Invoke ==> FormCounts(family, n, g, ctx, ops, i))
      && Counts(family, n, g, ctx, [], ts[1..], GradeAfter(ops, op, i, grades), GradesAfter(op, i, grades))
  }

  ghost predicate FormCounts(family: Family, n: nat, g: Graph, ctx: Context, ops: seq<Obj>, i: nat)
    decreases MAX_DEPTH - ctx.depth, 0, 0
  {
    ops != [] && ops[0].Name? && Resolves(g, ctx.res, ops[0].name) ==>
      var x := ctx.res.xobjects[ops[0].name];
      g[x].Form? && ctx.depth < MAX_DEPTH && x !in ctx.busy ==>
        var m := FormMatrix(g[x].matrix);
        && Allows(family, n, i, m)
        && Counts(family, n, g, Inner(ctx, x, g[x].resources), [], g[x].content, i + Grade(m), [])
  }

  // ----- what the sketch does meanwhile -----

  ghost predicate Tracks(family: Family, n: nat, sk: Sketch, i: nat, grades: seq<nat>) {
    && i <= n && family(i, sk.look.ctm)
    && |sk.stack| == |grades|
    && (forall k | 0 <= k < |grades| :: grades[k] <= n && family(grades[k], sk.stack[k].ctm))
    && PathExact(sk.path)
  }

  ghost predicate NumbersExact(ps: seq<Painted>) {
    forall p <- ps :: MatrixExact(p.look.ctm) && PathExact(p.path)
  }

  lemma ProductGraded(family: Family, n: nat, i: nat, m: Matrix, ctm: Matrix)
    requires Graded(family, n) && family(i, ctm) && Allows(family, n, i, m)
    ensures family(i + Grade(m), Mul(m, ctm))
  {
    hide Mul;
    assert family(Grade(m) + i, Mul(m, ctm));
  }

  lemma TrackedExact(family: Family, n: nat, i: nat, m: Matrix)
    requires Graded(family, n) && i <= n && family(i, m)
    ensures MatrixExact(m)
  {
    hide Mul, MatrixExact;
  }

  lemma MoveTracks(family: Family, n: nat, ctx: Context, sk: Sketch, op: Op, i: nat, grades: seq<nat>)
    requires Graded(family, n) && Tracks(family, n, sk, i, grades) && OperatorOk(family, n, sk.ops, op, i)
    ensures Tracks(family, n, Move(ctx, sk, op).(ops := []), GradeAfter(sk.ops, op, i, grades),
            GradesAfter(op, i, grades))
  {
    hide Mul, MatrixOf, PrintsExactly, Grade, Graded;
    if op == Concat && |sk.ops| == 6 {
      ProductGraded(family, n, i, MatrixOf(sk.ops), sk.look.ctm);
    }
  }

  lemma {:induction false} SketchTracks(family: Family, n: nat, g: Graph, ctx: Context, sk: Sketch, ts: seq<Token>,
      i: nat, grades: seq<nat>)
    requires Graded(family, n) && Tracks(family, n, sk, i, grades)
    requires Counts(family, n, g, ctx, sk.ops, ts, i, grades)
    ensures NumbersExact(Paints(g, ctx, sk, ts))
    decreases MAX_DEPTH - ctx.depth, |ts|, 1
  {
    hide Move, Graded, PathExact, MatrixExact, OperatorOk, FormCounts, FormPaints, GradeAfter, GradesAfter;
    if ts != [] {
      match ts[0]
      case Operand(o) => SketchTracks(family, n, g, ctx, sk.(ops := sk.ops + [o]), ts[1..], i, grades);
      case Operator(op) =>
        TrackedExact(family, n, i, sk.look.ctm);
        var next := (if op == Invoke then sk else Move(ctx, sk, op)).(ops := []);
        if op == Invoke {
          FormTracks(family, n, g, ctx, sk, i, grades);
          InvokeCounts(sk.ops, i, grades);
        } else {
          MoveTracks(family, n, ctx, sk, op, i, grades);
        }
        SketchTracks(family, n, g, ctx, next, ts[1..], GradeAfter(sk.ops, op, i, grades), GradesAfter(op, i, grades));
    }
  }

  lemma InvokeCounts(ops: seq<Obj>, i: nat, grades: seq<nat>)
    ensures GradeAfter(ops, Invoke, i, grades) == i && GradesAfter(Invoke, i, grades) == grades
  {
  }

  lemma {:induction false} FormTracks(family: Family, n: nat, g: Graph, ctx: Context, sk: Sketch, i: nat,
      grades: seq<nat>)
    requires Graded(family, n) && Tracks(family, n, sk, i, grades) && FormCounts(family, n, g, ctx, sk.ops, i)
    ensures NumbersExact(FormPaints(g, ctx, sk))
    decreases MAX_DEPTH - ctx.depth, 0, 0
  {
    hide Mul, Paints, Counts, Graded, Grade;
    if sk.ops != [] && sk.ops[0].Name? && Resolves(g, ctx.res, sk.ops[0].name) {
      var x := ctx.res.xobjects[sk.ops[0].name];
      if g[x].Form? && ctx.depth < MAX_DEPTH && x !in ctx.busy {
        var m := FormMatrix(g[x].matrix);
        ProductGraded(family, n, i, m, sk.look.ctm);
        SketchTracks(family, n, g, Inner(ctx, x, g[x].resources), Sketch(FreshLook(Mul(m, sk.look.ctm)), [], [], []),
                     g[x].content, i + Grade(m), []);
      }
    }
  }

  /** Where the matrices of the page and its forms belong to a graded family, no chain of them exceeds
      the grade up to which the family prints exactly, and path numbers print exactly, the extraction
      is stable. */
  lemma PageStable(matches: string -> bool, family: Family, n: nat, g: Graph, res: Resources, content: seq<Token>,
      g': Graph)
    requires Graded(family, n) && Counts(family, n, g, Context(res, 0, {}), [], content, 0, [])
    ensures var items := Extract(matches, g, res, content);
            Extract(matches, g', PageResources(Keys(items)), PageContent(items)) == items
  {
    hide Graded, Counts, Keys, PageContent, PageResources, Extract, Paints, PathExact, MatrixExact;
    var sk := Sketch(FreshLook(IDENTITY), [], [], []);
    StartTracks(family, n);
    SketchTracks(family, n, g, Context(res, 0, {}), sk, content, 0, []);
    StableIffSketchExact(matches, g, res, content, g');
  }

  lemma StartTracks(family: Family, n: nat)
    requires Graded(family, n)
    ensures Tracks(family, n, Sketch(FreshLook(IDENTITY), [], [], []), 0, [])
  {
  }

  // ----- integer scalings, turns and translations -----

  function Power(s: nat, i: nat): nat {
    if i == 0 then 1 else s * Power(s, i - 1)
  }

  /** How far `i` translations of at most `b` reach under scalings of at most `s`. */
  function Reach(s: nat, b: nat, i: nat): nat {
    i * b * Power(s, i)
  }

  predicate Whole(x: real) {
    x.Floor as real == x
  }

  predicate Thousandths(x: real) {
    Whole(x * 1000.0)
  }

  /** Whole numbers that scale by at most `s` to the `i`, and a translation in thousandths. */
  predicate Linear(s: nat, i: nat, m: Matrix) {
    && Whole(m.a) && Whole(m.b) && Whole(m.c) && Whole(m.d)
    && Abs(m.a) + Abs(m.b) <= Power(s, i) as real && Abs(m.c) + Abs(m.d) <= Power(s, i) as real
  }

  predicate Shift(s: nat, b: nat, i: nat, m: Matrix) {
    Thousandths(m.e) && Thousandths(m.f) && Abs(m.e) + Abs(m.f) <= Reach(s, b, i) as real
  }

  /** Products of `i` matrices whose rows are whole numbers adding up to at most `s` and whose
      translations have three decimals and add up to at most `b`. */
  predicate Drawing(s: nat, b: nat, i: nat, m: Matrix) {
    Linear(s, i, m) && Shift(s, b, i, m)
  }

  function Drawings(s: nat, b: nat): Family {
    (i: nat, m: Matrix) => Drawing(s, b, i, m)
  }

  lemma {:induction false} PowerSum(s: nat, i: nat, j: nat)
    ensures Power(s, i + j) == Power(s, i) * Power(s, j)
  {
    if i > 0 {
      PowerSum(s, i - 1, j);
      Regroup(s, Power(s, i - 1), Power(s, j));
    }
  }

  lemma Regroup(a: nat, b: nat, c: nat)
    ensures a * (b * c) == (a * b) * c
  {
  }

  lemma {:induction false} PowerPositive(s: nat, i: nat)
    requires s >= 1
    ensures Power(s, i) >= 1
  {
    if i > 0 {
      PowerPositive(s, i - 1);
      Grows(s, Power(s, i - 1));
    }
  }

  lemma Grows(s: nat, p: nat)
    requires s >= 1
    ensures s * p >= p
  {
    assert (s - 1) * p >= 0;
  }

  lemma Converted(x: int, y: int)
    ensures (x * y) as real == x as real * y as real
  {
  }

  lemma WholeIs(x: real, n: int)
    requires x == n as real
    ensures Whole(x)
  {
  }

  lemma WholeDot(p: real, q: real, r: real, s: real)
    requires Whole(p) && Whole(q) && Whole(r) && Whole(s)
    ensures Whole(Dot(p, q, r, s))
  {
    var a, b, c, d := p.Floor, q.Floor, r.Floor, s.Floor;
    Converted(a, b);
    Converted(c, d);
    assert p == a as real && q == b as real && r == c as real && s == d as real;
    var x, y := a * b, c * d;
    assert Dot(p, q, r, s) == x as real + y as real == (x + y) as real;
    WholeIs(Dot(p, q, r, s), x + y);
  }

  function Dot(p: real, q: real, r: real, s: real): real {
    p * q + r * s
  }

  lemma ThousandthsDot(p: real, q: real, r: real, s: real, t: real)
    requires Thousandths(p) && Whole(q) && Thousandths(r) && Whole(s) && Thousandths(t)
    ensures Thousandths(Dot(p, q, r, s) + t)
  {
    WholeDot(p * 1000.0, q, r * 1000.0, s);
    DotScaled(p, q, r, s);
    hide Dot;
    WholeSum(Dot(p * 1000.0, q, r * 1000.0, s), t * 1000.0);
  }

  lemma DotScaled(p: real, q: real, r: real, s: real)
    ensures Dot(p * 1000.0, q, r * 1000.0, s) == Dot(p, q, r, s) * 1000.0
  {
    assert p * 1000.0 * q == p * q * 1000.0 && r * 1000.0 * s == r * s * 1000.0;
  }

  lemma WholeSum(x: real, y: real)
    requires Whole(x) && Whole(y)
    ensures Whole(x + y)
  {
    WholeIs(x + y, x.Floor + y.Floor);
  }

  lemma Triangle(x: real, y: real)
    ensures Abs(x + y) <= Abs(x) + Abs(y)
  {
  }

  lemma AbsProduct(x: real, y: real)
    ensures Abs(x * y) == Abs(x) * Abs(y)
  {
  }

  lemma Larger(x: real, y: real, z: real)
    requires x >= 0.0 && y <= z
    ensures x * y <= x * z
  {
    assert x * (z - y) >= 0.0;
  }

  /** A row times two columns. */
  lemma DotsBound(p: real, r: real, q: real, q': real, s: real, s': real, bound: real)
    requires Abs(q) + Abs(q') <= bound && Abs(s) + Abs(s') <= bound
    ensures Abs(Dot(p, q, r, s)) + Abs(Dot(p, q', r, s')) <= (Abs(p) + Abs(r)) * bound
  {
    var pq, rs, pq', rs' := p * q, r * s, p * q', r * s';
    assert Dot(p, q, r, s) == pq + rs && Dot(p, q', r, s') == pq' + rs';
    Triangle(pq, rs);
    Triangle(pq', rs');
    var x, y := Abs(p), Abs(r);
    RowBound(p, q, q', bound);
    RowBound(r, s, s', bound);
    Spread(bound, x, y);
  }

  lemma RowBound(p: real, q: real, q': real, bound: real)
    requires Abs(q) + Abs(q') <= bound
    ensures Abs(p * q) + Abs(p * q') <= Abs(p) * bound
  {
    AbsProduct(p, q);
    AbsProduct(p, q');
    var x, y, z := Abs(p), Abs(q), Abs(q');
    hide Abs;
    Spread(x, y, z);
    AbsPositive(p);
    Larger(x, y + z, bound);
  }

  lemma AbsPositive(x: real)
    ensures Abs(x) >= 0.0
  {
  }

  lemma Spread(x: real, y: real, z: real)
    ensures x * (y + z) == x * y + x * z && (y + z) * x == y * x + z * x
    ensures x * y == y * x && x * z == z * x
  {
  }

  lemma MulDots(x: Matrix, y: Matrix)
    ensures Mul(x, y) == Matrix(Dot(x.a, y.a, x.b, y.c), Dot(x.a, y.b, x.b, y.d), Dot(x.c, y.a, x.d, y.c),
                                Dot(x.c, y.b, x.d, y.d), Dot(x.e, y.a, x.f, y.c) + y.e, Dot(x.e, y.b, x.f, y.d) + y.f)
  {
  }

  /** A row sum under a product. */
  lemma RowProduct(row: real, bound: nat, more: nat, sum: real)
    requires 0.0 <= row <= bound as real && sum <= row * more as real
    ensures sum <= (bound * more) as real
  {
    Converted(bound, more);
    Larger(more as real, row, bound as real);
    Spread(more as real, row, bound as real);
  }

  lemma LinearProduct(s: nat, i: nat, j: nat, x: Matrix, y: Matrix)
    requires Linear(s, i, x) && Linear(s, j, y)
    ensures Linear(s, i + j, Mul(x, y))
  {
    hide Mul, Dot, Whole, Power, Abs;
    MulDots(x, y);
    WholeDot(x.a, y.a, x.b, y.c);
    WholeDot(x.a, y.b, x.b, y.d);
    WholeDot(x.c, y.a, x.d, y.c);
    WholeDot(x.c, y.b, x.d, y.d);
    PowerSum(s, i, j);
    RowLinear(x.a, x.b, y, Power(s, i), Power(s, j));
    RowLinear(x.c, x.d, y, Power(s, i), Power(s, j));
  }

  lemma RowLinear(p: real, r: real, y: Matrix, bound: nat, more: nat)
    requires Abs(p) + Abs(r) <= bound as real
    requires Abs(y.a) + Abs(y.b) <= more as real && Abs(y.c) + Abs(y.d) <= more as real
    ensures Abs(Dot(p, y.a, r, y.c)) + Abs(Dot(p, y.b, r, y.d)) <= (bound * more) as real
  {
    hide Dot;
    DotsBound(p, r, y.a, y.b, y.c, y.d, more as real);
    RowProduct(Abs(p) + Abs(r), bound, more, Abs(Dot(p, y.a, r, y.c)) + Abs(Dot(p, y.b, r, y.d)));
  }

  lemma ReachSum(s: nat, b: nat, i: nat, j: nat)
    requires s >= 1
    ensures Reach(s, b, i) * Power(s, j) + Reach(s, b, j) <= Reach(s, b, i + j)
  {
    hide Power;
    PowerSum(s, i, j);
    PowerPositive(s, i);
    var p, q, ib, jb := Power(s, i), Power(s, j), i * b, j * b;
    assert (ib * p) * q == ib * (p * q) by {
      Regroup(ib, p, q);
    }
    assert jb * q <= jb * (p * q) by {
      Grows(p, q);
      Monotone(jb, q, p * q);
    }
    Sum(i, j, b);
    Sum(ib, jb, p * q);
  }

  lemma Monotone(x: nat, y: nat, z: nat)
    requires y <= z
    ensures x * y <= x * z
  {
    assert x * (z - y) >= 0;
  }

  lemma Sum(x: nat, y: nat, z: nat)
    ensures (x + y) * z == x * z + y * z
  {
  }

  lemma ShiftProduct(s: nat, b: nat, i: nat, j: nat, x: Matrix, y: Matrix)
    requires s >= 1 && Linear(s, j, y) && Shift(s, b, i, x) && Shift(s, b, j, y)
    ensures Shift(s, b, i + j, Mul(x, y))
  {
    hide Mul, Dot, Whole, Power, Reach;
    MulDots(x, y);
    ThousandthsDot(x.e, y.a, x.f, y.c, y.e);
    ThousandthsDot(x.e, y.b, x.f, y.d, y.f);
    var r, q := Reach(s, b, i), Power(s, j);
    RowLinear(x.e, x.f, y, r, q);
    var u, v := Dot(x.e, y.a, x.f, y.c), Dot(x.e, y.b, x.f, y.d);
    Triangle(u, y.e);
    Triangle(v, y.f);
    ReachSum(s, b, i, j);
    assert (r * q) as real + Reach(s, b, j) as real == (r * q + Reach(s, b, j)) as real;
  }

  // ----- printing them -----

  /** Numbers below this print all their decimals, with a sign and without. */
  function Limit(): nat {
    Power(10, 26)
  }

  lemma {:induction false} DigitBound(i: nat, k: nat)
    requires k >= 1 && i < Power(10, k)
    ensures DigitCount(i) <= k
  {
    if i >= 10 {
      assert Power(10, 1) == 10 * Power(10, 0);
      assert Power(10, k) == 10 * Power(10, k - 1);
      DigitBound(i / 10, k - 1);
    }
  }

  lemma SmallPrints(x: real)
    requires Thousandths(x) && Abs(x) < Limit() as real
    ensures PrintsExactly(x)
  {
    var n := (Abs(x) * 1000.0).Floor;
    if x < 0.0 {
      WholeIs(Abs(x) * 1000.0, -(x * 1000.0).Floor);
    }
    hide Power;
    assert n as real == Abs(x) * 1000.0;
    assert n < 1000 * Limit();
    DigitBound(n / 1000, 26);
  }

  lemma WholeThousandths(x: real)
    requires Whole(x)
    ensures Thousandths(x)
  {
    WholeIs(x * 1000.0, x.Floor * 1000);
  }

  lemma {:induction false} PowerMonotone(s: nat, i: nat, n: nat)
    requires s >= 1 && i <= n
    ensures Power(s, i) <= Power(s, n)
    decreases n - i
  {
    if i < n {
      PowerMonotone(s, i, n - 1);
      Grows(s, Power(s, n - 1));
    }
  }

  lemma ReachMonotone(s: nat, b: nat, i: nat, n: nat)
    requires s >= 1 && i <= n
    ensures Reach(s, b, i) <= Reach(s, b, n)
  {
    hide Power;
    PowerMonotone(s, i, n);
    Monotone(b, i, n);
    Monotone(i * b, Power(s, i), Power(s, n));
    Monotone(Power(s, n), i * b, n * b);
  }

  /** The numbers stay short enough up to grade `n`. */
  predicate Short(s: nat, b: nat, n: nat) {
    s >= 1 && Power(s, n) < Limit() && Reach(s, b, n) < Limit()
  }

  lemma DrawingPrints(s: nat, b: nat, n: nat, i: nat, m: Matrix)
    requires Short(s, b, n) && i <= n && Drawing(s, b, i, m)
    ensures MatrixExact(m)
  {
    hide Power, Reach, PrintsExactly, Limit, Whole;
    PowerMonotone(s, i, n);
    ReachMonotone(s, b, i, n);
    WholeThousandths(m.a);
    WholeThousandths(m.b);
    WholeThousandths(m.c);
    WholeThousandths(m.d);
    SmallPrints(m.a);
    SmallPrints(m.b);
    SmallPrints(m.c);
    SmallPrints(m.d);
    SmallPrints(m.e);
    SmallPrints(m.f);
  }

  lemma DrawingGraded(s: nat, b: nat, n: nat)
    requires Short(s, b, n)
    ensures Graded(Drawings(s, b), n)
  {
    hide Mul, Drawing, MatrixExact, Short;
    IdentityDrawing(s, b);
    forall i: nat, j: nat, x, y | Drawing(s, b, i, x) && Drawing(s, b, j, y)
      ensures Drawing(s, b, i + j, Mul(x, y))
    {
      ProductDrawing(s, b, n, i, j, x, y);
    }
    forall i: nat, x | i <= n && Drawing(s, b, i, x)
      ensures MatrixExact(x)
    {
      DrawingPrints(s, b, n, i, x);
    }
  }

  lemma IdentityDrawing(s: nat, b: nat)
    ensures Drawing(s, b, 0, IDENTITY)
  {
    assert Power(s, 0) == 1 && Reach(s, b, 0) == 0;
  }

  lemma ProductDrawing(s: nat, b: nat, n: nat, i: nat, j: nat, x: Matrix, y: Matrix)
    requires Short(s, b, n) && Drawing(s, b, i, x) && Drawing(s, b, j, y)
    ensures Drawing(s, b, i + j, Mul(x, y))
  {
    hide Mul, Linear, Shift;
    LinearProduct(s, i, j, x, y);
    ShiftProduct(s, b, i, j, x, y);
  }

  /** A page drawn with whole scalings and turns whose rows add up to at most `s`, and translations of
      three decimals that add up to at most `b`, no more than `n` of them in a chain. */
  lemma DrawingStable(matches: string -> bool, s: nat, b: nat, n: nat, g: Graph, res: Resources, content: seq<Token>,
      g': Graph)
    requires Short(s, b, n)
    requires Counts(Drawings(s, b), n, g, Context(res, 0, {}), [], content, 0, [])
    ensures var items := Extract(matches, g, res, content);
            Extract(matches, g', PageResources(Keys(items)), PageContent(items)) == items
  {
    hide Graded, Counts, Keys, PageContent, PageResources, Extract, Drawing, Short;
    DrawingGraded(s, b, n);
    PageStable(matches, Drawings(s, b), n, g, res, content, g');
  }

  // ----- a page with a translation and a scaling -----

  lemma {:induction false} OperandsCount(family: Family, n: nat, g: Graph, ctx: Context, ops: seq<Obj>,
      objs: seq<Obj>, rest: seq<Token>, i: nat, grades: seq<nat>)
    ensures Counts(family, n, g, ctx, ops, Operands(objs) + rest, i, grades) ==
            Counts(family, n, g, ctx, ops + objs, rest, i, grades)
    decreases |objs|
  {
    hide OperatorOk, FormCounts;
    if objs == [] {
      assert Operands(objs) + rest == rest && ops + objs == ops;
    } else {
      var ts := Operands(objs) + rest;
      assert ts[0] == Operand(objs[0]) && ts[1..] == Operands(objs[1..]) + rest;
      assert (ops + [objs[0]]) + objs[1..] == ops + objs;
      OperandsCount(family, n, g, ctx, ops + [objs[0]], objs[1..], rest, i, grades);
    }
  }

  lemma CommandCounts(family: Family, n: nat, g: Graph, ctx: Context, objs: seq<Obj>, op: Op, rest: seq<Token>, i: nat,
      grades: seq<nat>)
    requires op != Invoke && OperatorOk(family, n, objs, op, i)
    requires Counts(family, n, g, ctx, [], rest, GradeAfter(objs, op, i, grades), GradesAfter(op, i, grades))
    ensures Counts(family, n, g, ctx, [], Command(objs, op) + rest, i, grades)
  {
    hide OperatorOk, FormCounts, GradeAfter, GradesAfter;
    var ts := [Operator(op)] + rest;
    assert ts[1..] == rest;
    OperandsCount(family, n, g, ctx, [], objs, ts, i, grades);
    assert Command(objs, op) + rest == Operands(objs) + ts && [] + objs == objs;
  }

  function Six(a: real, b: real, c: real, d: real, e: real, f: real): seq<Obj> {
    [Num(a), Num(b), Num(c), Num(d), Num(e), Num(f)]
  }

  /** `1 0 0 1 10.5 20 cm 2 0 0 2 0 0 cm 0.25 3 m S` */
  function PlacedContent(): seq<Token> {
    Command(Six(1.0, 0.0, 0.0, 1.0, 10.5, 20.0), Concat) +
    (Command(Six(2.0, 0.0, 0.0, 2.0, 0.0, 0.0), Concat) +
    (Command([Num(0.25), Num(3.0)], Segment(MoveTo)) + (Command([], Paint(StrokeOpen)) + [])))
  }

  lemma PlacedMatrices()
    ensures var x, y := MatrixOf(Six(1.0, 0.0, 0.0, 1.0, 10.5, 20.0)), MatrixOf(Six(2.0, 0.0, 0.0, 2.0, 0.0, 0.0));
            && x == Matrix(1.0, 0.0, 0.0, 1.0, 10.5, 20.0) && y == Matrix(2.0, 0.0, 0.0, 2.0, 0.0, 0.0)
            && Grade(x) == 1 && Grade(y) == 1 && Drawing(2, 31, 1, x) && Drawing(2, 31, 1, y)
  {
    assert Power(2, 1) == 2 * Power(2, 0) == 2;
    assert Reach(2, 31, 1) == 62;
    var x, y := MatrixOf(Six(1.0, 0.0, 0.0, 1.0, 10.5, 20.0)), MatrixOf(Six(2.0, 0.0, 0.0, 2.0, 0.0, 0.0));
    WholeIs(x.e * 1000.0, 10500);
    WholeIs(x.f * 1000.0, 20000);
  }

  lemma PlacedShort()
    ensures Short(2, 31, 2)
  {
    assert Power(2, 2) == 2 * Power(2, 1) == 4;
    assert Reach(2, 31, 2) == 248;
    LimitLarge(26);
  }

  lemma {:induction false} LimitLarge(k: nat)
    ensures k >= 3 ==> Power(10, k) >= 1000
  {
    if k > 3 {
      LimitLarge(k - 1);
    } else if k == 3 {
      assert Power(10, 1) == 10 && Power(10, 2) == 100;
    }
  }

  /** A page with a translation and a scaling on which the extraction is stable. */
  lemma PlacedPageStable(matches: string -> bool, g: Graph, res: Resources, g': Graph)
    ensures var items := Extract(matches, g, res, PlacedContent());
            Extract(matches, g', PageResources(Keys(items)), PageContent(items)) == items
  {
    hide Extract, Keys, PageContent, PageResources;
    PlacedShort();
    PlacedCounts(g, Context(res, 0, {}));
    DrawingStable(matches, 2, 31, 2, g, res, PlacedContent(), g');
  }

  lemma PlacedPath()
    ensures PrintsExactly(0.25) && PrintsExactly(3.0)
  {
    hide PrintsExactly;
    LimitLarge(26);
    WholeIs(0.25 * 1000.0, 250);
    WholeIs(3.0 * 1000.0, 3000);
    SmallPrints(0.25);
    SmallPrints(3.0);
  }

  lemma MatrixCounts(family: Family, n: nat, g: Graph, ctx: Context, objs: seq<Obj>, rest: seq<Token>, i: nat)
    requires |objs| == 6 && Allows(family, n, i, MatrixOf(objs))
    requires Counts(family, n, g, ctx, [], rest, i + Grade(MatrixOf(objs)), [])
    ensures Counts(family, n, g, ctx, [], Command(objs, Concat) + rest, i, [])
  {
    hide Counts, MatrixOf, Command;
    CommandCounts(family, n, g, ctx, objs, Concat, rest, i, []);
  }

  lemma PathCounts(family: Family, n: nat, g: Graph, ctx: Context, i: nat)
    ensures Counts(family, n, g, ctx, [],
                   Command([Num(0.25), Num(3.0)], Segment(MoveTo)) + (Command([], Paint(StrokeOpen)) + []), i, [])
  {
    assert Counts(family, n, g, ctx, [], [], i, []);
    hide Counts, PrintsExactly, Command;
    PlacedPath();
    CommandCounts(family, n, g, ctx, [], Paint(StrokeOpen), [], i, []);
    CommandCounts(family, n, g, ctx, [Num(0.25), Num(3.0)], Segment(MoveTo), Command([], Paint(StrokeOpen)) + [],
                  i, []);
  }

  lemma PlacedCounts(g: Graph, ctx: Context)
    ensures Counts(Drawings(2, 31), 2, g, ctx, [], PlacedContent(), 0, [])
  {
    hide Counts, Drawing, MatrixOf, Grade, Command;
    var family := Drawings(2, 31);
    PlacedMatrices();
    PathCounts(family, 2, g, ctx, 2);
    var path := Command([Num(0.25), Num(3.0)], Segment(MoveTo)) + (Command([], Paint(StrokeOpen)) + []);
    var shift, scale := Six(1.0, 0.0, 0.0, 1.0, 10.5, 20.0), Six(2.0, 0.0, 0.0, 2.0, 0.0, 0.0);
    MatrixCounts(family, 2, g, ctx, scale, path, 1);
    MatrixCounts(family, 2, g, ctx, shift, Command(scale, Concat) + path, 0);
  }
}
