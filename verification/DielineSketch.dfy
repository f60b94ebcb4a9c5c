/** The exact condition for a stable dieline extraction, found by a sketch of the page: a walk that
    follows matrices, colour spaces and paths and nothing else. */
module DielineSketch {
  import opened PdfContent
  import opened ContentWalk
  import opened Dieline
  import opened PrintedNumber
  import opened DielineStability

  /** The part of the graphics state that the sketch follows. */
  datatype Look = Look(ctm: Matrix, strokeSpace: Obj, fillSpace: Obj)

  datatype Sketch = Sketch(look: Look, stack: seq<Look>, ops: seq<Obj>, path: seq<Seg>)

  datatype Painted = Painted(look: Look, path: seq<Seg>, stroke: bool, fill: bool)

  function FreshLook(m: Matrix): Look {
    Look(m, DEVICE_GRAY, DEVICE_GRAY)
  }

  function InSpace(look: Look, stroke: bool, space: Obj): Look {
    if stroke then look.(strokeSpace := space) else look.(fillSpace := space)
  }

  /** Every operator but `Do`. */
  function Move(ctx: Context, sk: Sketch, op: Op): Sketch {
    match op
    case Save => sk.(stack := sk.stack + [sk.look])
    case Restore =>
      if sk.stack == [] then sk
      else sk.(look := sk.stack[|sk.stack| - 1], stack := sk.stack[..|sk.stack| - 1])
    case Concat => if |sk.ops| == 6 then sk.(look := sk.look.(ctm := Mul(MatrixOf(sk.ops), sk.look.ctm))) else sk
    case SetSpace(stroke) =>
      if sk.ops == [] then sk else sk.(look := InSpace(sk.look, stroke, ResolveSpace(ctx.res, sk.ops[0])))
    case SetDevice(stroke, device) => sk.(look := InSpace(sk.look, stroke, Name(DeviceName(device))))
    case Segment(kind) => sk.(path := sk.path + [Seg(kind, Numbers(sk.ops))])
    case Paint(_) => sk.(path := [])
    case _ => sk
  }

  function PaintedBy(sk: Sketch, op: Op): seq<Painted> {
    if op.Paint? && sk.path != [] && (op.paint.Strokes() || op.paint.Fills())
    then [Painted(sk.look, sk.path, op.paint.Strokes(), op.paint.Fills())] else []
  }

  /** The paths that a stream paints, through its forms. */
  function Paints(g: Graph, ctx: Context, sk: Sketch, ts: seq<Token>): seq<Painted>
    decreases MAX_DEPTH - ctx.depth, |ts|, 1
  {
    if ts == [] then []
    else match ts[0]
      case Operand(o) => Paints(g, ctx, sk.(ops := sk.ops + [o]), ts[1..])
      case Operator(op) =>
        (if op == Invoke then FormPaints(g, ctx, sk) else PaintedBy(sk, op)) +
        Paints(g, ctx, (if op == Invoke then sk else Move(ctx, sk, op)).(ops := []), ts[1..])
  }

  function FormPaints(g: Graph, ctx: Context, sk: Sketch): seq<Painted>
    decreases MAX_DEPTH - ctx.depth, 0, 0
  {
    if sk.ops == [] || !sk.ops[0].Name? || !Resolves(g, ctx.res, sk.ops[0].name) then []
    else
      var x := ctx.res.xobjects[sk.ops[0].name];
      if g[x].Form? && ctx.depth < MAX_DEPTH && x !in ctx.busy then
        var look := FreshLook(Mul(FormMatrix(g[x].matrix), sk.look.ctm));
        Paints(g, Inner(ctx, x, g[x].resources), Sketch(look, [], [], []), g[x].content)
      else []
  }

  function PagePaints(g: Graph, res: Resources, content: seq<Token>): seq<Painted> {
    Paints(g, Context(res, 0, {}), Sketch(FreshLook(IDENTITY), [], [], []), content)
  }

  // ----- the sketch follows the walk -----

  function LookOf(gs: Gs): Look {
    Look(gs.ctm, gs.strokeSpace, gs.fillSpace)
  }

  function SketchOf(st: State): Sketch {
    Sketch(LookOf(st.gs), seq(|st.stack|, i requires 0 <= i < |st.stack| => LookOf(st.stack[i])), st.ops, st.path)
  }

  function PaintedIn(events: seq<Event>): seq<Painted> {
    if events == [] then []
    else
      var e := events[0];
      (if e.PathPainted? then [Painted(LookOf(e.gs), e.path, e.stroke, e.fill)] else []) + PaintedIn(events[1..])
  }

  lemma {:induction false} PaintedAppend(a: seq<Event>, b: seq<Event>)
    ensures PaintedIn(a + b) == PaintedIn(a) + PaintedIn(b)
  {
    if a == [] {
      assert a + b == b;
    } else {
      assert (a + b)[0] == a[0] && (a + b)[1..] == a[1..] + b;
      PaintedAppend(a[1..], b);
    }
  }

  lemma PlainSketched(ctx: Context, st: State, op: Op)
    requires op != Invoke
    ensures var out := Plain(ctx, st, op);
            && SketchOf(out.st.(ops := [])) == Move(ctx, SketchOf(st), op).(ops := [])
            && PaintedIn(out.events) == PaintedBy(SketchOf(st), op)
  {
    hide Mul, MatrixOf;
    var out := Plain(ctx, st, op);
    assert out.events == [] || (|out.events| == 1 && out.events[1..] == []);
    assert SketchOf(out.st).stack == Move(ctx, SketchOf(st), op).stack;
  }

  lemma {:induction false} RunSketched(g: Graph, ctx: Context, st: State, ts: seq<Token>)
    ensures PaintedIn(Run(g, ctx, st, ts).events) == Paints(g, ctx, SketchOf(st), ts)
    decreases MAX_DEPTH - ctx.depth, |ts|, 1
  {
    hide Plain, Draw, Move, PaintedBy, FormPaints;
    if ts != [] {
      var first := Step(g, ctx, st, ts[0]);
      var rest := Run(g, ctx, first.st, ts[1..]);
      RunSketched(g, ctx, first.st, ts[1..]);
      PaintedAppend(first.events, rest.events);
      match ts[0]
      case Operand(o) =>
        assert SketchOf(first.st) == SketchOf(st).(ops := st.ops + [o]);
        assert [] + PaintedIn(rest.events) == PaintedIn(rest.events);
      case Operator(op) =>
        if op == Invoke {
          DrawSketched(g, ctx, st);
          assert SketchOf(first.st) == SketchOf(st).(ops := []);
        } else {
          PlainSketched(ctx, st, op);
        }
    }
  }

  lemma {:induction false} DrawSketched(g: Graph, ctx: Context, st: State)
    ensures PaintedIn(Draw(g, ctx, st)) == FormPaints(g, ctx, SketchOf(st))
    decreases MAX_DEPTH - ctx.depth, 0, 0
  {
    hide Mul, Run, Paints;
    var events := Draw(g, ctx, st);
    if st.ops != [] && st.ops[0].Name? && Resolves(g, ctx.res, st.ops[0].name) {
      var x := ctx.res.xobjects[st.ops[0].name];
      if g[x].Form? && ctx.depth < MAX_DEPTH && x !in ctx.busy {
        var inside := Fresh(Mul(FormMatrix(g[x].matrix), st.gs.ctm));
        RunSketched(g, Inner(ctx, x, g[x].resources), inside, g[x].content);
        assert SketchOf(inside) == Sketch(FreshLook(inside.gs.ctm), [], [], []);
      } else if g[x] == Image {
        assert events[1..] == [];
      }
    }
  }

  // ----- stability -----

  ghost predicate PathExact(path: seq<Seg>) {
    forall i, j | 0 <= i < |path| && 0 <= j < |path[i].v| :: PrintsExactly(path[i].v[j])
  }

  predicate Spot(matches: string -> bool, space: Obj) {
    Hit(Colorants(space), matches) != ""
  }

  /** A side of the path is painted in a colour that is extracted. */
  predicate Extracted(matches: string -> bool, p: Painted) {
    (p.stroke && Spot(matches, p.look.strokeSpace)) || (p.fill && Spot(matches, p.look.fillSpace))
  }

  ghost predicate MatrixExact(m: Matrix) {
    forall v <- MatrixNums(m) :: PrintsExactly(v)
  }

  ghost predicate PaintExact(matches: string -> bool, p: Painted) {
    Extracted(matches, p) ==> MatrixExact(p.look.ctm) && PathExact(p.path)
  }

  lemma {:induction false} AllExactIff(items: seq<Item>)
    ensures AllExact(items) <==> forall item <- items :: Exact(item)
  {
    hide Exact;
    if items != [] {
      var n := |items| - 1;
      AllExactIff(items[..n]);
      assert items == items[..n] + [items[n]];
    }
  }

  lemma SideExactIff(matches: string -> bool, path: seq<Seg>, gs: Gs, stroke: bool, painted: bool)
    ensures var side := SideItems(matches, path, gs, stroke, painted);
            (forall item <- side :: Exact(item)) <==>
            (painted && Spot(matches, if stroke then gs.strokeSpace else gs.fillSpace) ==>
               MatrixExact(gs.ctm) && PathExact(path))
  {
    hide PrintsExactly, Hit, Colorants, Tint;
    var side := SideItems(matches, path, gs, stroke, painted);
    if side != [] {
      assert side[0] in side;
    }
  }

  lemma EventExactIff(matches: string -> bool, e: Event)
    requires e.PathPainted?
    ensures (forall item <- EventItems(matches, e) :: Exact(item)) <==>
            PaintExact(matches, Painted(LookOf(e.gs), e.path, e.stroke, e.fill))
  {
    hide Exact, MatrixExact, PathExact, Spot, SideItems;
    SideExactIff(matches, e.path, e.gs, true, e.stroke);
    SideExactIff(matches, e.path, e.gs, false, e.fill);
    InBoth(SideItems(matches, e.path, e.gs, true, e.stroke), SideItems(matches, e.path, e.gs, false, e.fill));
  }

  lemma InBoth(a: seq<Item>, b: seq<Item>)
    ensures (forall item <- a + b :: Exact(item)) <==>
            (forall item <- a :: Exact(item)) && forall item <- b :: Exact(item)
  {
    hide Exact;
    assert forall item <- a :: item in a + b;
    assert forall item <- b :: item in a + b;
  }

  ghost predicate AllPaintsExact(matches: string -> bool, ps: seq<Painted>) {
    forall p <- ps :: PaintExact(matches, p)
  }

  lemma PaintsSnoc(matches: string -> bool, ps: seq<Painted>, p: Painted)
    ensures AllPaintsExact(matches, ps + [p]) <==> AllPaintsExact(matches, ps) && PaintExact(matches, p)
  {
    hide PaintExact;
    assert p in ps + [p] && forall q <- ps :: q in ps + [p];
  }

  lemma {:induction false} ItemsExactIff(matches: string -> bool, events: seq<Event>)
    ensures (forall item <- Items(matches, events) :: Exact(item)) <==> AllPaintsExact(matches, PaintedIn(events))
  {
    hide Exact, PaintExact;
    if events != [] {
      var n := |events| - 1;
      var front, e := events[..n], events[n];
      assert events == front + [e];
      ItemsExactIff(matches, front);
      PaintedAppend(front, [e]);
      assert [e][1..] == [];
      if e.PathPainted? {
        var p := Painted(LookOf(e.gs), e.path, e.stroke, e.fill);
        assert PaintedIn([e]) == [p];
        EventExactIff(matches, e);
        PaintsSnoc(matches, PaintedIn(front), p);
        hide EventItems;
        InBoth(Items(matches, front), EventItems(matches, e));
      } else {
        assert PaintedIn([e]) == [] && PaintedIn(front) + [] == PaintedIn(front);
        assert Items(matches, front) + [] == Items(matches, front);
      }
    }
  }

  /** The extraction is stable if and only if, on the sketch of the page, every matrix and every
      number of a path that is painted in an extracted colour prints exactly. */
  lemma StableIffSketchExact(matches: string -> bool, g: Graph, res: Resources, content: seq<Token>, g': Graph)
    ensures var items := Extract(matches, g, res, content);
            Extract(matches, g', PageResources(Keys(items)), PageContent(items)) == items <==>
            AllPaintsExact(matches, PagePaints(g, res, content))
  {
    hide Keys, PageContent, PageResources, Items, Run, Paints, AllPaintsExact, AllExact, Exact, PaintedIn;
    ExtractionStableIff(matches, g, res, content, g');
    var st, ctx := Fresh(IDENTITY), Context(res, 0, {});
    RunSketched(g, ctx, st, content);
    assert SketchOf(st) == Sketch(FreshLook(IDENTITY), [], [], []);
    AllExactIff(Extract(matches, g, res, content));
    ItemsExactIff(matches, WalkPage(g, res, content));
  }
}
