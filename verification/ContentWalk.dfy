/** The content-stream walker of the extraction tools: one object per stream, a fresh one for
    every form it enters. */
module ContentWalk {
  import opened PdfContent

  const MAX_DEPTH: nat := 16

  /** What does not change while one stream is walked. */
  datatype Context = Context(res: Resources, depth: nat, busy: set<Ref>)

  datatype State = State(gs: Gs, stack: seq<Gs>, ops: seq<Obj>, path: seq<Seg>)

  datatype Outcome = Outcome(st: State, events: seq<Event>)

  function Fresh(base: Matrix): State {
    State(FreshGs(base), [], [], [])
  }

  function DeviceName(d: Device): string {
    match d
    case Gray => "/DeviceGray"
    case Rgb => "/DeviceRGB"
    case Cmyk => "/DeviceCMYK"
  }

  /** Device spaces and `/Pattern` stand for themselves, other names are looked up. */
  function ResolveSpace(res: Resources, o: Obj): Obj {
    if o.Name? && o.name !in {"/DeviceGray", "/DeviceRGB", "/DeviceCMYK", "/Pattern"}
       && res.Resources? && o.name in res.spaces
    then res.spaces[o.name] else o
  }

  function WithSpace(gs: Gs, stroke: bool, space: Obj): Gs {
    if stroke then gs.(strokeSpace := space, strokeColor := NoColor)
    else gs.(fillSpace := space, fillColor := NoColor)
  }

  function WithColor(gs: Gs, stroke: bool, color: Color): Gs {
    if stroke then gs.(strokeColor := color) else gs.(fillColor := color)
  }

  function WithLine(gs: Gs, key: LineKey, ops: seq<Obj>): Gs {
    var gs' := gs.(line := gs.line[key := ops]);
    if key == Width then gs'.(lineWidth := Nth(ops, 0)) else gs'
  }

  function Numbers(ops: seq<Obj>): (v: seq<real>)
    ensures |v| == |ops|
  {
    seq(|ops|, i requires 0 <= i < |ops| => NumberOf(ops[i]))
  }

  /** The state change and the report of every operator but `Do`. */
  function Plain(ctx: Context, st: State, op: Op): Outcome {
    match op
    case Save => Outcome(st.(stack := st.stack + [st.gs]), [])
    case Restore =>
      if st.stack == [] then Outcome(st, [])
      else Outcome(st.(gs := st.stack[|st.stack| - 1], stack := st.stack[..|st.stack| - 1]), [])
    case Concat =>
      if |st.ops| == 6 then Outcome(st.(gs := st.gs.(ctm := Mul(MatrixOf(st.ops), st.gs.ctm))), [])
      else Outcome(st, [])
    case SetSpace(stroke) =>
      if st.ops == [] then Outcome(st, [])
      else
        var space := ResolveSpace(ctx.res, st.ops[0]);
        Outcome(st.(gs := WithSpace(st.gs, stroke, space)), [SpaceSet(space)])
    case SetDevice(stroke, device) =>
      var space := Name(DeviceName(device));
      Outcome(st.(gs := WithColor(WithSpace(st.gs, stroke, space), stroke, Color(st.ops, op))), [SpaceSet(space)])
    case SetColor(stroke, _) => Outcome(st.(gs := WithColor(st.gs, stroke, Color(st.ops, op))), [])
    case SetLine(key) => Outcome(st.(gs := WithLine(st.gs, key, st.ops)), [])
    case Segment(kind) => Outcome(st.(path := st.path + [Seg(kind, Numbers(st.ops))]), [])
    case Paint(paint) =>
      Outcome(st.(path := []),
              if st.path != [] && (paint.Strokes() || paint.Fills())
              then [PathPainted(st.path, st.gs, paint.Strokes(), paint.Fills())] else [])
    case SelectFont =>
      Outcome(st, if st.ops != [] && st.ops[0].Name? && ctx.res.Resources? && st.ops[0].name in ctx.res.fonts
                  then [FontSelected(st.ops[0].name)] else [])
    case EndInline => Outcome(st, [InlineImage])
    case Invoke => Outcome(st, [])
    case OtherOp(_) => Outcome(st, [])
  }

  /** The context in which form `x` is walked. */
  function Inner(ctx: Context, x: Ref, own: Resources): Context {
    Context(FormResources(own, ctx.res), ctx.depth + 1, ctx.busy + {x})
  }

  /** `Do`: report an image, or walk a form that is not already open and not too deep. */
  function Draw(g: Graph, ctx: Context, st: State): (events: seq<Event>)
    decreases MAX_DEPTH - ctx.depth, 0, 0
  {
    if st.ops == [] || !st.ops[0].Name? || !Resolves(g, ctx.res, st.ops[0].name) then []
    else
      var x := ctx.res.xobjects[st.ops[0].name];
      match g[x]
      case Image => [ImageDrawn(x, st.gs.ctm, ctx.depth)]
      case Form(matrix, own, content) =>
        if ctx.depth < MAX_DEPTH && x !in ctx.busy
        then Run(g, Inner(ctx, x, own), Fresh(Mul(FormMatrix(matrix), st.gs.ctm)), content).events
        else []
      case OtherStream => []
  }

  /** One token: an operand is kept, an operator acts and clears the operands. */
  function Step(g: Graph, ctx: Context, st: State, t: Token): (out: Outcome)
    decreases MAX_DEPTH - ctx.depth, 0, 1
  {
    match t
    case Operand(o) => Outcome(st.(ops := st.ops + [o]), [])
    case Operator(op) =>
      var out := if op == Invoke then Outcome(st, Draw(g, ctx, st)) else Plain(ctx, st, op);
      Outcome(out.st.(ops := []), out.events)
  }

  /** A whole stream. */
  function Run(g: Graph, ctx: Context, st: State, ts: seq<Token>): (out: Outcome)
    decreases MAX_DEPTH - ctx.depth, |ts|, 2
  {
    if ts == [] then Outcome(st, [])
    else
      var first := Step(g, ctx, st, ts[0]);
      var rest := Run(g, ctx, first.st, ts[1..]);
      Outcome(rest.st, first.events + rest.events)
  }

  /** `walkPage`: the page's own content under the identity matrix. */
  function WalkPage(g: Graph, res: Resources, content: seq<Token>): seq<Event> {
    Run(g, Context(res, 0, {}), Fresh(IDENTITY), content).events
  }

  lemma {:induction false} RunAppend(g: Graph, ctx: Context, st: State, a: seq<Token>, b: seq<Token>)
    ensures var first := Run(g, ctx, st, a);
            var rest := Run(g, ctx, first.st, b);
            Run(g, ctx, st, a + b) == Outcome(rest.st, first.events + rest.events)
    decreases |a|
  {
    hide Step;
    if a == [] {
      assert a + b == b;
    } else {
      var first := Step(g, ctx, st, a[0]);
      assert (a + b)[0] == a[0] && (a + b)[1..] == a[1..] + b;
      RunAppend(g, ctx, first.st, a[1..], b);
    }
  }

  /** How a token moves the nesting level of `q` and `Q`. */
  function Level(t: Token): int {
    if t == Operator(Save) then 1 else if t == Operator(Restore) then -1 else 0
  }

  /** `ts` never closes more than it opened plus `level`, and ends at level 0. */
  predicate Balanced(ts: seq<Token>, level: nat) {
    if ts == [] then level == 0
    else level + Level(ts[0]) >= 0 && Balanced(ts[1..], level + Level(ts[0]))
  }

  /** A balanced sequence entered `level` saves above `base` ends with exactly `base`. */
  lemma {:induction false} BalancedKeepsStack(g: Graph, ctx: Context, st: State, ts: seq<Token>, base: seq<Gs>,
      level: nat)
    requires Balanced(ts, level)
    requires |st.stack| == |base| + level && st.stack[..|base|] == base
    ensures Run(g, ctx, st, ts).st.stack == base
    decreases |ts|
  {
    if ts == [] {
      assert st.stack == st.stack[..|base|];
    } else {
      var st' := Step(g, ctx, st, ts[0]).st;
      assert st'.stack[..|base|] == base;
      BalancedKeepsStack(g, ctx, st', ts[1..], base, level + Level(ts[0]));
    }
  }

  /** A balanced q ... Q block restores the whole graphics state and the stack
      (section 8.4.2 of ISO 32000-1), whatever operators and forms it contains. */
  lemma BlockRestores(g: Graph, ctx: Context, st: State, ts: seq<Token>)
    requires Balanced(ts, 0)
    ensures var st' := Run(g, ctx, st, [Operator(Save)] + ts + [Operator(Restore)]).st;
            st'.gs == st.gs && st'.stack == st.stack
  {
    var saved := Step(g, ctx, st, Operator(Save)).st;
    var inner := Run(g, ctx, saved, ts).st;
    BalancedKeepsStack(g, ctx, saved, ts, saved.stack, 0);
    RunAppend(g, ctx, st, [Operator(Save)], ts);
    assert Run(g, ctx, st, [Operator(Save)]).st == saved by {
      assert Run(g, ctx, saved, []).st == saved;
    }
    RunAppend(g, ctx, st, [Operator(Save)] + ts, [Operator(Restore)]);
    var closed := Step(g, ctx, inner, Operator(Restore)).st;
    assert Run(g, ctx, inner, [Operator(Restore)]).st == closed by {
      assert Run(g, ctx, closed, []).st == closed;
    }
  }

  /** The receiver of the reports; shared by a walker and the walkers of its forms. */
  class Sink {
    var events: seq<Event>

    constructor ()
      ensures events == []
    {
      events := [];
    }
  }

  class Walk {
    const sink: Sink
    const res: Resources
    const depth: nat
    const busy: set<Ref>
    var gs: Gs
    var stack: seq<Gs>
    var ops: seq<Obj>
    var path: seq<Seg>

    constructor (sink: Sink, res: Resources, base: Matrix, depth: nat, busy: set<Ref>)
      ensures this.sink == sink && Ctx() == Context(res, depth, busy) && St() == Fresh(base)
    {
      this.sink, this.res, this.depth, this.busy := sink, res, depth, busy;
      gs, stack, ops, path := FreshGs(base), [], [], [];
    }

    function Ctx(): Context {
      Context(res, depth, busy)
    }

    function St(): State
      reads this
    {
      State(gs, stack, ops, path)
    }

    /** `handleObject`. */
    method HandleObject(g: Graph, t: Token)
      modifies this, sink
      ensures var out := Step(g, Ctx(), old(St()), t);
              St() == out.st && sink.events == old(sink.events) + out.events
      decreases MAX_DEPTH - depth, 0, 1
    {
      match t {
        case Operand(o) =>
          ops := ops + [o];
        case Operator(op) =>
          if op == Invoke {
            DrawObject(g);
          } else {
            Act(op);
          }
          ops := [];
      }
    }

    /** The operators of `op` other than `Do`. */
    method Act(op: Op)
      requires op != Invoke
      modifies this, sink
      ensures var out := Plain(Ctx(), old(St()), op);
              St() == out.st && sink.events == old(sink.events) + out.events
    {
      match op {
        case Save =>
          stack := stack + [gs];
        case Restore =>
          if stack != [] {
            gs, stack := stack[|stack| - 1], stack[..|stack| - 1];
          }
        case Concat =>
          if |ops| == 6 {
            gs := gs.(ctm := Mul(MatrixOf(ops), gs.ctm));
          }
        case SetSpace(stroke) =>
          if ops != [] {
            ChangeSpace(stroke, ResolveSpace(res, ops[0]));
          }
        case SetDevice(stroke, device) =>
          ChangeSpace(stroke, Name(DeviceName(device)));
          gs := WithColor(gs, stroke, Color(ops, op));
        case SetColor(stroke, _) =>
          gs := WithColor(gs, stroke, Color(ops, op));
        case SetLine(key) =>
          gs := gs.(line := gs.line[key := ops]);
          if key == Width {
            gs := gs.(lineWidth := Nth(ops, 0));
          }
        case Segment(kind) =>
          var v: seq<real> := [];
          for i := 0 to |ops|
            invariant v == Numbers(ops)[..i]
          {
            v := v + [Nth(ops, i)];
          }
          assert v == Numbers(ops);
          path := path + [Seg(kind, v)];
        case Paint(paint) =>
          var stroke, fill := paint.Strokes(), paint.Fills();
          if path != [] && (stroke || fill) {
            sink.events := sink.events + [PathPainted(path, gs, stroke, fill)];
          }
          path := [];
        case SelectFont =>
          if ops != [] && ops[0].Name? && res.Resources? && ops[0].name in res.fonts {
            sink.events := sink.events + [FontSelected(ops[0].name)];
          }
        case EndInline =>
          sink.events := sink.events + [InlineImage];
        case OtherOp(_) =>
      }
    }

    /** `setCs`. */
    method ChangeSpace(stroke: bool, space: Obj)
      modifies this`gs, sink
      ensures gs == WithSpace(old(gs), stroke, space)
      ensures sink.events == old(sink.events) + [SpaceSet(space)]
    {
      if stroke {
        gs := gs.(strokeSpace := space, strokeColor := NoColor);
      } else {
        gs := gs.(fillSpace := space, fillColor := NoColor);
      }
      sink.events := sink.events + [SpaceSet(space)];
    }

    /** The `Do` branch of `op`. */
    method DrawObject(g: Graph)
      modifies sink
      ensures sink.events == old(sink.events) + Draw(g, Ctx(), old(St()))
      decreases MAX_DEPTH - depth, 0, 0
    {
      if ops != [] && ops[0].Name? && Resolves(g, res, ops[0].name) {
        var x := res.xobjects[ops[0].name];
        match g[x] {
          case Image =>
            sink.events := sink.events + [ImageDrawn(x, gs.ctm, depth)];
          case Form(matrix, own, content) =>
            if depth < MAX_DEPTH && x !in busy {
              var w := new Walk(sink, FormResources(own, res), Mul(FormMatrix(matrix), gs.ctm),
                                depth + 1, busy + {x});
              w.ParseContents(g, content);
            }
          case OtherStream =>
        }
      }
    }

    /** The parser's loop over one stream. */
    method ParseContents(g: Graph, ts: seq<Token>)
      modifies this, sink
      ensures var out := Run(g, Ctx(), old(St()), ts);
              St() == out.st && sink.events == old(sink.events) + out.events
      decreases MAX_DEPTH - depth, |ts|, 2
    {
      if ts != [] {
        HandleObject(g, ts[0]);
        ParseContents(g, ts[1..]);
      }
    }
  }
}
