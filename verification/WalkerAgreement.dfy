/** The two content walkers meet the same images. */
module WalkerAgreement {
  import opened PdfContent
  import W = ContentWalk
  import I = InventoryWalk

  /** Every `cm` finds six numbers and every `Do` one name, starting with `ops` pending. */
  predicate WellFormed(ops: seq<Obj>, ts: seq<Token>)
    decreases |ts|
  {
    ts == [] ||
    match ts[0]
    case Operand(o) => WellFormed(ops + [o], ts[1..])
    case Operator(op) =>
      && (op == Concat ==> |ops| == 6 && forall o <- ops :: o.Num?)
      && (op == Invoke ==> |ops| == 1 && ops[0].Name?)
      && WellFormed([], ts[1..])
  }

  /** So are the streams of the forms that can be entered from `names`, as far as the inventory
      follows them; `open` are the forms around. */
  ghost predicate FormsWellFormed(g: Graph, res: Resources, names: set<string>, open: set<Ref>, depth: nat)
    decreases I.MAX_FORMS - depth, 1
  {
    forall n <- names :: FormWellFormed(g, res, n, open, depth)
  }

  ghost predicate FormWellFormed(g: Graph, res: Resources, n: string, open: set<Ref>, depth: nat)
    decreases I.MAX_FORMS - depth, 0
  {
    Enters(g, res, n, open) && depth < I.MAX_FORMS ==>
      var x := res.xobjects[n];
      && WellFormed([], g[x].content)
      && FormsWellFormed(g, FormResources(g[x].resources, res), DrawnNames([], g[x].content), open + {x}, depth + 1)
  }

  /** A page and the forms that it draws. */
  ghost predicate PageWellFormed(g: Graph, res: Resources, content: seq<Token>) {
    WellFormed([], content) && FormsWellFormed(g, res, DrawnNames([], content), {}, 0)
  }

  /** The images drawn under at most `limit` forms. */
  function Shallow(events: seq<Event>, limit: nat): seq<Event> {
    if events == [] then []
    else (if events[0].ImageDrawn? && events[0].depth <= limit then [events[0]] else []) + Shallow(events[1..], limit)
  }

  /** All images, however deep. */
  function Images(events: seq<Event>): seq<Event> {
    if events == [] then [] else (if events[0].ImageDrawn? then [events[0]] else []) + Images(events[1..])
  }

  lemma {:induction false} ShallowAppend(a: seq<Event>, b: seq<Event>, limit: nat)
    ensures Shallow(a + b, limit) == Shallow(a, limit) + Shallow(b, limit)
  {
    if a == [] {
      assert a + b == b;
    } else {
      assert (a + b)[1..] == a[1..] + b;
      ShallowAppend(a[1..], b, limit);
    }
  }

  predicate AllBelow(events: seq<Event>, depth: nat) {
    forall e <- events :: e.ImageDrawn? ==> e.depth >= depth
  }

  lemma {:induction false} DeepIsDropped(events: seq<Event>, limit: nat)
    requires AllBelow(events, limit + 1)
    ensures Shallow(events, limit) == []
  {
    if events != [] {
      DeepIsDropped(events[1..], limit);
    }
  }

  /** A walk at some depth reports no image above that depth. */
  lemma {:induction false} RunStaysBelow(g: Graph, ctx: W.Context, st: W.State, ts: seq<Token>)
    ensures AllBelow(W.Run(g, ctx, st, ts).events, ctx.depth)
    decreases W.MAX_DEPTH - ctx.depth, |ts|
  {
    if ts != [] {
      var first := W.Step(g, ctx, st, ts[0]);
      if ts[0] == Operator(Invoke) {
        DrawStaysBelow(g, ctx, st);
      }
      RunStaysBelow(g, ctx, first.st, ts[1..]);
    }
  }

  lemma {:induction false} DrawStaysBelow(g: Graph, ctx: W.Context, st: W.State)
    ensures AllBelow(W.Draw(g, ctx, st), ctx.depth)
    decreases W.MAX_DEPTH - ctx.depth, 0
  {
    if st.ops != [] && st.ops[0].Name? && Resolves(g, ctx.res, st.ops[0].name) {
      var x := ctx.res.xobjects[st.ops[0].name];
      if g[x].Form? && ctx.depth < W.MAX_DEPTH && x !in ctx.busy {
        RunStaysBelow(g, W.Inner(ctx, x, g[x].resources), W.Fresh(Mul(FormMatrix(g[x].matrix), st.gs.ctm)),
            g[x].content);
      }
    }
  }

  function Matrices(stack: seq<Gs>): (ms: seq<Matrix>)
    ensures |ms| == |stack|
  {
    seq(|stack|, i requires 0 <= i < |stack| => stack[i].ctm)
  }

  /** The coupling: same surroundings, same matrices, and the inventory walker may carry stale
      operands below its own. */
  ghost predicate Coupled(ctx: W.Context, w: W.State, i: I.State, stale: seq<Obj>) {
    && i.res == ctx.res && i.inForm == ctx.busy && i.formDepth == ctx.depth <= I.MAX_FORMS
    && i.ctm == w.gs.ctm && i.stack == Matrices(w.stack) && i.ops == stale + w.ops
  }

  lemma PlainAgrees(ctx: W.Context, w: W.State, i: I.State, stale: seq<Obj>, op: Op)
    requires Coupled(ctx, w, i, stale) && op != Invoke
    requires op == Concat ==> |w.ops| == 6
    ensures var w', i' := W.Plain(ctx, w, op).st, I.Plain(i, op);
            i'.ctm == w'.gs.ctm && i'.stack == Matrices(w'.stack)
    ensures Shallow(W.Plain(ctx, w, op).events, I.MAX_FORMS) == []
  {
    if op == Concat {
      assert I.Last(i.ops, 6) == w.ops;
    }
  }

  lemma {:induction false} DrawAgrees(g: Graph, ctx: W.Context, w: W.State, i: I.State, stale: seq<Obj>)
    requires Coupled(ctx, w, i, stale) && |w.ops| == 1 && w.ops[0].Name?
    requires FormWellFormed(g, ctx.res, w.ops[0].name, ctx.busy, ctx.depth)
    ensures I.Draw(g, i).events == Shallow(W.Draw(g, ctx, w), I.MAX_FORMS)
    decreases I.MAX_FORMS - i.formDepth, 0, 0
  {
    assert I.Last(i.ops, 1)[0] == w.ops[0];
    if Resolves(g, ctx.res, w.ops[0].name) {
      var x := ctx.res.xobjects[w.ops[0].name];
      if g[x].Form? && x !in ctx.busy {
        var inner := W.Inner(ctx, x, g[x].resources);
        var base := Mul(FormMatrix(g[x].matrix), w.gs.ctm);
        if ctx.depth < I.MAX_FORMS {
          var entered := I.Entered(i, x, g[x].matrix, g[x].resources);
          assert Coupled(inner, W.Fresh(base), entered, i.ops);
          RunAgrees(g, inner, W.Fresh(base), entered, i.ops, g[x].content);
        } else {
          RunStaysBelow(g, inner, W.Fresh(base), g[x].content);
          DeepIsDropped(W.Draw(g, ctx, w), I.MAX_FORMS);
        }
      }
    }
  }

  /** The simulation, over any stream and from any coupled pair of states. */
  lemma {:induction false} RunAgrees(g: Graph, ctx: W.Context, w: W.State, i: I.State, stale: seq<Obj>, ts: seq<Token>)
    requires Coupled(ctx, w, i, stale) && WellFormed(w.ops, ts)
    requires FormsWellFormed(g, ctx.res, DrawnNames(w.ops, ts), ctx.busy, ctx.depth)
    ensures I.Run(g, i, ts).events == Shallow(W.Run(g, ctx, w, ts).events, I.MAX_FORMS)
    ensures I.Run(g, i, ts).st.ctm == W.Run(g, ctx, w, ts).st.gs.ctm
    decreases I.MAX_FORMS - i.formDepth, |ts|, 1
  {
    hide FormWellFormed;
    if ts != [] {
      var w', i' := W.Step(g, ctx, w, ts[0]), I.Step(g, i, ts[0]);
      var stale' := if ts[0].Operand? then stale else [];
      match ts[0] {
        case Operand(o) =>
        case Operator(op) =>
          if op == Invoke {
            DrawAgrees(g, ctx, w, i, stale);
          } else {
            PlainAgrees(ctx, w, i, stale, op);
          }
      }
      assert i'.events == Shallow(w'.events, I.MAX_FORMS);
      assert Coupled(ctx, w'.st, i'.st, stale');
      RunAgrees(g, ctx, w'.st, i'.st, stale', ts[1..]);
      ShallowAppend(w'.events, W.Run(g, ctx, w'.st, ts[1..]).events, I.MAX_FORMS);
    }
  }

  /** For every page and every form graph, cyclic ones included: the inventory meets exactly the
      images that the extraction walker meets under at most eight forms, in the same order and
      under the same matrices, whatever unbalanced q and Q the forms contain. */
  lemma WalkersAgree(g: Graph, res: Resources, content: seq<Token>)
    requires PageWellFormed(g, res, content)
    ensures I.InventoryPage(g, res, content) == Shallow(W.WalkPage(g, res, content), I.MAX_FORMS)
  {
    RunAgrees(g, W.Context(res, 0, {}), W.Fresh(IDENTITY), I.Start(res), [], content);
  }

  ghost predicate Within(events: seq<Event>, depth: nat) {
    forall k | 0 <= k < |events| :: events[k].ImageDrawn? ==> events[k].depth <= depth
  }

  lemma WithinTail(events: seq<Event>, limit: nat)
    requires events != []
    ensures Within(events, limit) <==>
            (events[0].ImageDrawn? ==> events[0].depth <= limit) && Within(events[1..], limit)
  {
    var tail := events[1..];
    assert forall k | 0 <= k < |tail| :: tail[k] == events[k + 1];
    assert forall k | 0 < k < |events| :: events[k] == tail[k - 1];
  }

  lemma ConsEqual<T>(x: T, a: seq<T>, b: seq<T>)
    ensures [x] + a == [x] + b <==> a == b
  {
    assert ([x] + a)[1..] == a && ([x] + b)[1..] == b;
  }

  lemma {:induction false} ShallowIsAll(events: seq<Event>, limit: nat)
    ensures |Shallow(events, limit)| <= |Images(events)|
    ensures Shallow(events, limit) == Images(events) <==> Within(events, limit)
  {
    if events != [] {
      WithinTail(events, limit);
      hide Within;
      ShallowIsAll(events[1..], limit);
      var shallow, images := Shallow(events[1..], limit), Images(events[1..]);
      ConsEqual(events[0], shallow, images);
      assert [] + shallow == shallow && [] + images == images;
    } else {
      assert Within(events, limit);
    }
  }

  /** The walkers meet the same images if and only if none is drawn under more than eight forms. */
  lemma SameImagesIff(g: Graph, res: Resources, content: seq<Token>)
    requires PageWellFormed(g, res, content)
    ensures I.InventoryPage(g, res, content) == Images(W.WalkPage(g, res, content)) <==>
            Within(W.WalkPage(g, res, content), I.MAX_FORMS)
  {
    WalkersAgree(g, res, content);
    ShallowIsAll(W.WalkPage(g, res, content), I.MAX_FORMS);
  }

  // ----- the condition on the graph -----

  /** The names that the `Do` operators of a stream draw. */
  function DrawnNames(ops: seq<Obj>, ts: seq<Token>): set<string>
    decreases |ts|
  {
    if ts == [] then {}
    else match ts[0]
      case Operand(o) => DrawnNames(ops + [o], ts[1..])
      case Operator(op) => (if op == Invoke then NameOn(ops) else {}) + DrawnNames([], ts[1..])
  }

  function NameOn(ops: seq<Obj>): set<string> {
    if ops != [] && ops[0].Name? then {ops[0].name} else {}
  }

  /** Below `depth` forms, those of `open`, one of `names` is an image under more than eight forms,
      or a form that leads to one: a question about the graph, cyclic or not, that needs no walk. */
  ghost predicate Deep(g: Graph, res: Resources, names: set<string>, open: set<Ref>, depth: nat)
    decreases W.MAX_DEPTH - depth, 1
  {
    exists n <- names :: DeepAt(g, res, n, open, depth)
  }

  ghost predicate DeepAt(g: Graph, res: Resources, n: string, open: set<Ref>, depth: nat)
    decreases W.MAX_DEPTH - depth, 0
  {
    Resolves(g, res, n) &&
    match g[res.xobjects[n]]
    case Image => depth > I.MAX_FORMS
    case Form(_, own, content) =>
      && depth < W.MAX_DEPTH && res.xobjects[n] !in open
      && Deep(g, FormResources(own, res), DrawnNames([], content), open + {res.xobjects[n]}, depth + 1)
    case OtherStream => false
  }

  lemma DeepUnion(g: Graph, res: Resources, a: set<string>, b: set<string>, open: set<Ref>, depth: nat)
    ensures Deep(g, res, a + b, open, depth) <==> Deep(g, res, a, open, depth) || Deep(g, res, b, open, depth)
  {
    hide DeepAt;
  }

  lemma WithinAppend(a: seq<Event>, b: seq<Event>, limit: nat)
    ensures Within(a + b, limit) <==> Within(a, limit) && Within(b, limit)
  {
    var all := a + b;
    assert forall k | 0 <= k < |a| :: a[k] == all[k];
    assert forall k | 0 <= k < |b| :: b[k] == all[|a| + k];
  }

  /** A walk meets an image under more than eight forms exactly when the graph says so. */
  lemma {:induction false} RunDeepIff(g: Graph, ctx: W.Context, st: W.State, ts: seq<Token>)
    ensures Within(W.Run(g, ctx, st, ts).events, I.MAX_FORMS) <==>
            !Deep(g, ctx.res, DrawnNames(st.ops, ts), ctx.busy, ctx.depth)
    decreases W.MAX_DEPTH - ctx.depth, |ts|, 1
  {
    hide Deep, W.Plain, Within;
    if ts == [] {
      NothingDeep(g, ctx.res, ctx.busy, ctx.depth);
    } else {
      var first := W.Step(g, ctx, st, ts[0]);
      StepDeepIff(g, ctx, st, ts[0]);
      RunDeepIff(g, ctx, first.st, ts[1..]);
      WithinAppend(first.events, W.Run(g, ctx, first.st, ts[1..]).events, I.MAX_FORMS);
      if ts[0].Operator? {
        DeepUnion(g, ctx.res, if ts[0].op == Invoke then NameOn(st.ops) else {}, DrawnNames([], ts[1..]), ctx.busy,
            ctx.depth);
        NothingDeep(g, ctx.res, ctx.busy, ctx.depth);
      }
    }
  }

  lemma NothingDeep(g: Graph, res: Resources, open: set<Ref>, depth: nat)
    ensures !Deep(g, res, {}, open, depth) && Within([], I.MAX_FORMS)
  {
  }

  lemma PlainDrawsNothing(ctx: W.Context, st: W.State, op: Op)
    requires op != Invoke
    ensures Within(W.Plain(ctx, st, op).events, I.MAX_FORMS)
  {
    hide Mul, MatrixOf;
  }

  lemma {:induction false} StepDeepIff(g: Graph, ctx: W.Context, st: W.State, t: Token)
    ensures var out := W.Step(g, ctx, st, t);
            && (t.Operand? ==> out.st.ops == st.ops + [t.obj] && Within(out.events, I.MAX_FORMS))
            && (t.Operator? ==> out.st.ops == [])
            && (t.Operator? && t.op != Invoke ==> Within(out.events, I.MAX_FORMS))
            && (t == Operator(Invoke) ==>
                  (Within(out.events, I.MAX_FORMS) <==> !Deep(g, ctx.res, NameOn(st.ops), ctx.busy, ctx.depth)))
    decreases W.MAX_DEPTH - ctx.depth, 0, 1
  {
    hide Deep, W.Plain, W.Draw;
    if t == Operator(Invoke) {
      DrawDeepIff(g, ctx, st);
    } else if t.Operator? {
      PlainDrawsNothing(ctx, st, t.op);
    }
  }

  lemma ImageWithin(ctx: W.Context, st: W.State)
    ensures forall x: Ref :: Within([ImageDrawn(x, st.gs.ctm, ctx.depth)], I.MAX_FORMS) <==> ctx.depth <= I.MAX_FORMS
  {
    forall x: Ref
      ensures Within([ImageDrawn(x, st.gs.ctm, ctx.depth)], I.MAX_FORMS) <==> ctx.depth <= I.MAX_FORMS
    {
      assert [ImageDrawn(x, st.gs.ctm, ctx.depth)][0].depth == ctx.depth;
    }
  }

  lemma {:induction false} DrawDeepIff(g: Graph, ctx: W.Context, st: W.State)
    ensures Within(W.Draw(g, ctx, st), I.MAX_FORMS) <==> !Deep(g, ctx.res, NameOn(st.ops), ctx.busy, ctx.depth)
    decreases W.MAX_DEPTH - ctx.depth, 0, 0
  {
    hide Mul, MatrixOf, W.Run, Within, DrawnNames, Deep;
    NothingDeep(g, ctx.res, ctx.busy, ctx.depth);
    ImageWithin(ctx, st);
    if st.ops != [] && st.ops[0].Name? {
      OneDeep(g, ctx.res, st.ops[0].name, ctx.busy, ctx.depth);
      if Resolves(g, ctx.res, st.ops[0].name) {
        var x := ctx.res.xobjects[st.ops[0].name];
        if g[x].Form? && ctx.depth < W.MAX_DEPTH && x !in ctx.busy {
          RunDeepIff(g, W.Inner(ctx, x, g[x].resources), W.Fresh(Mul(FormMatrix(g[x].matrix), st.gs.ctm)),
                     g[x].content);
        }
      }
    }
  }

  lemma OneDeep(g: Graph, res: Resources, n: string, open: set<Ref>, depth: nat)
    ensures Deep(g, res, {n}, open, depth) <==> DeepAt(g, res, n, open, depth)
  {
    hide DeepAt;
    assert n in {n};
  }

  /** The walkers meet the same images if and only if the graph leads to no image under more than
      eight forms. */
  lemma WalkersAgreeIff(g: Graph, res: Resources, content: seq<Token>)
    requires PageWellFormed(g, res, content)
    ensures I.InventoryPage(g, res, content) == Images(W.WalkPage(g, res, content)) <==>
            !Deep(g, res, DrawnNames([], content), {}, 0)
  {
    hide Deep, Within, W.Run, I.Run, DrawnNames;
    SameImagesIff(g, res, content);
    RunDeepIff(g, W.Context(res, 0, {}), W.Fresh(IDENTITY), content);
  }

  // ----- nine forms around an image -----

  const DRAW_NEXT: seq<Token> := [Operand(Name("/F")), Operator(Invoke)]

  function Next(k: nat): Resources {
    Resources(map["/F" := k], map[], {})
  }

  function Link(k: nat): Stream {
    if k == 10 then Image else Form([], Next(k + 1), DRAW_NEXT)
  }

  /** Form k draws form k + 1, form 9 draws an image. */
  function Chain(): Graph {
    map k | k in {1, 2, 3, 4, 5, 6, 7, 8, 9, 10} :: Link(k)
  }

  lemma ChainDraws()
    ensures DrawnNames([], DRAW_NEXT) == {"/F"} && WellFormed([], DRAW_NEXT)
  {
    var last := DRAW_NEXT[1..];
    assert last == [Operator(Invoke)] && last[1..] == [] && [] + [Name("/F")] == [Name("/F")];
    assert DrawnNames([Name("/F")], last) == {"/F"} + DrawnNames([], []);
    assert WellFormed([Name("/F")], last);
  }

  lemma ChainHas(k: nat)
    requires 1 <= k <= 10
    ensures k in Chain() && Chain()[k] == Link(k) && Resolves(Chain(), Next(k), "/F") && Next(k).xobjects["/F"] == k
  {
    hide Link;
  }

  lemma DeepThrough(g: Graph, res: Resources, n: string, open: set<Ref>, depth: nat)
    requires Enters(g, res, n, open) && depth < W.MAX_DEPTH
    requires var x := res.xobjects[n];
             Deep(g, FormResources(g[x].resources, res), DrawnNames([], g[x].content), open + {x}, depth + 1)
    ensures Deep(g, res, {n}, open, depth)
  {
    hide Deep;
    OneDeep(g, res, n, open, depth);
  }

  lemma DeepHere(g: Graph, res: Resources, n: string, open: set<Ref>, depth: nat)
    requires Resolves(g, res, n) && g[res.xobjects[n]] == Image && depth > I.MAX_FORMS
    ensures Deep(g, res, {n}, open, depth)
  {
    hide Deep;
    OneDeep(g, res, n, open, depth);
  }

  lemma {:induction false} ChainIsDeep(k: nat, open: set<Ref>)
    requires 1 <= k <= 10 && forall x <- open :: x < k
    ensures Deep(Chain(), Next(k), {"/F"}, open, k - 1)
    decreases 10 - k
  {
    hide Deep, Chain, DrawnNames, DRAW_NEXT;
    ChainHas(k);
    if k == 10 {
      DeepHere(Chain(), Next(k), "/F", open, k - 1);
    } else {
      ChainDraws();
      ChainIsDeep(k + 1, open + {k});
      DeepThrough(Chain(), Next(k), "/F", open, k - 1);
    }
  }

  lemma {:induction false} ChainWellFormed(k: nat, open: set<Ref>, depth: nat)
    requires 1 <= k <= 10
    ensures FormsWellFormed(Chain(), Next(k), {"/F"}, open, depth)
    decreases 10 - k
  {
    hide Chain, DrawnNames, DRAW_NEXT, WellFormed;
    ChainHas(k);
    if k < 10 {
      ChainDraws();
      ChainWellFormed(k + 1, open + {k}, depth + 1);
      assert FormWellFormed(Chain(), Next(k), "/F", open, depth);
    }
  }

  /** Nine nested forms around an image: the walkers differ. */
  lemma NinthFormIsMissed()
    ensures PageWellFormed(Chain(), Next(1), DRAW_NEXT)
    ensures I.InventoryPage(Chain(), Next(1), DRAW_NEXT) != Images(W.WalkPage(Chain(), Next(1), DRAW_NEXT))
  {
    hide Deep, DRAW_NEXT, DrawnNames, W.WalkPage, I.InventoryPage, WellFormed, FormsWellFormed;
    ChainDraws();
    ChainIsDeep(1, {});
    ChainWellFormed(1, {}, 0);
    WalkersAgreeIff(Chain(), Next(1), DRAW_NEXT);
  }

  // ----- a simpler condition -----

  /** No chain of different forms drawn from `names` is longer than `limit`; `open` are the forms
      around it. */
  ghost predicate NestsAtMost(g: Graph, res: Resources, names: set<string>, open: set<Ref>, limit: nat)
    decreases limit
  {
    forall n | n in names && Enters(g, res, n, open) ::
      limit > 0 &&
      NestsAtMost(g, FormResources(g[res.xobjects[n]].resources, res), DrawnNames([], g[res.xobjects[n]].content),
                  open + {res.xobjects[n]}, limit - 1)
  }

  /** The name stands for a form that is not open. */
  predicate Enters(g: Graph, res: Resources, n: string, open: set<Ref>) {
    Resolves(g, res, n) && g[res.xobjects[n]].Form? && res.xobjects[n] !in open
  }

  lemma {:induction false} NestedIsNotDeep(g: Graph, res: Resources, names: set<string>, open: set<Ref>, depth: nat,
      limit: nat)
    requires NestsAtMost(g, res, names, open, limit) && depth + limit <= I.MAX_FORMS
    ensures !Deep(g, res, names, open, depth)
    decreases limit
  {
    hide NestsAtMost;
    forall n <- names
      ensures !DeepAt(g, res, n, open, depth)
    {
      hide Deep;
      if Enters(g, res, n, open) {
        var x := res.xobjects[n];
        NestedBelow(g, res, names, open, limit, n);
        NestedIsNotDeep(g, FormResources(g[x].resources, res), DrawnNames([], g[x].content), open + {x}, depth + 1,
                        limit - 1);
      }
    }
  }

  lemma NestedBelow(g: Graph, res: Resources, names: set<string>, open: set<Ref>, limit: nat, n: string)
    requires NestsAtMost(g, res, names, open, limit) && n in names && Enters(g, res, n, open)
    ensures limit > 0
    ensures var x := res.xobjects[n];
            NestsAtMost(g, FormResources(g[x].resources, res), DrawnNames([], g[x].content), open + {x}, limit - 1)
  {
  }

  /** Where no chain of different forms is longer than eight, cyclic graphs included, both walkers
      meet exactly the same images. */
  lemma WalkersAgreeWithinLimit(g: Graph, res: Resources, content: seq<Token>)
    requires PageWellFormed(g, res, content)
    requires NestsAtMost(g, res, DrawnNames([], content), {}, 8)
    ensures I.InventoryPage(g, res, content) == Images(W.WalkPage(g, res, content))
  {
    hide Deep, NestsAtMost;
    NestedIsNotDeep(g, res, DrawnNames([], content), {}, 0, 8);
    WalkersAgreeIff(g, res, content);
  }

  lemma RunOne(g: Graph, ctx: W.Context, w: W.State, i: I.State, t: Token)
    ensures W.Run(g, ctx, w, [t]).events == W.Step(g, ctx, w, t).events
    ensures I.Run(g, i, [t]).events == I.Step(g, i, t).events
  {
    assert W.Run(g, ctx, W.Step(g, ctx, w, t).st, []).events == [];
    assert I.Run(g, I.Step(g, i, t).st, []).events == [];
  }

  /** Without the demand on `Do` the walkers part: the inventory walker still holds the operand
      that opened the form, so a bare `Do` inside the form draws once more. */
  lemma StaleOperandDraws(g: Graph, res: Resources, inner: Resources)
    requires inner.Resources? && "/F" in inner.xobjects && inner.xobjects["/F"] == 2
    requires res.Resources? && "/F" in res.xobjects && res.xobjects["/F"] == 1
    requires 1 in g && g[1] == Form([], inner, [Operator(Invoke)]) && 2 in g && g[2] == Image
    ensures var content := [Operand(Name("/F")), Operator(Invoke)];
            && WellFormed([], content)
            && W.WalkPage(g, res, content) == []
            && I.InventoryPage(g, res, content) == [ImageDrawn(2, IDENTITY, 1)]
  {
    hide Mul, MatrixOf;
    StaleInventory(g, res, inner);
    StaleWalk(g, res, inner);
  }

  lemma StaleInventory(g: Graph, res: Resources, inner: Resources)
    requires inner.Resources? && "/F" in inner.xobjects && inner.xobjects["/F"] == 2
    requires res.Resources? && "/F" in res.xobjects && res.xobjects["/F"] == 1
    requires 1 in g && g[1] == Form([], inner, [Operator(Invoke)]) && 2 in g && g[2] == Image
    ensures I.InventoryPage(g, res, [Operand(Name("/F")), Operator(Invoke)]) == [ImageDrawn(2, IDENTITY, 1)]
  {
    hide Mul, MatrixOf, IDENTITY;
    var content, last := [Operand(Name("/F")), Operator(Invoke)], [Operator(Invoke)];
    assert content[1..] == last;
    var i := I.Step(g, I.Start(res), content[0]).st;
    assert i.ops == [Name("/F")];
    var entered := I.Entered(i, 1, [], inner);
    RunOne(g, W.Context(res, 0, {}), W.Fresh(IDENTITY), entered, Operator(Invoke));
    I.NoFormDrawn(g, entered, 2);
    I.FormDrawn(g, i, 1);
    RunOne(g, W.Context(res, 0, {}), W.Fresh(IDENTITY), i, Operator(Invoke));
  }

  lemma StaleWalk(g: Graph, res: Resources, inner: Resources)
    requires res.Resources? && "/F" in res.xobjects && res.xobjects["/F"] == 1
    requires 1 in g && g[1] == Form([], inner, [Operator(Invoke)])
    ensures W.WalkPage(g, res, [Operand(Name("/F")), Operator(Invoke)]) == []
  {
    hide Mul, MatrixOf, IDENTITY;
    var content, last := [Operand(Name("/F")), Operator(Invoke)], [Operator(Invoke)];
    assert content[1..] == last;
    var ctx := W.Context(res, 0, {});
    var w := W.Step(g, ctx, W.Fresh(IDENTITY), content[0]).st;
    assert w.ops == [Name("/F")];
    var wIn, wSt := W.Inner(ctx, 1, inner), W.Fresh(Mul(FormMatrix([]), w.gs.ctm));
    RunOne(g, wIn, wSt, I.Start(res), Operator(Invoke));
    assert W.Draw(g, wIn, wSt) == [];
    assert W.Draw(g, ctx, w) == [];
    RunOne(g, ctx, w, I.Start(res), Operator(Invoke));
  }
}
