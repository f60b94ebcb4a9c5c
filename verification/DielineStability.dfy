/** Walking the page that the dieline extractor wrote finds the dieline again. */
module DielineStability {
  import opened PdfContent
  import opened ContentWalk
  import opened Dieline
  import opened PrintedNumber
  import Decimal

  // ----- what every extracted item satisfies -----

  function WidthOf(line: map<LineKey, seq<Obj>>): real {
    if Width in line then Nth(line[Width], 0) else 1.0
  }

  predicate GsConsistent(gs: Gs) {
    gs.lineWidth == WidthOf(gs.line)
  }

  ghost predicate StConsistent(st: State) {
    GsConsistent(st.gs) && forall gs <- st.stack :: GsConsistent(gs)
  }

  ghost predicate EventsConsistent(events: seq<Event>) {
    forall e <- events :: e.PathPainted? ==> GsConsistent(e.gs) && e.path != []
  }

  lemma PlainConsistent(ctx: Context, st: State, op: Op)
    requires StConsistent(st)
    ensures var out := Plain(ctx, st, op);
            StConsistent(out.st.(ops := [])) && EventsConsistent(out.events)
  {
    hide Mul, MatrixOf;
  }

  lemma {:induction false} RunConsistent(g: Graph, ctx: Context, st: State, ts: seq<Token>)
    requires StConsistent(st)
    ensures EventsConsistent(Run(g, ctx, st, ts).events)
    decreases MAX_DEPTH - ctx.depth, |ts|, 1
  {
    hide Plain, Draw;
    if ts != [] {
      var first := Step(g, ctx, st, ts[0]);
      if ts[0] == Operator(Invoke) {
        DrawConsistent(g, ctx, st);
      } else if ts[0].Operator? {
        PlainConsistent(ctx, st, ts[0].op);
      }
      assert StConsistent(first.st) && EventsConsistent(first.events);
      RunConsistent(g, ctx, first.st, ts[1..]);
    }
  }

  lemma {:induction false} DrawConsistent(g: Graph, ctx: Context, st: State)
    ensures EventsConsistent(Draw(g, ctx, st))
    decreases MAX_DEPTH - ctx.depth, 0, 0
  {
    if st.ops != [] && st.ops[0].Name? && Resolves(g, ctx.res, st.ops[0].name) {
      var x := ctx.res.xobjects[st.ops[0].name];
      if g[x].Form? && ctx.depth < MAX_DEPTH && x !in ctx.busy {
        RunConsistent(g, Inner(ctx, x, g[x].resources), Fresh(Mul(FormMatrix(g[x].matrix), st.gs.ctm)), g[x].content);
      }
    }
  }

  /** An item names a colourant of its space, has a tint and a path, and its width is the one its
      line settings say. */
  ghost predicate Sound(matches: string -> bool, item: Item) {
    && item.colorant == Hit(Colorants(item.space), matches) != ""
    && item.tint != [] && item.path != [] && item.lineWidth == WidthOf(item.line)
  }

  lemma SideSound(matches: string -> bool, path: seq<Seg>, gs: Gs, stroke: bool, painted: bool)
    requires GsConsistent(gs) && path != []
    ensures AllSound(matches, SideItems(matches, path, gs, stroke, painted))
  {
  }

  lemma {:induction false} ItemsSound(matches: string -> bool, events: seq<Event>)
    requires EventsConsistent(events)
    ensures AllSound(matches, Items(matches, events))
  {
    if events != [] {
      ItemsSound(matches, events[..|events| - 1]);
      var e := events[|events| - 1];
      if e.PathPainted? {
        assert GsConsistent(e.gs) && e.path != [];
        SideSound(matches, e.path, e.gs, true, e.stroke);
        SideSound(matches, e.path, e.gs, false, e.fill);
      }
    }
  }

  lemma ExtractSound(matches: string -> bool, g: Graph, res: Resources, content: seq<Token>)
    ensures AllSound(matches, Extract(matches, g, res, content))
  {
    RunConsistent(g, Context(res, 0, {}), Fresh(IDENTITY), content);
    ItemsSound(matches, WalkPage(g, res, content));
  }

  // ----- colour-space names -----

  lemma {:induction false} SpaceNameLookup(keys: seq<Obj>, i: nat)
    requires i < |keys|
    ensures SpaceName(i) in Spaces(keys) && Spaces(keys)[SpaceName(i)] == keys[i]
  {
    var last := |keys| - 1;
    if i < last {
      SpaceNameLookup(keys[..last], i);
      SpaceNameInjective(i, last);
    }
  }

  lemma SpaceNameInjective(i: nat, j: nat)
    ensures SpaceName(i) == SpaceName(j) ==> i == j
  {
    if SpaceName(i) == SpaceName(j) {
      assert Decimal.Text(i) == SpaceName(i)[3..] == SpaceName(j)[3..] == Decimal.Text(j);
      assert i == Decimal.Value(Decimal.Text(i));
    }
  }

  lemma SpaceNameResolves(keys: seq<Obj>, i: nat)
    requires i < |keys|
    ensures ResolveSpace(PageResources(keys), Name(SpaceName(i))) == keys[i]
  {
    SpaceNameLookup(keys, i);
    var n := SpaceName(i);
    assert n[1] == 'C';
    assert "/DeviceGray"[1] == 'D' && "/DeviceRGB"[1] == 'D' && "/DeviceCMYK"[1] == 'D' && "/Pattern"[1] == 'P';
  }

  // ----- walking what was written -----

  lemma OperandFirst(g: Graph, ctx: Context, st: State, o: Obj, ts: seq<Token>)
    requires ts != [] && ts[0] == Operand(o)
    ensures Run(g, ctx, st, ts) == Run(g, ctx, st.(ops := st.ops + [o]), ts[1..])
  {
    hide Plain, Draw;
    var rest := Run(g, ctx, st.(ops := st.ops + [o]), ts[1..]);
    assert [] + rest.events == rest.events;
  }

  lemma {:induction false} RunOperands(g: Graph, ctx: Context, st: State, objs: seq<Obj>)
    ensures Run(g, ctx, st, Operands(objs)) == Outcome(st.(ops := st.ops + objs), [])
    decreases |objs|
  {
    hide Run;
    if objs == [] {
      assert st.ops + objs == st.ops;
      RunNone(g, ctx, st);
    } else {
      var ts, next := Operands(objs), st.(ops := st.ops + [objs[0]]);
      assert ts[1..] == Operands(objs[1..]);
      OperandFirst(g, ctx, st, objs[0], ts);
      RunOperands(g, ctx, next, objs[1..]);
      assert next.ops + objs[1..] == st.ops + objs;
    }
  }

  lemma RunCommand(g: Graph, ctx: Context, st: State, objs: seq<Obj>, op: Op)
    requires st.ops == [] && op != Invoke
    ensures var out := Plain(ctx, st.(ops := objs), op);
            Run(g, ctx, st, Command(objs, op)) == Outcome(out.st.(ops := []), out.events)
  {
    RunOperands(g, ctx, st, objs);
    RunAppend(g, ctx, st, Operands(objs), [Operator(op)]);
    var st' := st.(ops := objs);
    assert st.ops + objs == objs;
    var out := Step(g, ctx, st', Operator(op));
    assert Run(g, ctx, out.st, []) == Outcome(out.st, []);
    assert Run(g, ctx, st', [Operator(op)]) == out;
  }

  /** A command and what follows it, when `next` is the state the command leaves. */
  lemma RunThen(g: Graph, ctx: Context, st: State, objs: seq<Obj>, op: Op, rest: seq<Token>, next: State,
      events: seq<Event>)
    requires st.ops == [] == next.ops && op != Invoke
    requires Plain(ctx, st.(ops := objs), op) == Outcome(next.(ops := objs), events)
    ensures var out := Run(g, ctx, next, rest);
            Run(g, ctx, st, Command(objs, op) + rest) == Outcome(out.st, events + out.events)
  {
    RunCommand(g, ctx, st, objs, op);
    RunAppend(g, ctx, st, Command(objs, op), rest);
  }

  /** The line settings of `line` for the keys of `order`, over what `gs` already had. */
  function LineApplied(gs: Gs, line: map<LineKey, seq<Obj>>, order: seq<LineKey>): Gs {
    if order == [] then gs
    else
      var k := order[|order| - 1];
      var gs' := LineApplied(gs, line, order[..|order| - 1]);
      if k in line then WithLine(gs', k, line[k]) else gs'
  }

  lemma {:induction false} RunLine(g: Graph, ctx: Context, st: State, line: map<LineKey, seq<Obj>>, order: seq<LineKey>)
    requires st.ops == []
    ensures Run(g, ctx, st, LineCommands(line, order)) == Outcome(st.(gs := LineApplied(st.gs, line, order)), [])
    decreases |order|
  {
    if order != [] {
      var k, front := order[|order| - 1], order[..|order| - 1];
      RunLine(g, ctx, st, line, front);
      if k in line {
        RunAppend(g, ctx, st, LineCommands(line, front), Command(line[k], SetLine(k)));
        RunCommand(g, ctx, st.(gs := LineApplied(st.gs, line, front)), line[k], SetLine(k));
      } else {
        assert LineCommands(line, order) == LineCommands(line, front);
      }
    }
  }

  lemma {:induction false} LineAppliedHas(gs: Gs, line: map<LineKey, seq<Obj>>, order: seq<LineKey>, k: LineKey)
    requires gs.line == map[]
    ensures var r := LineApplied(gs, line, order);
            && r.(line := gs.line, lineWidth := gs.lineWidth) == gs
            && (k in r.line <==> k in order && k in line)
            && (k in r.line ==> r.line[k] == line[k])
            && r.lineWidth == if Width in order && Width in line then Nth(line[Width], 0) else gs.lineWidth
  {
    if order != [] {
      LineAppliedHas(gs, line, order[..|order| - 1], k);
      assert order == order[..|order| - 1] + [order[|order| - 1]];
    }
  }

  lemma InLineOrder(k: LineKey)
    ensures k in LINE_ORDER
  {
    match k
    case Cap => assert LINE_ORDER[0] == k;
    case Miter => assert LINE_ORDER[1] == k;
    case Dash => assert LINE_ORDER[2] == k;
    case Join => assert LINE_ORDER[3] == k;
    case Width => assert LINE_ORDER[4] == k;
  }

  lemma LineRestored(gs: Gs, line: map<LineKey, seq<Obj>>)
    requires gs.line == map[] && gs.lineWidth == 1.0
    ensures LineApplied(gs, line, LINE_ORDER) == gs.(line := line, lineWidth := WidthOf(line))
  {
    var r := LineApplied(gs, line, LINE_ORDER);
    forall k: LineKey
      ensures (k in r.line <==> k in line) && (k in r.line ==> r.line[k] == line[k])
    {
      LineAppliedHas(gs, line, LINE_ORDER, k);
      InLineOrder(k);
    }
    LineAppliedHas(gs, line, LINE_ORDER, Width);
    InLineOrder(Width);
    assert r.line == line;
  }

  lemma RunSeg(g: Graph, ctx: Context, st: State, s: Seg)
    requires st.ops == []
    ensures Run(g, ctx, st, Command(Nums(s.v), Segment(s.kind))) ==
            Outcome(st.(path := st.path + [Seg(s.kind, PrintedAll(s.v))]), [])
  {
    hide Run, Command, Printed;
    RunCommand(g, ctx, st, Nums(s.v), Segment(s.kind));
    assert Numbers(Nums(s.v)) == PrintedAll(s.v);
  }

  lemma RunNone(g: Graph, ctx: Context, st: State)
    ensures Run(g, ctx, st, []) == Outcome(st, [])
  {
  }

  lemma {:induction false} RunSegs(g: Graph, ctx: Context, st: State, path: seq<Seg>)
    requires st.ops == []
    ensures Run(g, ctx, st, SegCommands(path)) == Outcome(st.(path := st.path + PrintedPath(path)), [])
    decreases |path|
  {
    hide Run, Command, Nums, PrintedAll;
    if path == [] {
      assert st.path + PrintedPath(path) == st.path;
      RunNone(g, ctx, st);
    } else {
      var s, front := path[|path| - 1], path[..|path| - 1];
      RunSegs(g, ctx, st, front);
      var st' := st.(path := st.path + PrintedPath(front));
      RunAppend(g, ctx, st, SegCommands(front), Command(Nums(s.v), Segment(s.kind)));
      RunSeg(g, ctx, st', s);
      assert st'.path + [Seg(s.kind, PrintedAll(s.v))] == st.path + PrintedPath(path);
    }
  }

  function PrintedItem(item: Item): Item {
    item.(ctm := PrintedMatrix(item.ctm), path := PrintedPath(item.path))
  }

  /** The graphics state in which the path of a block is painted. */
  function BlockGs(item: Item): Gs {
    var gs := FreshGs(PrintedMatrix(item.ctm)).(line := item.line, lineWidth := WidthOf(item.line));
    WithColor(WithSpace(gs, item.stroke, item.space), item.stroke, Color(item.tint, SetColor(item.stroke, true)))
  }

  function BlockEvents(item: Item): seq<Event> {
    [SpaceSet(item.space), PathPainted(PrintedPath(item.path), BlockGs(item), item.stroke, !item.stroke)]
  }

  function PaintOf(item: Item): Op {
    Paint(if item.stroke then StrokeOpen else FillNonzero)
  }

  function Painted(item: Item, gs: Gs): seq<Event> {
    [PathPainted(PrintedPath(item.path), gs, item.stroke, !item.stroke)]
  }

  /** The end of a block: the paint operator and Q. */
  lemma RunEnd(g: Graph, ctx: Context, st: State, item: Item)
    requires st.ops == [] && st.stack == [FreshGs(IDENTITY)] && item.path != [] && st.path == PrintedPath(item.path)
    ensures Run(g, ctx, st, Command([], PaintOf(item)) + Command([], Restore)) ==
            Outcome(Fresh(IDENTITY), Painted(item, st.gs))
  {
    var last := st.(path := []);
    RunThen(g, ctx, st, [], PaintOf(item), Command([], Restore), last, Painted(item, st.gs));
    RunCommand(g, ctx, last, [], Restore);
    assert last.stack[..0] == [];
  }

  /** The second half of a block: the colour, the path and the end. */
  lemma RunPainting(g: Graph, ctx: Context, st: State, item: Item)
    requires st.ops == [] && st.path == [] && st.stack == [FreshGs(IDENTITY)] && item.path != []
    ensures Run(g, ctx, st, Command(item.tint, SetColor(item.stroke, true)) + (SegCommands(item.path) +
                            (Command([], PaintOf(item)) + Command([], Restore)))) ==
            Outcome(Fresh(IDENTITY),
                    Painted(item, WithColor(st.gs, item.stroke, Color(item.tint, SetColor(item.stroke, true)))))
  {
    var end := Command([], PaintOf(item)) + Command([], Restore);
    var colored := st.(gs := WithColor(st.gs, item.stroke, Color(item.tint, SetColor(item.stroke, true))));
    RunThen(g, ctx, st, item.tint, SetColor(item.stroke, true), SegCommands(item.path) + end, colored, []);
    RunSegs(g, ctx, colored, item.path);
    assert colored.path + PrintedPath(item.path) == PrintedPath(item.path);
    RunAppend(g, ctx, colored, SegCommands(item.path), end);
    RunEnd(g, ctx, colored.(path := PrintedPath(item.path)), item);
  }

  /** A block from the line settings on. */
  lemma RunSettings(g: Graph, keys: seq<Obj>, st: State, item: Item, i: nat)
    requires i < |keys| && keys[i] == item.space && item.path != []
    requires st == Fresh(PrintedMatrix(item.ctm)).(stack := [FreshGs(IDENTITY)])
    ensures Run(g, Context(PageResources(keys), 0, {}), st,
                LineCommands(item.line, LINE_ORDER) + (Command([Name(SpaceName(i))], SetSpace(item.stroke)) +
                (Command(item.tint, SetColor(item.stroke, true)) + (SegCommands(item.path) +
                (Command([], PaintOf(item)) + Command([], Restore)))))) ==
            Outcome(Fresh(IDENTITY), BlockEvents(item))
  {
    var ctx := Context(PageResources(keys), 0, {});
    var painting := Command(item.tint, SetColor(item.stroke, true)) + (SegCommands(item.path) +
                    (Command([], PaintOf(item)) + Command([], Restore)));
    RunAppend(g, ctx, st, LineCommands(item.line, LINE_ORDER),
              Command([Name(SpaceName(i))], SetSpace(item.stroke)) + painting);
    RunLine(g, ctx, st, item.line, LINE_ORDER);
    LineRestored(st.gs, item.line);
    var lined := st.(gs := st.gs.(line := item.line, lineWidth := WidthOf(item.line)));
    SpaceNameResolves(keys, i);
    var spaced := lined.(gs := WithSpace(lined.gs, item.stroke, item.space));
    RunThen(g, ctx, lined, [Name(SpaceName(i))], SetSpace(item.stroke), painting, spaced, [SpaceSet(item.space)]);
    RunPainting(g, ctx, spaced, item);
  }

  lemma MatrixWritten(m: Matrix)
    ensures |Nums(MatrixNums(m))| == 6
    ensures Mul(MatrixOf(Nums(MatrixNums(m))), IDENTITY) == PrintedMatrix(m)
  {
    hide Printed;
  }

  /** A block paints its own path under its own matrix, line settings and colour, and leaves the
      walker as it was. */
  lemma RunBlock(g: Graph, keys: seq<Obj>, item: Item, i: nat)
    requires i < |keys| && keys[i] == item.space && item.path != []
    ensures Run(g, Context(PageResources(keys), 0, {}), Fresh(IDENTITY), Block(item, SpaceName(i))) ==
            Outcome(Fresh(IDENTITY), BlockEvents(item))
  {
    hide Run, Printed, Mul, MatrixOf, BlockEvents, Command, PageResources, SpaceName;
    var ctx, st := Context(PageResources(keys), 0, {}), Fresh(IDENTITY);
    var settings := LineCommands(item.line, LINE_ORDER) + (Command([Name(SpaceName(i))], SetSpace(item.stroke)) +
                    (Command(item.tint, SetColor(item.stroke, true)) + (SegCommands(item.path) +
                    (Command([], PaintOf(item)) + Command([], Restore)))));
    var nums, m := Nums(MatrixNums(item.ctm)), PrintedMatrix(item.ctm);
    var saved := st.(stack := [FreshGs(IDENTITY)]);
    assert st.stack + [st.gs] == saved.stack;
    RunThen(g, ctx, st, [], Save, Command(nums, Concat) + settings, saved, []);
    MatrixWritten(item.ctm);
    var moved := Fresh(m).(stack := [FreshGs(IDENTITY)]);
    RunThen(g, ctx, saved, nums, Concat, settings, moved, []);
    RunSettings(g, keys, moved, item, i);
  }

  function AllEvents(items: seq<Item>): seq<Event> {
    if items == [] then [] else AllEvents(items[..|items| - 1]) + BlockEvents(items[|items| - 1])
  }

  ghost predicate AllSound(matches: string -> bool, items: seq<Item>) {
    forall i | 0 <= i < |items| :: Sound(matches, items[i])
  }

  lemma {:induction false} RunContent(matches: string -> bool, g: Graph, items: seq<Item>, keys: seq<Obj>)
    requires AllSound(matches, items) && Covers(keys, items)
    ensures Run(g, Context(PageResources(keys), 0, {}), Fresh(IDENTITY), Content(items, keys)) ==
            Outcome(Fresh(IDENTITY), AllEvents(items))
  {
    if items != [] {
      var last, front := items[|items| - 1], items[..|items| - 1];
      RunContent(matches, g, front, keys);
      var i := IndexOf(keys, last.space);
      RunAppend(g, Context(PageResources(keys), 0, {}), Fresh(IDENTITY), Content(front, keys),
          Block(last, SpaceName(i)));
      RunBlock(g, keys, last, i);
    }
  }

  function PrintedItems(items: seq<Item>): seq<Item> {
    if items == [] then [] else PrintedItems(items[..|items| - 1]) + [PrintedItem(items[|items| - 1])]
  }

  lemma ItemsOfTwo(matches: string -> bool, events: seq<Event>, a: Event, b: Event)
    ensures Items(matches, events + [a, b]) == Items(matches, events) + EventItems(matches, a) + EventItems(matches, b)
  {
    var all := events + [a, b];
    assert all[..|all| - 1] == events + [a] && (events + [a])[..|events|] == events;
  }

  lemma BlockItems(matches: string -> bool, item: Item)
    requires Sound(matches, item)
    ensures EventItems(matches, BlockEvents(item)[1]) == [PrintedItem(item)]
  {
  }

  lemma {:induction false} EventsGiveItems(matches: string -> bool, items: seq<Item>)
    requires AllSound(matches, items)
    ensures Items(matches, AllEvents(items)) == PrintedItems(items)
  {
    if items != [] {
      var last, front := items[|items| - 1], items[..|items| - 1];
      EventsGiveItems(matches, front);
      ItemsOfTwo(matches, AllEvents(front), BlockEvents(last)[0], BlockEvents(last)[1]);
      BlockItems(matches, last);
    }
  }

  /** Extracting from the written page gives the first extraction back, with every matrix entry
      and coordinate replaced by the number that was printed for it. */
  lemma ReextractionPrints(matches: string -> bool, g: Graph, res: Resources, content: seq<Token>, g': Graph)
    ensures var items := Extract(matches, g, res, content);
            Extract(matches, g', PageResources(Keys(items)), PageContent(items)) == PrintedItems(items)
  {
    var items := Extract(matches, g, res, content);
    ExtractSound(matches, g, res, content);
    KeysCover(items);
    RunContent(matches, g', items, Keys(items));
    EventsGiveItems(matches, items);
  }

  ghost predicate Exact(item: Item) {
    && (forall v <- MatrixNums(item.ctm) :: PrintsExactly(v))
    && forall i, j | 0 <= i < |item.path| && 0 <= j < |item.path[i].v| :: PrintsExactly(item.path[i].v[j])
  }

  lemma PrintedItemIff(item: Item)
    ensures PrintedItem(item) == item <==> Exact(item)
  {
    var m := item.ctm;
    forall v | v in MatrixNums(m)
      ensures Printed(v) == v <==> PrintsExactly(v)
    {
      PrintedExactIff(v);
    }
    assert MatrixNums(m)[0] == m.a && MatrixNums(m)[1] == m.b && MatrixNums(m)[2] == m.c &&
           MatrixNums(m)[3] == m.d && MatrixNums(m)[4] == m.e && MatrixNums(m)[5] == m.f;
    PrintedPathIff(item.path);
  }

  lemma PrintedPathIff(path: seq<Seg>)
    ensures PrintedPath(path) == path <==>
            forall i, j | 0 <= i < |path| && 0 <= j < |path[i].v| :: PrintsExactly(path[i].v[j])
  {
    forall i, j | 0 <= i < |path| && 0 <= j < |path[i].v|
      ensures PrintedPath(path)[i].v[j] == path[i].v[j] <==> PrintsExactly(path[i].v[j])
    {
      PrintedExactIff(path[i].v[j]);
    }
    if forall i, j | 0 <= i < |path| && 0 <= j < |path[i].v| :: PrintsExactly(path[i].v[j]) {
      forall i | 0 <= i < |path|
        ensures PrintedPath(path)[i] == path[i]
      {
        assert PrintedPath(path)[i].v == path[i].v;
      }
    }
  }

  /** Every item is exact. */
  ghost predicate AllExact(items: seq<Item>) {
    items != [] ==> AllExact(items[..|items| - 1]) && Exact(items[|items| - 1])
  }

  lemma {:induction false} PrintedItemsIff(items: seq<Item>)
    ensures |PrintedItems(items)| == |items|
    ensures PrintedItems(items) == items <==> AllExact(items)
  {
    hide PrintedItem, Exact;
    if items != [] {
      var n := |items| - 1;
      PrintedItemsIff(items[..n]);
      PrintedItemIff(items[n]);
      assert PrintedItems(items)[..n] == PrintedItems(items[..n]);
      assert items == items[..n] + [items[n]];
    }
  }

  /** The extraction is stable, that is, extracting from the written page finds the very same
      items, if and only if every number of every item prints exactly. */
  lemma ExtractionStableIff(matches: string -> bool, g: Graph, res: Resources, content: seq<Token>, g': Graph)
    ensures var items := Extract(matches, g, res, content);
            Extract(matches, g', PageResources(Keys(items)), PageContent(items)) == items <==> AllExact(items)
  {
    ReextractionPrints(matches, g, res, content, g');
    PrintedItemsIff(Extract(matches, g, res, content));
  }

  /** What a user compares: if every number prints exactly, the second extraction reports the same
      colourants, paint, device-space points, line settings and tints, in the same order. */
  lemma ReportedPathsStable(matches: string -> bool, g: Graph, res: Resources, content: seq<Token>, g': Graph)
    requires AllExact(Extract(matches, g, res, content))
    ensures var items := Extract(matches, g, res, content);
            var again := Extract(matches, g', PageResources(Keys(items)), PageContent(items));
            && |again| == |items|
            && forall i | 0 <= i < |items| ::
                 && again[i].colorant == items[i].colorant && again[i].stroke == items[i].stroke
                 && DevicePoints(again[i]) == DevicePoints(items[i])
                 && again[i].line == items[i].line && again[i].lineWidth == items[i].lineWidth
                 && again[i].tint == items[i].tint
  {
    hide Extract, PageContent, PageResources, Keys, AllExact, DevicePoints;
    ExtractionStableIff(matches, g, res, content, g');
  }

  lemma {:induction false} PrintingAgain(items: seq<Item>, keys: seq<Obj>)
    ensures Keys(PrintedItems(items)) == Keys(items)
    ensures Content(PrintedItems(items), keys) == Content(items, keys)
  {
    if items != [] {
      var last, front := items[|items| - 1], items[..|items| - 1];
      PrintingAgain(front, keys);
      var p := PrintedItems(items);
      assert p[..|p| - 1] == PrintedItems(front) && p[|p| - 1] == PrintedItem(last);
      BlockAgain(last, SpaceName(IndexOf(keys, last.space)));
    }
  }

  lemma PrintedTwice(v: real)
    ensures Printed(Printed(v)) == Printed(v)
  {
    PrintedExactIff(v);
    PrintedExactIff(Printed(v));
  }

  lemma NumsAgain(v: seq<real>)
    ensures Nums(PrintedAll(v)) == Nums(v)
  {
    forall i | 0 <= i < |v|
      ensures Nums(PrintedAll(v))[i] == Nums(v)[i]
    {
      PrintedTwice(v[i]);
    }
  }

  lemma BlockAgain(item: Item, name: string)
    ensures Block(PrintedItem(item), name) == Block(item, name)
  {
    NumsAgain(MatrixNums(item.ctm));
    assert MatrixNums(PrintedMatrix(item.ctm)) == PrintedAll(MatrixNums(item.ctm));
    SegsAgain(item.path);
  }

  lemma {:induction false} SegsAgain(path: seq<Seg>)
    ensures SegCommands(PrintedPath(path)) == SegCommands(path)
  {
    if path != [] {
      var front := path[..|path| - 1];
      SegsAgain(front);
      assert PrintedPath(path)[..|path| - 1] == PrintedPath(front);
      NumsAgain(path[|path| - 1].v);
    }
  }

  /** For every page, exact numbers or not, the written page is a fixed point: extracting from it
      writes the same content and the same colour spaces again. */
  lemma WrittenPageIsFixedPoint(matches: string -> bool, g: Graph, res: Resources, content: seq<Token>, g': Graph)
    ensures var items := Extract(matches, g, res, content);
            var again := Extract(matches, g', PageResources(Keys(items)), PageContent(items));
            PageContent(again) == PageContent(items) && Keys(again) == Keys(items)
  {
    var items := Extract(matches, g, res, content);
    ReextractionPrints(matches, g, res, content, g');
    PrintingAgain(items, Keys(items));
  }

  // ----- a page that is not -----

  const SPOT: Obj := Arr([Name("/Separation"), Name("/Cut")])

  const FINE_DOT: seq<real> := [0.0004, 0.0]

  /** A stroked path in a spot colour with a coordinate of four decimals. */
  function FineContent(): seq<Token> {
    Command([SPOT], SetSpace(true)) +
    (Command([Num(0.0004), Num(0.0)], Segment(MoveTo)) + Command([], Paint(StrokeOpen)))
  }

  lemma FineRun(g: Graph) returns (gs: Gs)
    ensures gs.strokeSpace == SPOT
    ensures WalkPage(g, NotDictionary, FineContent()) ==
            [SpaceSet(SPOT), PathPainted([Seg(MoveTo, FINE_DOT)], gs, true, false)]
  {
    hide Run;
    var ctx, st := Context(NotDictionary, 0, {}), Fresh(IDENTITY);
    var nums, paint := [Num(0.0004), Num(0.0)], Command([], Paint(StrokeOpen));
    var spaced := st.(gs := WithSpace(st.gs, true, SPOT));
    RunThen(g, ctx, st, [SPOT], SetSpace(true), Command(nums, Segment(MoveTo)) + paint, spaced, [SpaceSet(SPOT)]);
    assert Numbers(nums) == FINE_DOT && [] + [Seg(MoveTo, FINE_DOT)] == [Seg(MoveTo, FINE_DOT)];
    var drawn := spaced.(path := [Seg(MoveTo, FINE_DOT)]);
    RunThen(g, ctx, spaced, nums, Segment(MoveTo), paint, drawn, []);
    RunCommand(g, ctx, drawn, [], Paint(StrokeOpen));
    var events := [PathPainted([Seg(MoveTo, FINE_DOT)], spaced.gs, true, false)];
    assert [] + events == events;
    assert [SpaceSet(SPOT)] + events == [SpaceSet(SPOT), events[0]];
    gs := spaced.gs;
  }

  predicate Every(name: string) {
    true
  }

  lemma FineItems(g: Graph) returns (item: Item)
    ensures Extract(Every, g, NotDictionary, FineContent()) == [item] && item.path == [Seg(MoveTo, FINE_DOT)]
  {
    hide WalkPage, FineContent, Tint;
    var gs := FineRun(g);
    var painted := PathPainted([Seg(MoveTo, FINE_DOT)], gs, true, false);
    var events := [SpaceSet(SPOT), painted];
    var names := Colorants(SPOT);
    assert names == ["Cut"];
    assert Hit(names, Every) == "Cut";
    assert events[..1] == [SpaceSet(SPOT)] && events[..1][..0] == [];
    assert Items(Every, events[..1]) == [];
    item := SideItems(Every, painted.path, gs, true, true)[0];
    assert EventItems(Every, painted) == [item];
  }

  /** The coordinate is printed as 0, so the second extraction differs from the first. */
  lemma FineCoordinateIsLost(g: Graph, g': Graph)
    ensures var items := Extract(Every, g, NotDictionary, FineContent());
            Extract(Every, g', PageResources(Keys(items)), PageContent(items)) != items
  {
    hide Extract, PageResources, PageContent, Keys, FineContent;
    var item := FineItems(g);
    assert item.path[0].v[0] == 0.0004;
    assert !PrintsExactly(0.0004);
    assert !Exact(item);
    assert [item][..0] == [];
    ExtractionStableIff(Every, g, NotDictionary, FineContent(), g');
  }
}
