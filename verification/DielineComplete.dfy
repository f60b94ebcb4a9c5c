/** Which painted paths of a page are extracted: exactly those whose colour space lists a matching
    colourant, stated over the objects of the space and the state of the page. */
module DielineComplete {
  import opened PdfContent
  import opened ContentWalk
  import opened ContentOperators
  import opened Dieline
  import opened DielineStability
  import Decimal

  // ----- the colourants that a space lists -----

  /** `objs` are the objects at which a Separation or DeviceN space lists its colourants. */
  ghost predicate Lists(space: Obj, objs: seq<Obj>) {
    && space.Arr? && |space.items| >= 2
    && ((space.items[0] == Name("/Separation") && space.items[1].Name? && objs == [space.items[1]]) ||
        (space.items[0] == Name("/DeviceN") && space.items[1] == Arr(objs)))
  }

  /** The object names the colourant `c`. */
  ghost predicate Names(o: Obj, c: string) {
    o.Name? && if o.name == "" then c == "" else o.name[1..] == c
  }

  /** The object at `k` is the last of `objs` that names a matching colourant, and names `c`. */
  ghost predicate LastMatch(matches: string -> bool, objs: seq<Obj>, k: nat, c: string) {
    && k < |objs| && Names(objs[k], c) && matches(c)
    && forall m, d | k < m < |objs| && Names(objs[m], d) :: !matches(d)
  }

  ghost predicate NoMatch(matches: string -> bool, objs: seq<Obj>) {
    forall m, d | 0 <= m < |objs| && Names(objs[m], d) :: !matches(d)
  }

  /** The places of `objs` that hold a name. */
  ghost function Named(objs: seq<Obj>): set<int> {
    set i | 0 <= i < |objs| && objs[i].Name?
  }

  lemma {:induction false} NamesInSnoc(objs: seq<Obj>, o: Obj)
    ensures NamesIn(objs + [o]) == NamesIn(objs) + NameIn(o)
  {
    if objs == [] {
      assert [o][1..] == [] && [] + [o] == [o];
      assert NamesIn([o]) == NameIn(o) + NamesIn([o][1..]);
    } else {
      var all := objs + [o];
      assert all[0] == objs[0] && all[1..] == objs[1..] + [o];
      NamesInSnoc(objs[1..], o);
      assert NamesIn(all) == NameIn(objs[0]) + NamesIn(all[1..]);
      assert NamesIn(objs) == NameIn(objs[0]) + NamesIn(objs[1..]);
    }
  }

  function NameIn(o: Obj): seq<string> {
    if o.Name? then [Unslashed(o.name)] else []
  }

  lemma HitSnoc(matches: string -> bool, names: seq<string>, name: string)
    ensures Hit(names + [name], matches) == if matches(name) then name else Hit(names, matches)
  {
    var all := names + [name];
    assert all[..|all| - 1] == names && all[|all| - 1] == name;
  }

  /** What the loop over the listed names finds. */
  ghost predicate Hits(matches: string -> bool, objs: seq<Obj>, hit: string) {
    if NoMatch(matches, objs) then hit == "" else exists k: nat, c: string :: LastMatch(matches, objs, k, c) && c == hit
  }

  lemma {:induction false} HitIsLast(matches: string -> bool, objs: seq<Obj>)
    ensures Hits(matches, objs, Hit(NamesIn(objs), matches))
  {
    if objs != [] {
      var n := |objs| - 1;
      var front, o := objs[..n], objs[n];
      assert objs == front + [o];
      HitIsLast(matches, front);
      NamesInSnoc(front, o);
      if o.Name? {
        HitSnoc(matches, NamesIn(front), Unslashed(o.name));
      } else {
        assert NamesIn(front) + [] == NamesIn(front);
      }
      hide Hit, NamesIn;
      HitsSnoc(matches, front, o, Hit(NamesIn(front), matches));
    }
  }

  lemma HitsSnoc(matches: string -> bool, front: seq<Obj>, o: Obj, hit: string)
    requires Hits(matches, front, hit)
    ensures Hits(matches, front + [o], if o.Name? && matches(Unslashed(o.name)) then Unslashed(o.name) else hit)
  {
    var objs, n := front + [o], |front|;
    if o.Name? && matches(Unslashed(o.name)) {
      assert Names(objs[n], Unslashed(o.name));
      assert LastMatch(matches, objs, n, Unslashed(o.name));
    } else if NoMatch(matches, front) {
      assert NoMatch(matches, objs);
    } else {
      var k: nat, c: string :| LastMatch(matches, front, k, c) && c == hit;
      assert LastMatch(matches, objs, k, c);
      assert Names(objs[k], c);
    }
  }

  lemma LastMatchUnique(matches: string -> bool, objs: seq<Obj>, k: nat, c: string, m: nat, d: string)
    requires LastMatch(matches, objs, k, c) && LastMatch(matches, objs, m, d)
    ensures k == m && c == d
  {
  }

  lemma {:induction false} NamedCount(objs: seq<Obj>)
    ensures |NamesIn(objs)| == |Named(objs)|
  {
    if objs != [] {
      var n := |objs| - 1;
      var front, o := objs[..n], objs[n];
      assert objs == front + [o];
      NamedCount(front);
      NamesInSnoc(front, o);
      assert Named(objs) == Named(front) + if o.Name? then {n} else {};
    }
  }

  lemma ColorantsListed(space: Obj, objs: seq<Obj>)
    requires Lists(space, objs)
    ensures Colorants(space) == NamesIn(objs)
  {
    if space.items[0] == Name("/Separation") {
      assert objs[1..] == [];
      assert NamesIn(objs[1..]) == [];
    }
  }

  // ----- one painted path -----

  /** The operands that set the colour of a side; without them, full ink for every name. */
  ghost predicate TintOf(color: Color, objs: seq<Obj>, tint: seq<Obj>) {
    if color.Color? && color.operands != [] then tint == color.operands
    else |tint| == |Named(objs)| && forall i | 0 <= i < |tint| :: tint[i] == Num(1.0)
  }

  ghost predicate StrokeItem(c: string, objs: seq<Obj>, path: seq<Seg>, gs: Gs, item: Item) {
    && item == Item(c, true, gs.ctm, path, gs.line, gs.lineWidth, item.tint, gs.strokeSpace)
    && TintOf(gs.strokeColor, objs, item.tint)
  }

  ghost predicate FillItem(c: string, objs: seq<Obj>, path: seq<Seg>, gs: Gs, item: Item) {
    && item == Item(c, false, gs.ctm, path, gs.line, gs.lineWidth, item.tint, gs.fillSpace)
    && TintOf(gs.fillColor, objs, item.tint)
  }

  lemma OnlyEvent(matches: string -> bool, e: Event)
    ensures Items(matches, [e]) == EventItems(matches, e)
  {
    assert [e][..0] == [];
    assert Items(matches, []) == [];
  }

  /** A stroked path gives exactly one item if its space lists a matching colourant other than the
      empty one, named by the last match, and none otherwise. */
  lemma StrokeFoundIff(matches: string -> bool, path: seq<Seg>, gs: Gs, objs: seq<Obj>)
    requires Lists(gs.strokeSpace, objs)
    ensures var items := Items(matches, [PathPainted(path, gs, true, false)]);
            && (forall k: nat, c: string | LastMatch(matches, objs, k, c) && c != "" ::
                  |items| == 1 && StrokeItem(c, objs, path, gs, items[0]))
            && (items == [] <==> forall k: nat, c: string | LastMatch(matches, objs, k, c) :: c == "")
  {
    var e := PathPainted(path, gs, true, false);
    OnlyEvent(matches, e);
    HitIsLast(matches, objs);
    NamedCount(objs);
    ColorantsListed(gs.strokeSpace, objs);
    hide NamesIn, Hit, Items, Names, Lists, Colorants;
    assert EventItems(matches, e) == SideItems(matches, path, gs, true, true);
    forall k: nat, c: string | LastMatch(matches, objs, k, c)
      ensures c == Hit(NamesIn(objs), matches)
    {
      HitIs(matches, objs, k, c);
    }
    NothingLast(matches, objs);
  }

  lemma FillFoundIff(matches: string -> bool, path: seq<Seg>, gs: Gs, objs: seq<Obj>)
    requires Lists(gs.fillSpace, objs)
    ensures var items := Items(matches, [PathPainted(path, gs, false, true)]);
            && (forall k: nat, c: string | LastMatch(matches, objs, k, c) && c != "" ::
                  |items| == 1 && FillItem(c, objs, path, gs, items[0]))
            && (items == [] <==> forall k: nat, c: string | LastMatch(matches, objs, k, c) :: c == "")
  {
    var e := PathPainted(path, gs, false, true);
    OnlyEvent(matches, e);
    HitIsLast(matches, objs);
    NamedCount(objs);
    ColorantsListed(gs.fillSpace, objs);
    hide NamesIn, Hit, Items, Names, Lists, Colorants;
    assert EventItems(matches, e) == SideItems(matches, path, gs, false, true);
    forall k: nat, c: string | LastMatch(matches, objs, k, c)
      ensures c == Hit(NamesIn(objs), matches)
    {
      HitIs(matches, objs, k, c);
    }
    NothingLast(matches, objs);
  }

  lemma HitIs(matches: string -> bool, objs: seq<Obj>, k: nat, c: string)
    requires LastMatch(matches, objs, k, c)
    ensures Hit(NamesIn(objs), matches) == c
  {
    HitIsLast(matches, objs);
    assert !NoMatch(matches, objs);
    var m: nat, d: string :| LastMatch(matches, objs, m, d) && d == Hit(NamesIn(objs), matches);
    LastMatchUnique(matches, objs, k, c, m, d);
  }

  lemma NothingLast(matches: string -> bool, objs: seq<Obj>)
    ensures Hit(NamesIn(objs), matches) == "" <==> forall k: nat, c: string | LastMatch(matches, objs, k, c) :: c == ""
  {
    HitIsLast(matches, objs);
    forall k: nat, c: string | LastMatch(matches, objs, k, c)
      ensures c == Hit(NamesIn(objs), matches)
    {
      HitIs(matches, objs, k, c);
    }
  }

  /** A space that lists no colourants gives no item on either side. */
  lemma OtherSpaceGivesNothing(matches: string -> bool, path: seq<Seg>, gs: Gs, stroke: bool, fill: bool)
    requires stroke ==> forall objs :: !Lists(gs.strokeSpace, objs)
    requires fill ==> forall objs :: !Lists(gs.fillSpace, objs)
    ensures Items(matches, [PathPainted(path, gs, stroke, fill)]) == []
  {
    OnlyEvent(matches, PathPainted(path, gs, stroke, fill));
    if stroke {
      NoColorants(gs.strokeSpace);
    }
    if fill {
      NoColorants(gs.fillSpace);
    }
  }

  lemma NoColorants(space: Obj)
    requires forall objs :: !Lists(space, objs)
    ensures Colorants(space) == []
  {
    if space.Arr? && |space.items| >= 2 {
      assert !Lists(space, [space.items[1]]);
      if space.items[1].Arr? {
        assert !Lists(space, space.items[1].items);
      }
    }
  }

  // ----- a whole page -----

  lemma {:induction false} ItemsAppend(matches: string -> bool, a: seq<Event>, b: seq<Event>)
    ensures Items(matches, a + b) == Items(matches, a) + Items(matches, b)
  {
    hide EventItems;
    if b == [] {
      assert a + b == a;
    } else {
      var n := |b| - 1;
      assert (a + b)[..|a| + n] == a + b[..n] && (a + b)[|a| + n] == b[n];
      ItemsAppend(matches, a, b[..n]);
      Appended(Items(matches, a), Items(matches, b[..n]), EventItems(matches, b[n]));
    }
  }

  /** A path that is stroked and filled counts once for either side, the stroke first; every other
      report counts for nothing. */
  lemma BothSides(matches: string -> bool, path: seq<Seg>, gs: Gs, e: Event)
    requires !e.PathPainted?
    ensures Items(matches, [PathPainted(path, gs, true, true)]) ==
            Items(matches, [PathPainted(path, gs, true, false)]) + Items(matches, [PathPainted(path, gs, false, true)])
    ensures Items(matches, [e]) == [] == Items(matches, [PathPainted(path, gs, false, false)])
  {
    OnlyEvent(matches, e);
    OnlyEvent(matches, PathPainted(path, gs, true, true));
    OnlyEvent(matches, PathPainted(path, gs, true, false));
    OnlyEvent(matches, PathPainted(path, gs, false, true));
    OnlyEvent(matches, PathPainted(path, gs, false, false));
  }

  /** The items of a page are those of its reports, each in its place. */
  lemma ExtractSplits(matches: string -> bool, g: Graph, res: Resources, content: seq<Token>, i: nat)
    requires i < |WalkPage(g, res, content)|
    ensures var events := WalkPage(g, res, content);
            Extract(matches, g, res, content) ==
            Items(matches, events[..i]) + Items(matches, [events[i]]) + Items(matches, events[i + 1..])
  {
    hide Items, WalkPage;
    var events := WalkPage(g, res, content);
    assert events == events[..i] + [events[i]] + events[i + 1..];
    ItemsAppend(matches, events[..i], [events[i]]);
    ItemsAppend(matches, events[..i] + [events[i]], events[i + 1..]);
  }

  // ----- a spot-coloured path, from the operators to the item -----

  /** The operators that draw a path. */
  function Drawn(path: seq<Seg>): seq<Token> {
    if path == [] then []
    else
      var s := path[|path| - 1];
      Drawn(path[..|path| - 1]) + Command(Numerals(s.v), Segment(s.kind))
  }

  function Numerals(v: seq<real>): (r: seq<Obj>)
    ensures |r| == |v|
  {
    seq(|v|, i requires 0 <= i < |v| => Num(v[i]))
  }

  lemma {:induction false} RunDrawn(g: Graph, ctx: Context, st: State, path: seq<Seg>)
    requires st.ops == []
    ensures Run(g, ctx, st, Drawn(path)) == Outcome(st.(path := st.path + path), [])
    decreases |path|
  {
    hide Run, Command;
    if path == [] {
      assert st.path + path == st.path;
      RunNone(g, ctx, st);
    } else {
      var s, front := path[|path| - 1], path[..|path| - 1];
      RunDrawn(g, ctx, st, front);
      var st', nums := st.(path := st.path + front), Numerals(s.v);
      RunAppend(g, ctx, st, Drawn(front), Command(nums, Segment(s.kind)));
      RunCommand(g, ctx, st', nums, Segment(s.kind));
      assert Numbers(nums) == s.v && Seg(s.kind, s.v) == s;
      assert st'.path + [s] == st.path + path;
    }
  }

  /** A space, a colour, a path and a paint operator. */
  function SpotPath(stroke: bool, name: string, tint: seq<Obj>, path: seq<Seg>, paint: string): seq<Token> {
    Command([Name(name)], OpOf(if stroke then "CS" else "cs")) +
    (Command(tint, OpOf(if stroke then "SCN" else "scn")) + (Drawn(path) + [Operator(OpOf(paint))]))
  }

  /** The state in which that path is painted on a page. */
  function SpotState(stroke: bool, space: Obj, color: Color, path: seq<Seg>): State {
    var st := Start(Matrix(1.0, 0.0, 0.0, 1.0, 0.0, 0.0)).(path := path);
    if stroke then st.(gs := st.gs.(strokeSpace := space, strokeColor := color))
    else st.(gs := st.gs.(fillSpace := space, fillColor := color))
  }

  lemma SpotOps(stroke: bool)
    ensures OpOf(if stroke then "CS" else "cs") == SetSpace(stroke)
    ensures OpOf(if stroke then "SCN" else "scn") == SetColor(stroke, true)
  {
  }

  lemma SpaceStep(res: Resources, stroke: bool, name: string)
    requires name !in {"/DeviceGray", "/DeviceRGB", "/DeviceCMYK", "/Pattern"}
    requires res.Resources? && name in res.spaces
    ensures Plain(Context(res, 0, {}), Fresh(IDENTITY).(ops := [Name(name)]), SetSpace(stroke)) ==
            Outcome(SpotState(stroke, res.spaces[name], NoColor, []).(ops := [Name(name)]),
                    [SpaceSet(res.spaces[name])])
  {
  }

  lemma ColorStep(ctx: Context, stroke: bool, space: Obj, tint: seq<Obj>)
    ensures Plain(ctx, SpotState(stroke, space, NoColor, []).(ops := tint), SetColor(stroke, true)) ==
            Outcome(SpotState(stroke, space, Color(tint, SetColor(stroke, true)), []).(ops := tint), [])
  {
  }

  lemma PathStep(g: Graph, ctx: Context, stroke: bool, space: Obj, color: Color, path: seq<Seg>, last: seq<Token>)
    ensures Run(g, ctx, SpotState(stroke, space, color, []), Drawn(path) + last).events ==
            Run(g, ctx, SpotState(stroke, space, color, path), last).events
  {
    hide Run;
    var colored := SpotState(stroke, space, color, []);
    RunDrawn(g, ctx, colored, path);
    assert [] + path == path;
    RunAppend(g, ctx, colored, Drawn(path), last);
  }

  lemma SpotRun(g: Graph, res: Resources, stroke: bool, name: string, tint: seq<Obj>, path: seq<Seg>, paint: string)
    requires name !in {"/DeviceGray", "/DeviceRGB", "/DeviceCMYK", "/Pattern"}
    requires res.Resources? && name in res.spaces
    ensures var st := SpotState(stroke, res.spaces[name], Color(tint, OpOf(if stroke then "SCN" else "scn")), path);
            WalkPage(g, res, SpotPath(stroke, name, tint, path, paint)) ==
            [SpaceSet(res.spaces[name])] + RunOne(g, Context(res, 0, {}), st, paint).events
  {
    SpotOps(stroke);
    hide Run, Command, OpOf, Plain, SpotState;
    var ctx, space, last := Context(res, 0, {}), res.spaces[name], [Operator(OpOf(paint))];
    var color, rest := Color(tint, SetColor(stroke, true)), Drawn(path) + last;
    SpaceStep(res, stroke, name);
    ColorStep(ctx, stroke, space, tint);
    PathStep(g, ctx, stroke, space, color, path, last);
    SpotIdle(stroke, space, NoColor);
    SpotIdle(stroke, space, color);
    RunThen(g, ctx, Fresh(IDENTITY), [Name(name)], SetSpace(stroke), Command(tint, SetColor(stroke, true)) + rest,
            SpotState(stroke, space, NoColor, []), [SpaceSet(space)]);
    RunThen(g, ctx, SpotState(stroke, space, NoColor, []), tint, SetColor(stroke, true), rest,
            SpotState(stroke, space, color, []), []);
  }

  lemma SpotIdle(stroke: bool, space: Obj, color: Color)
    ensures SpotState(stroke, space, color, []).ops == []
  {
  }

  /** A side whose space is a name adds nothing. */
  lemma OneSide(matches: string -> bool, path: seq<Seg>, gs: Gs, stroke: bool, fill: bool, side: bool)
    requires (if side then gs.fillSpace else gs.strokeSpace).Name?
    ensures Items(matches, [PathPainted(path, gs, stroke, fill)]) ==
            if (if side then stroke else fill) then Items(matches, [PathPainted(path, gs, side, !side)]) else []
  {
    OnlyEvent(matches, PathPainted(path, gs, stroke, fill));
    OnlyEvent(matches, PathPainted(path, gs, side, !side));
  }

  lemma SpaceFirst(matches: string -> bool, space: Obj, events: seq<Event>)
    ensures Items(matches, [SpaceSet(space)] + events) == Items(matches, events)
  {
    ItemsAppend(matches, [SpaceSet(space)], events);
    OnlyEvent(matches, SpaceSet(space));
  }

  lemma SpotItem(matches: string -> bool, stroke: bool, space: Obj, color: Color, path: seq<Seg>, objs: seq<Obj>,
      k: nat, c: string)
    requires Lists(space, objs) && LastMatch(matches, objs, k, c) && c != ""
    ensures var gs := SpotState(stroke, space, color, path).gs;
            var items := Items(matches, [PathPainted(path, gs, stroke, !stroke)]);
            && |items| == 1 && TintOf(color, objs, items[0].tint)
            && items[0] == Item(c, stroke, Matrix(1.0, 0.0, 0.0, 1.0, 0.0, 0.0), path, map[], 1.0, items[0].tint, space)
  {
    hide Lists, LastMatch, Items;
    var gs := SpotState(stroke, space, color, path).gs;
    if stroke {
      StrokeFoundIff(matches, path, gs, objs);
    } else {
      FillFoundIff(matches, path, gs, objs);
    }
  }

  /** A path of a page in a Separation or DeviceN space of its resources gives one item if it is
      painted on that side, whatever the spelling of the operator, and none otherwise. */
  lemma SpotPathFound(matches: string -> bool, g: Graph, res: Resources, stroke: bool, name: string, tint: seq<Obj>,
      path: seq<Seg>, paint: string, objs: seq<Obj>, k: nat, c: string)
    requires name !in {"/DeviceGray", "/DeviceRGB", "/DeviceCMYK", "/Pattern"}
    requires res.Resources? && name in res.spaces && Lists(res.spaces[name], objs)
    requires LastMatch(matches, objs, k, c) && c != "" && path != []
    requires paint in {"S", "s", "f", "F", "f*", "B", "B*", "b", "b*", "n"}
    ensures var items := Extract(matches, g, res, SpotPath(stroke, name, tint, path, paint));
            if paint == "n" || (stroke && paint in {"f", "F", "f*"}) || (!stroke && paint in {"S", "s"})
            then items == []
            else
              && |items| == 1
              && items[0] == Item(c, stroke, Matrix(1.0, 0.0, 0.0, 1.0, 0.0, 0.0), path, map[], 1.0, items[0].tint,
                                  res.spaces[name])
              && TintOf(Color(tint, OpOf(if stroke then "SCN" else "scn")), objs, items[0].tint)
  {
    hide WalkPage, SpotPath, Items, LastMatch, Lists, RunOne, OpOf, TintOf;
    var color := Color(tint, OpOf(if stroke then "SCN" else "scn"));
    var st, ctx := SpotState(stroke, res.spaces[name], color, path), Context(res, 0, {});
    SpotRun(g, res, stroke, name, tint, path, paint);
    PaintReported(g, ctx, st, paint);
    SpaceFirst(matches, res.spaces[name], RunOne(g, ctx, st, paint).events);
    NoItems(matches);
    OneSide(matches, path, st.gs, true, false, stroke);
    OneSide(matches, path, st.gs, false, true, stroke);
    OneSide(matches, path, st.gs, true, true, stroke);
    SpotItem(matches, stroke, res.spaces[name], color, path, objs, k, c);
  }

  lemma NoItems(matches: string -> bool)
    ensures Items(matches, []) == []
  {
  }

  // ----- what is listed and written for an item -----

  /** A rectangle is listed by its corners, in device space. */
  lemma RectanglePoints(item: Item, i: nat, x: real, y: real, w: real, h: real)
    requires i < |item.path| && item.path[i] == Seg(Rect, [x, y, w, h])
    ensures DevicePoints(item)[i] ==
            [Apply(item.ctm, Point(x, y)), Apply(item.ctm, Point(x + w, y)),
             Apply(item.ctm, Point(x + w, y + h)), Apply(item.ctm, Point(x, y + h))]
  {
  }

  /** Any other segment is listed by its pairs of numbers; a number left over is not listed. */
  lemma PairPoints(item: Item, i: nat, j: nat)
    requires i < |item.path| && !(item.path[i].kind == Rect && |item.path[i].v| == 4)
    ensures var v, points := item.path[i].v, DevicePoints(item)[i];
            && 2 * |points| <= |v| <= 2 * |points| + 1
            && (j < |points| ==> points[j] == Apply(item.ctm, Point(v[2 * j], v[2 * j + 1])))
  {
  }

  /** Line settings are written in the order of their spellings, as a sorted map lists them. */
  lemma LineOrderSorted(i: nat, j: nat)
    requires i < j < |LINE_ORDER|
    ensures LineSpelling(LINE_ORDER[i])[0] < LineSpelling(LINE_ORDER[j])[0]
  {
  }

  /** The names of the spaces on the written page: /CS and the number of the space, from 0 on. */
  lemma SpaceNamed(i: nat)
    ensures |SpaceName(i)| > 3 && SpaceName(i)[..3] == "/CS"
    ensures Decimal.Canonical(SpaceName(i)[3..]) && Decimal.Value(SpaceName(i)[3..]) == i
  {
    assert SpaceName(i)[3..] == Decimal.Text(i);
  }
}
