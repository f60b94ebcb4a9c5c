/** Dieline extraction: the paths painted in matching spot colours, and the page of content that
    is written from them. */
module Dieline {
  import opened PdfContent
  import opened ContentWalk
  import opened PrintedNumber
  import Decimal

  // ----- numbers as they are printed -----

  function PrintedMatrix(m: Matrix): Matrix {
    Matrix(Printed(m.a), Printed(m.b), Printed(m.c), Printed(m.d), Printed(m.e), Printed(m.f))
  }

  function PrintedAll(v: seq<real>): (r: seq<real>)
    ensures |r| == |v|
  {
    seq(|v|, i requires 0 <= i < |v| => Printed(v[i]))
  }

  function PrintedPath(path: seq<Seg>): (r: seq<Seg>)
    ensures |r| == |path|
  {
    seq(|path|, i requires 0 <= i < |path| => Seg(path[i].kind, PrintedAll(path[i].v)))
  }

  // ----- what is extracted -----

  /** `colorantNames`: the names of a Separation or DeviceN space, without their slash. */
  function Colorants(cs: Obj): seq<string> {
    if !cs.Arr? || |cs.items| < 2 then []
    else
      var n := cs.items[1];
      if cs.items[0] == Name("/Separation") && n.Name? then [Unslashed(n.name)]
      else if cs.items[0] == Name("/DeviceN") && n.Arr? then NamesIn(n.items)
      else []
  }

  function Unslashed(name: string): string {
    if name == "" then "" else name[1..]
  }

  function NamesIn(items: seq<Obj>): seq<string> {
    if items == [] then []
    else (if items[0].Name? then [Unslashed(items[0].name)] else []) + NamesIn(items[1..])
  }

  /** The last colourant the pattern finds, or the empty string. */
  function Hit(names: seq<string>, matches: string -> bool): string {
    if names == [] then ""
    else if matches(names[|names| - 1]) then names[|names| - 1]
    else Hit(names[..|names| - 1], matches)
  }

  /** One extracted path. */
  datatype Item = Item(
    colorant: string, stroke: bool, ctm: Matrix, path: seq<Seg>,
    line: map<LineKey, seq<Obj>>, lineWidth: real, tint: seq<Obj>, space: Obj)

  /** The operands that set the colour, or full ink in every colourant when there are none. */
  function Tint(color: Color, space: Obj): seq<Obj> {
    if color.Color? && color.operands != [] then color.operands
    else seq(|Colorants(space)|, _ => Num(1.0))
  }

  function SideItems(matches: string -> bool, path: seq<Seg>, gs: Gs, stroke: bool, painted: bool): seq<Item> {
    var space := if stroke then gs.strokeSpace else gs.fillSpace;
    var hit := Hit(Colorants(space), matches);
    if !painted || hit == "" then []
    else [Item(hit, stroke, gs.ctm, path, gs.line, gs.lineWidth,
               Tint(if stroke then gs.strokeColor else gs.fillColor, space), space)]
  }

  function EventItems(matches: string -> bool, e: Event): seq<Item> {
    if !e.PathPainted? then []
    else SideItems(matches, e.path, e.gs, true, e.stroke) + SideItems(matches, e.path, e.gs, false, e.fill)
  }

  function Items(matches: string -> bool, events: seq<Event>): seq<Item> {
    if events == [] then []
    else Items(matches, events[..|events| - 1]) + EventItems(matches, events[|events| - 1])
  }

  /** The dieline of a page. */
  function Extract(matches: string -> bool, g: Graph, res: Resources, content: seq<Token>): seq<Item> {
    Items(matches, WalkPage(g, res, content))
  }

  /** The points of a segment as listed in the JSON output: a rectangle becomes its corners. */
  function Corners(s: Seg): seq<Point> {
    var v := s.v;
    if s.kind == Rect && |v| == 4 then
      [Point(v[0], v[1]), Point(v[0] + v[2], v[1]), Point(v[0] + v[2], v[1] + v[3]), Point(v[0], v[1] + v[3])]
    else seq(|v| / 2, i requires 0 <= i < |v| / 2 => Point(v[2 * i], v[2 * i + 1]))
  }

  function DevicePoints(item: Item): seq<seq<Point>> {
    seq(|item.path|, i requires 0 <= i < |item.path| =>
      var c := Corners(item.path[i]);
      seq(|c|, j requires 0 <= j < |c| => Apply(item.ctm, c[j])))
  }

  // ----- the page that is written -----

  /** A colour space gets the next free name the first time it is used. */
  function AddKey(keys: seq<Obj>, space: Obj): seq<Obj> {
    if space in keys then keys else keys + [space]
  }

  function Keys(items: seq<Item>): seq<Obj> {
    if items == [] then [] else AddKey(Keys(items[..|items| - 1]), items[|items| - 1].space)
  }

  function SpaceName(i: nat): string {
    "/CS" + Decimal.Text(i)
  }

  function Spaces(keys: seq<Obj>): map<string, Obj> {
    if keys == [] then map[]
    else Spaces(keys[..|keys| - 1])[SpaceName(|keys| - 1) := keys[|keys| - 1]]
  }

  function PageResources(keys: seq<Obj>): Resources {
    Resources(map[], Spaces(keys), {})
  }

  /** The position of the first entry for `space`, or the number of entries. */
  function IndexOf(keys: seq<Obj>, space: Obj): (i: nat)
    ensures i <= |keys| && (i < |keys| <==> space in keys)
    ensures i < |keys| ==> keys[i] == space
    ensures forall k | 0 <= k < i :: keys[k] != space
  {
    if keys == [] || keys[0] == space then 0 else 1 + IndexOf(keys[1..], space)
  }

  function Operands(objs: seq<Obj>): (ts: seq<Token>)
    ensures |ts| == |objs|
  {
    seq(|objs|, i requires 0 <= i < |objs| => Operand(objs[i]))
  }

  function Command(objs: seq<Obj>, op: Op): seq<Token> {
    Operands(objs) + [Operator(op)]
  }

  function Nums(v: seq<real>): (r: seq<Obj>)
    ensures |r| == |v|
  {
    seq(|v|, i requires 0 <= i < |v| => Num(Printed(v[i])))
  }

  /** The order in which the map of line settings is iterated: J, M, d, j, w. */
  const LINE_ORDER: seq<LineKey> := [Cap, Miter, Dash, Join, Width]

  function LineCommands(line: map<LineKey, seq<Obj>>, order: seq<LineKey>): seq<Token> {
    if order == [] then []
    else LineCommands(line, order[..|order| - 1]) +
         if order[|order| - 1] in line then Command(line[order[|order| - 1]], SetLine(order[|order| - 1])) else []
  }

  /** `segText`. */
  function SegCommands(path: seq<Seg>): seq<Token> {
    if path == [] then []
    else SegCommands(path[..|path| - 1]) + Command(Nums(path[|path| - 1].v), Segment(path[|path| - 1].kind))
  }

  function MatrixNums(m: Matrix): seq<real> {
    [m.a, m.b, m.c, m.d, m.e, m.f]
  }

  /** The block written for one item: its matrix, line settings, colour, path and paint operator
      between q and Q. */
  function Block(item: Item, name: string): seq<Token> {
    Command([], Save) + (Command(Nums(MatrixNums(item.ctm)), Concat) + (LineCommands(item.line, LINE_ORDER) +
    (Command([Name(name)], SetSpace(item.stroke)) + (Command(item.tint, SetColor(item.stroke, true)) +
    (SegCommands(item.path) + (Command([], Paint(if item.stroke then StrokeOpen else FillNonzero)) +
    Command([], Restore)))))))
  }

  function Content(items: seq<Item>, keys: seq<Obj>): seq<Token> {
    if items == [] then []
    else
      var last := items[|items| - 1];
      Content(items[..|items| - 1], keys) + Block(last, SpaceName(IndexOf(keys, last.space)))
  }

  /** The content stream of the page that is written for `items`. */
  function PageContent(items: seq<Item>): seq<Token> {
    Content(items, Keys(items))
  }

  ghost predicate Covers(keys: seq<Obj>, items: seq<Item>) {
    forall i | 0 <= i < |items| :: items[i].space in keys
  }

  lemma {:induction false} KeysCover(items: seq<Item>)
    ensures Covers(Keys(items), items)
  {
    if items != [] {
      KeysCover(items[..|items| - 1]);
    }
  }

  lemma {:induction false} ContentExtends(items: seq<Item>, keys: seq<Obj>, more: seq<Obj>)
    requires Covers(keys, items) && keys <= more
    ensures Content(items, keys) == Content(items, more)
  {
    if items != [] {
      ContentExtends(items[..|items| - 1], keys, more);
      var space := items[|items| - 1].space;
      assert IndexOf(keys, space) == IndexOf(more, space);
    }
  }

  /** The sink of the extractor: it appends to the page's content, names the colour spaces and
      lists the items. */
  class Extractor {
    var items: seq<Item>
    var content: seq<Token>
    var keys: seq<Obj>

    ghost predicate Valid()
      reads this
    {
      keys == Keys(items) && content == PageContent(items)
    }

    constructor ()
      ensures Valid() && items == []
    {
      items, content, keys := [], [], [];
    }

    /** The path callback: the stroke first, then the fill. */
    method OnPath(matches: string -> bool, path: seq<Seg>, gs: Gs, stroke: bool, fill: bool)
      requires Valid()
      modifies this
      ensures Valid() && items == old(items) + EventItems(matches, PathPainted(path, gs, stroke, fill))
    {
      OnSide(matches, path, gs, true, stroke);
      OnSide(matches, path, gs, false, fill);
      Appended(old(items), SideItems(matches, path, gs, true, stroke), SideItems(matches, path, gs, false, fill));
    }

    /** One turn of the callback's loop. */
    method OnSide(matches: string -> bool, path: seq<Seg>, gs: Gs, stroke: bool, painted: bool)
      requires Valid()
      modifies this
      ensures Valid() && items == old(items) + SideItems(matches, path, gs, stroke, painted)
    {
      var space := if stroke then gs.strokeSpace else gs.fillSpace;
      var hit := FindHit(Colorants(space), matches);
      if painted && hit != "" {
        var color := if stroke then gs.strokeColor else gs.fillColor;
        Append(Item(hit, stroke, gs.ctm, path, gs.line, gs.lineWidth, Tint(color, space), space));
      }
    }

    method Append(item: Item)
      requires Valid()
      modifies this
      ensures Valid() && items == old(items) + [item]
    {
      KeysCover(items);
      if item.space !in keys {
        keys := keys + [item.space];
      }
      ContentExtends(items, old(keys), keys);
      content := content + Block(item, SpaceName(IndexOf(keys, item.space)));
      items := items + [item];
      assert items[..|items| - 1] == old(items);
    }
  }

  lemma Appended(a: seq<Item>, b: seq<Item>, c: seq<Item>)
    ensures (a + b) + c == a + (b + c)
  {
  }

  method FindHit(names: seq<string>, matches: string -> bool) returns (hit: string)
    ensures hit == Hit(names, matches)
  {
    hit := "";
    for i := 0 to |names|
      invariant hit == Hit(names[..i], matches)
    {
      assert names[..i + 1][..i] == names[..i];
      if matches(names[i]) {
        hit := names[i];
      }
    }
    assert names[..|names|] == names;
  }

  method Collect(matches: string -> bool, events: seq<Event>) returns (x: Extractor)
    ensures x.Valid() && x.items == Items(matches, events)
  {
    hide SideItems, Content, Keys;
    x := new Extractor();
    var i := 0;
    while i < |events|
      invariant i <= |events| && x.Valid() && x.items == Items(matches, events[..i])
    {
      var e := events[i];
      if e.PathPainted? {
        x.OnPath(matches, e.path, e.gs, e.stroke, e.fill);
      }
      i := i + 1;
      assert events[..i][..i - 1] == events[..i - 1] && events[..i][i - 1] == e;
    }
    assert events[..|events|] == events;
  }

  /** One page of the tool: walk it, hand every painted path to the extractor, and return the
      content and the colour spaces of the page to write. */
  method ExtractPage(matches: string -> bool, g: Graph, res: Resources, content: seq<Token>)
    returns (items: seq<Item>, page: seq<Token>, pageRes: Resources)
    ensures items == Extract(matches, g, res, content)
    ensures page == PageContent(items) && pageRes == PageResources(Keys(items))
  {
    var sink := new Sink();
    var walk := new Walk(sink, res, IDENTITY, 0, {});
    walk.ParseContents(g, content);
    assert sink.events == WalkPage(g, res, content);
    var x := Collect(matches, sink.events);
    items, page, pageRes := x.items, x.content, PageResources(x.keys);
  }
}
