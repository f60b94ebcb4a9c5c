/** The XML form of a report, and what a reader gets back from it. */
module XmlReport {
  import opened XmlParser
  import opened XmlRoundTrip
  import opened Concatenation

  /** A report section. `cols` holds the keys of the table's columns. */
  datatype Section = Section(
    id: string, title: string, status: int, kv: seq<(string, string)>, cols: seq<string>, rows: seq<seq<string>>)

  /** The translation table and the facts in the report's own tag. */
  datatype Setting = Setting(tr: string -> string, lang: string, engine: string, created: string)

  /** `label`: a key of two parts is translated part by part. */
  function Label(tr: string -> string, key: string): string {
    var c := Find(key, 0, ':');
    if c == |key| then tr(key) else tr(key[..c]) + " - " + tr(key[c + 1..])
  }

  // ----- the tree that is printed -----

  function ItemElem(s: Setting, kv: (string, string)): Elem {
    Elem("item", [Attr("key", kv.0, false), Attr("label", Label(s.tr, kv.0), false)], Content([Chars(kv.1)]))
  }

  function ColumnElem(s: Setting, col: string): Elem {
    Elem("column", [Attr("key", col, true), Attr("label", s.tr(col), false)], SelfClosed)
  }

  function CellElem(col: string, value: string): Elem {
    Elem("cell", [Attr("key", col, true)], Content([Chars(value)]))
  }

  function ItemElems(s: Setting, kv: seq<(string, string)>): (r: seq<Elem>)
    ensures |r| == |kv|
  {
    seq(|kv|, i requires 0 <= i < |kv| => ItemElem(s, kv[i]))
  }

  function ColumnElems(s: Setting, cols: seq<string>): (r: seq<Elem>)
    ensures |r| == |cols|
  {
    seq(|cols|, i requires 0 <= i < |cols| => ColumnElem(s, cols[i]))
  }

  /** A row has as many cells as it has values and the table has columns. */
  function CellCount(cols: seq<string>, row: seq<string>): nat {
    if |row| < |cols| then |row| else |cols|
  }

  function CellElems(cols: seq<string>, row: seq<string>): (r: seq<Elem>)
    ensures |r| == CellCount(cols, row)
  {
    seq(CellCount(cols, row), i requires 0 <= i < CellCount(cols, row) => CellElem(cols[i], row[i]))
  }

  /** Elements one after the other. */
  function Children(es: seq<Elem>): seq<Item> {
    if es == [] then [] else [Child(es[0])] + Children(es[1..])
  }

  /** Elements on lines of their own. */
  function Lines(indent: string, es: seq<Elem>): seq<Item> {
    if es == [] then [] else [Chars(indent), Child(es[0]), Chars("\n")] + Lines(indent, es[1..])
  }

  function RowElem(cols: seq<string>, row: seq<string>): Elem {
    Elem("row", [], Content(Children(CellElems(cols, row))))
  }

  function RowElems(cols: seq<string>, rows: seq<seq<string>>): (r: seq<Elem>)
    ensures |r| == |rows|
  {
    seq(|rows|, i requires 0 <= i < |rows| => RowElem(cols, rows[i]))
  }

  function TableElem(s: Setting, sec: Section): Elem {
    Elem("table", [], Content([Chars("\n")] +
      (Lines("      ", [Elem("columns", [], Content(Children(ColumnElems(s, sec.cols))))]) +
      (Lines("      ", RowElems(sec.cols, sec.rows)) + [Chars("    ")]))))
  }

  /** No table is printed for a section without columns. */
  function TableElems(s: Setting, sec: Section): seq<Elem> {
    if sec.cols == [] then [] else [TableElem(s, sec)]
  }

  function SectionAttrs(sec: Section): seq<Attr> {
    [Attr("id", sec.id, true), Attr("title", sec.title, false)] +
    if sec.status == 0 then [] else [Attr("status", if sec.status == 1 then "pass" else "fail", true)]
  }

  function SectionElem(s: Setting, sec: Section): Elem {
    Elem("section", SectionAttrs(sec), Content([Chars("\n")] +
      (Lines("    ", ItemElems(s, sec.kv)) + (Lines("    ", TableElems(s, sec)) + [Chars("  ")]))))
  }

  function SectionElems(s: Setting, secs: seq<Section>): (r: seq<Elem>)
    ensures |r| == |secs|
  {
    seq(|secs|, i requires 0 <= i < |secs| => SectionElem(s, secs[i]))
  }

  const NAMESPACE := "urn:bentopdf:kura:report:1"

  function ReportAttrs(s: Setting): seq<Attr> {
    [Attr("xmlns", NAMESPACE, true), Attr("lang", s.lang, true), Attr("engine", s.engine, false),
     Attr("created", s.created, true)]
  }

  function ReportElem(s: Setting, secs: seq<Section>): Elem {
    Elem("report", ReportAttrs(s), Content([Chars("\n")] + Lines("  ", SectionElems(s, secs))))
  }

  const DECLARED := "xml version=\"1.0\" encoding=\"UTF-8\"?"
  const DECLARATION := "<?" + (DECLARED + ">")

  /** `renderXml`. */
  function Rendered(s: Setting, secs: seq<Section>): string {
    DECLARATION + ("\n" + (Print(ReportElem(s, secs)) + "\n"))
  }

  // ----- the loops of the printer -----

  lemma PrintItemsAppend(a: seq<Item>, b: seq<Item>)
    ensures PrintItems(a + b) == PrintItems(a) + PrintItems(b)
  {
    hide Print, Escape;
    if a == [] {
      assert a + b == b;
    } else {
      assert (a + b)[1..] == a[1..] + b;
      PrintItemsAppend(a[1..], b);
      match a[0]
      case Chars(t) => Assoc(Escape(t), PrintItems(a[1..]), PrintItems(b));
      case Child(e) => Assoc(Print(e), PrintItems(a[1..]), PrintItems(b));
    }
  }

  lemma {:induction false} PlainEscape(s: string)
    requires forall k | 0 <= k < |s| :: EscapeChar(s[k]) == [s[k]]
    ensures Escape(s) == s
  {
    hide EscapeChar;
    if s != "" {
      PlainEscape(s[1..]);
      assert [s[0]] + s[1..] == s;
    }
  }

  lemma LineText(indent: string, e: Elem)
    requires forall k | 0 <= k < |indent| :: indent[k] == ' '
    ensures PrintItems([Chars(indent), Child(e), Chars("\n")]) == indent + (Print(e) + "\n")
  {
    hide Print;
    PlainEscape(indent);
    PlainEscape("\n");
    var items := [Chars(indent), Child(e), Chars("\n")];
    assert items[1..] == [Child(e), Chars("\n")] && items[1..][1..] == [Chars("\n")] && items[1..][1..][1..] == [];
    assert PrintItems([]) == "";
    assert PrintItems([Chars("\n")]) == "\n" + "";
    assert PrintItems([Child(e), Chars("\n")]) == Print(e) + "\n";
  }

  lemma LinesStep(indent: string, es: seq<Elem>, i: nat, x: string)
    requires i < |es| && forall k | 0 <= k < |indent| :: indent[k] == ' '
    ensures x + PrintItems(Lines(indent, es[i..])) == (x + (indent + (Print(es[i]) + "\n"))) +
            PrintItems(Lines(indent, es[i + 1..]))
  {
    hide Print;
    assert es[i..][1..] == es[i + 1..];
    PrintItemsAppend([Chars(indent), Child(es[i]), Chars("\n")], Lines(indent, es[i + 1..]));
    LineText(indent, es[i]);
    Assoc(x, indent + (Print(es[i]) + "\n"), PrintItems(Lines(indent, es[i + 1..])));
  }

  lemma NoLines(indent: string)
    ensures PrintItems(Lines(indent, [])) == ""
  {
  }

  lemma ReportText(s: Setting, secs: seq<Section>, head: string, x: string)
    requires var e := ReportElem(s, secs);
             && head == DECLARATION + "\n" + ("<" + (e.name + AttrsText(e.attrs))) + ">" + "\n"
             && x == head + PrintItems(Lines("  ", SectionElems(s, secs))) + Closing(e.name) + "\n"
    ensures x == Rendered(s, secs)
  {
    hide AttrsText, Lines, PrintItems, Closing, SectionElems;
    var e := ReportElem(s, secs);
    var open, body, close := "<" + (e.name + AttrsText(e.attrs)), PrintItems(Lines("  ", SectionElems(s, secs))),
        Closing(e.name);
    PrintItemsAppend([Chars("\n")], Lines("  ", SectionElems(s, secs)));
    NewlineText();
    assert PrintItems(e.body.items) == "\n" + body;
    assert Print(e) == open + (">" + (("\n" + body) + close));
    assert x == (((DECLARATION + "\n" + open + ">" + "\n") + body) + close) + "\n";
  }

  lemma NewlineText()
    ensures PrintItems([Chars("\n")]) == "\n"
  {
    PlainEscape("\n");
    assert PrintItems([]) == "";
  }

  // ----- what a reader sees -----

  /** `xkids`: the children of a name. */
  function KidsNamed(kids: seq<XNode>, name: string): seq<XNode> {
    if kids == [] then []
    else (if kids[0].name == name then [kids[0]] else []) + KidsNamed(kids[1..], name)
  }

  function AttrOf(n: XNode, key: string): string {
    if key in n.attrs then n.attrs[key] else ""
  }

  datatype View = View(
    id: string, title: string, status: string, items: seq<(string, string, string)>,
    columns: seq<(string, string)>, rows: seq<seq<(string, string)>>)

  function ReadItems(ns: seq<XNode>): seq<(string, string, string)> {
    seq(|ns|, i requires 0 <= i < |ns| => (AttrOf(ns[i], "key"), AttrOf(ns[i], "label"), ns[i].text))
  }

  function ReadColumns(ns: seq<XNode>): seq<(string, string)> {
    seq(|ns|, i requires 0 <= i < |ns| => (AttrOf(ns[i], "key"), AttrOf(ns[i], "label")))
  }

  function ReadCells(ns: seq<XNode>): seq<(string, string)> {
    seq(|ns|, i requires 0 <= i < |ns| => (AttrOf(ns[i], "key"), ns[i].text))
  }

  function ReadRows(ns: seq<XNode>): seq<seq<(string, string)>> {
    seq(|ns|, i requires 0 <= i < |ns| => ReadCells(KidsNamed(ns[i].kids, "cell")))
  }

  function ReadSection(n: XNode): View {
    var tables := KidsNamed(n.kids, "table");
    var columns := if tables == [] then [] else KidsNamed(tables[0].kids, "columns");
    View(AttrOf(n, "id"), AttrOf(n, "title"), AttrOf(n, "status"), ReadItems(KidsNamed(n.kids, "item")),
         if columns == [] then [] else ReadColumns(KidsNamed(columns[0].kids, "column")),
         if tables == [] then [] else ReadRows(KidsNamed(tables[0].kids, "row")))
  }

  /** The sections of a parsed document, in order. */
  function ReadReport(root: XNode): seq<View> {
    var reports := KidsNamed(root.kids, "report");
    if reports == [] then []
    else
      var ns := KidsNamed(reports[0].kids, "section");
      seq(|ns|, i requires 0 <= i < |ns| => ReadSection(ns[i]))
  }

  function ItemViews(s: Setting, kv: seq<(string, string)>): seq<(string, string, string)> {
    seq(|kv|, i requires 0 <= i < |kv| => (kv[i].0, Label(s.tr, kv[i].0), kv[i].1))
  }

  /** What the section said. */
  function ViewOf(s: Setting, sec: Section): View {
    View(sec.id, sec.title, if sec.status == 0 then "" else if sec.status == 1 then "pass" else "fail",
         ItemViews(s, sec.kv),
         seq(|sec.cols|, i requires 0 <= i < |sec.cols| => (sec.cols[i], s.tr(sec.cols[i]))),
         if sec.cols == [] then []
         else seq(|sec.rows|, r requires 0 <= r < |sec.rows| => CellsOf(sec.cols, sec.rows[r])))
  }

  /** What a reader finds: ids and keys, which are printed raw, are unescaped all the same. */
  function ViewRead(s: Setting, sec: Section): View {
    View(Unescape(sec.id), sec.title, if sec.status == 0 then "" else if sec.status == 1 then "pass" else "fail",
         ItemViews(s, sec.kv),
         seq(|sec.cols|, i requires 0 <= i < |sec.cols| => (Unescape(sec.cols[i]), s.tr(sec.cols[i]))),
         if sec.cols == [] then []
         else seq(|sec.rows|, r requires 0 <= r < |sec.rows| => CellsRead(sec.cols, sec.rows[r])))
  }

  function Views(s: Setting, secs: seq<Section>): (r: seq<View>)
    ensures |r| == |secs| && forall i | 0 <= i < |secs| :: r[i] == ViewOf(s, secs[i])
  {
    seq(|secs|, i requires 0 <= i < |secs| => ViewOf(s, secs[i]))
  }

  function ViewsRead(s: Setting, secs: seq<Section>): (r: seq<View>)
    ensures |r| == |secs| && forall i | 0 <= i < |secs| :: r[i] == ViewRead(s, secs[i])
  {
    seq(|secs|, i requires 0 <= i < |secs| => ViewRead(s, secs[i]))
  }

  function CellsRead(cols: seq<string>, row: seq<string>): seq<(string, string)> {
    seq(CellCount(cols, row), i requires 0 <= i < CellCount(cols, row) => (Unescape(cols[i]), row[i]))
  }

  function CellsOf(cols: seq<string>, row: seq<string>): seq<(string, string)> {
    seq(CellCount(cols, row), i requires 0 <= i < CellCount(cols, row) => (cols[i], row[i]))
  }

  // ----- children of printed elements -----

  function Nodes(es: seq<Elem>): (r: seq<XNode>)
    ensures |r| == |es|
  {
    seq(|es|, i requires 0 <= i < |es| => NodeOf(es[i]))
  }

  lemma {:induction false} KidsAppend(a: seq<Item>, b: seq<Item>)
    ensures KidsOf(a + b) == KidsOf(a) + KidsOf(b)
  {
    hide NodeOf;
    if a == [] {
      assert a + b == b;
    } else {
      assert (a + b)[1..] == a[1..] + b;
      KidsAppend(a[1..], b);
    }
  }

  lemma {:induction false} KidsOfLines(indent: string, es: seq<Elem>)
    ensures KidsOf(Lines(indent, es)) == Nodes(es)
  {
    hide NodeOf;
    if es != [] {
      KidsOfLines(indent, es[1..]);
      var line := [Chars(indent), Child(es[0]), Chars("\n")];
      KidsAppend(line, Lines(indent, es[1..]));
      assert line[1..] == [Child(es[0]), Chars("\n")] && line[1..][1..] == [Chars("\n")] && line[1..][1..][1..] == [];
      assert KidsOf([Chars("\n")]) == KidsOf([]) == [];
      assert KidsOf(line) == [NodeOf(es[0])];
    }
  }

  lemma {:induction false} KidsOfChildren(es: seq<Elem>)
    ensures KidsOf(Children(es)) == Nodes(es)
  {
    hide NodeOf;
    if es != [] {
      KidsOfChildren(es[1..]);
      assert ([Child(es[0])] + Children(es[1..]))[1..] == Children(es[1..]);
    }
  }

  lemma KidsOfBlock(i1: string, es: seq<Elem>, i2: string, fs: seq<Elem>, end: string)
    ensures KidsOf([Chars("\n")] + (Lines(i1, es) + (Lines(i2, fs) + [Chars(end)]))) == Nodes(es) + Nodes(fs)
  {
    hide NodeOf, Lines;
    var tail := Lines(i2, fs) + [Chars(end)];
    KidsAppend([Chars("\n")], Lines(i1, es) + tail);
    KidsAppend(Lines(i1, es), tail);
    KidsAppend(Lines(i2, fs), [Chars(end)]);
    KidsOfLines(i1, es);
    KidsOfLines(i2, fs);
    assert KidsOf([Chars("\n")]) == KidsOf([]) == [] && KidsOf([Chars(end)]) == KidsOf([]);
  }

  lemma {:induction false} NamedAppend(a: seq<XNode>, b: seq<XNode>, name: string)
    ensures KidsNamed(a + b, name) == KidsNamed(a, name) + KidsNamed(b, name)
  {
    if a == [] {
      assert a + b == b;
    } else {
      assert (a + b)[1..] == a[1..] + b && (a + b)[0] == a[0];
      NamedAppend(a[1..], b, name);
      Assoc(if a[0].name == name then [a[0]] else [], KidsNamed(a[1..], name), KidsNamed(b, name));
    }
  }

  lemma {:induction false} AllNamed(ns: seq<XNode>, name: string)
    requires forall i | 0 <= i < |ns| :: ns[i].name == name
    ensures KidsNamed(ns, name) == ns
  {
    if ns != [] {
      AllNamed(ns[1..], name);
    }
  }

  lemma {:induction false} NoneNamed(ns: seq<XNode>, name: string)
    requires forall i | 0 <= i < |ns| :: ns[i].name != name
    ensures KidsNamed(ns, name) == []
  {
    if ns != [] {
      NoneNamed(ns[1..], name);
    }
  }

  /** The nodes of elements that all bear one name are found by that name and by no other. */
  lemma NodesNamed(es: seq<Elem>, name: string, other: string)
    requires name != other && forall i | 0 <= i < |es| :: es[i].name == name
    ensures KidsNamed(Nodes(es), name) == Nodes(es) && KidsNamed(Nodes(es), other) == []
  {
    hide KidsNamed;
    AllNamed(Nodes(es), name);
    NoneNamed(Nodes(es), other);
  }

  // ----- reading back -----

  lemma ItemsBack(s: Setting, kv: seq<(string, string)>)
    ensures ReadItems(Nodes(ItemElems(s, kv))) ==
            seq(|kv|, i requires 0 <= i < |kv| => (kv[i].0, Label(s.tr, kv[i].0), kv[i].1))
  {
    hide Label;
    forall i | 0 <= i < |kv|
      ensures ReadItems(Nodes(ItemElems(s, kv)))[i] == (kv[i].0, Label(s.tr, kv[i].0), kv[i].1)
    {
      TwoAttrs(Attr("key", kv[i].0, false), Attr("label", Label(s.tr, kv[i].0), false));
      OneText(kv[i].1);
    }
  }

  lemma AttrMapCons(m: map<string, string>, a: Attr, rest: seq<Attr>)
    ensures AttrMap(m, [a] + rest) == AttrMap(m[a.name := ReadAs(a)], rest)
  {
    assert ([a] + rest)[1..] == rest;
  }

  lemma AttrMapOne(m: map<string, string>, a: Attr)
    ensures AttrMap(m, [a]) == m[a.name := ReadAs(a)]
  {
    assert [a] == [a] + [];
    AttrMapCons(m, a, []);
  }

  lemma TwoAttrs(a: Attr, b: Attr)
    ensures AttrMap(map[], [a, b]) == map[a.name := ReadAs(a)][b.name := ReadAs(b)]
  {
    hide AttrMap;
    assert [a, b] == [a] + [b];
    AttrMapCons(map[], a, [b]);
    AttrMapOne(map[a.name := ReadAs(a)], b);
  }

  lemma OneText(t: string)
    ensures TextOf([Chars(t)]) == t
  {
    assert [Chars(t)][1..] == [] && t + "" == t;
  }

  lemma ColumnsBack(s: Setting, cols: seq<string>)
    ensures ReadColumns(Nodes(ColumnElems(s, cols))) ==
            seq(|cols|, i requires 0 <= i < |cols| => (Unescape(cols[i]), s.tr(cols[i])))
  {
    forall i | 0 <= i < |cols|
      ensures ReadColumns(Nodes(ColumnElems(s, cols)))[i] == (Unescape(cols[i]), s.tr(cols[i]))
    {
      TwoAttrs(Attr("key", cols[i], true), Attr("label", s.tr(cols[i]), false));
    }
  }

  lemma CellsBack(cols: seq<string>, row: seq<string>)
    ensures ReadCells(KidsNamed(NodeOf(RowElem(cols, row)).kids, "cell")) == CellsRead(cols, row)
  {
    var es := CellElems(cols, row);
    KidsOfChildren(es);
    NodesNamed(es, "cell", "row");
    forall i | 0 <= i < |es|
      ensures ReadCells(Nodes(es))[i] == (Unescape(cols[i]), row[i])
    {
      OneText(row[i]);
      AttrMapOne(map[], Attr("key", cols[i], true));
    }
  }

  lemma RowsBack(sec: Section)
    ensures ReadRows(Nodes(RowElems(sec.cols, sec.rows))) ==
            seq(|sec.rows|, r requires 0 <= r < |sec.rows| => CellsRead(sec.cols, sec.rows[r]))
  {
    hide RowElem, NodeOf, ReadCells;
    forall r | 0 <= r < |sec.rows|
      ensures ReadRows(Nodes(RowElems(sec.cols, sec.rows)))[r] == CellsRead(sec.cols, sec.rows[r])
    {
      CellsBack(sec.cols, sec.rows[r]);
    }
  }

  function ColumnsElem(s: Setting, cols: seq<string>): Elem {
    Elem("columns", [], Content(Children(ColumnElems(s, cols))))
  }

  lemma TableKids(s: Setting, sec: Section)
    ensures var kids := NodeOf(TableElem(s, sec)).kids;
            && KidsNamed(kids, "columns") == [NodeOf(ColumnsElem(s, sec.cols))]
            && KidsNamed(kids, "row") == Nodes(RowElems(sec.cols, sec.rows))
    ensures NodeOf(ColumnsElem(s, sec.cols)).kids == Nodes(ColumnElems(s, sec.cols))
    ensures KidsNamed(Nodes(ColumnElems(s, sec.cols)), "column") == Nodes(ColumnElems(s, sec.cols))
  {
    hide KidsNamed, Lines, RowElem;
    var columns, rows := ColumnsElem(s, sec.cols), RowElems(sec.cols, sec.rows);
    assert forall i | 0 <= i < |rows| :: rows[i].name == "row" by {
      forall i | 0 <= i < |rows| ensures rows[i].name == "row" {
        RowName(sec.cols, sec.rows[i]);
      }
    }
    KidsOfBlock("      ", [columns], "      ", rows, "    ");
    NamedAppend(Nodes([columns]), Nodes(rows), "columns");
    NamedAppend(Nodes([columns]), Nodes(rows), "row");
    NodesNamed([columns], "columns", "row");
    NodesNamed(rows, "row", "columns");
    KidsOfChildren(ColumnElems(s, sec.cols));
    NodesNamed(ColumnElems(s, sec.cols), "column", "row");
    assert Nodes([columns]) == [NodeOf(columns)];
    assert [NodeOf(columns)] + [] == [NodeOf(columns)];
  }

  lemma RowName(cols: seq<string>, row: seq<string>)
    ensures RowElem(cols, row).name == "row"
  {
  }

  lemma SectionKids(s: Setting, sec: Section)
    ensures var kids := NodeOf(SectionElem(s, sec)).kids;
            && KidsNamed(kids, "item") == Nodes(ItemElems(s, sec.kv))
            && KidsNamed(kids, "table") == Nodes(TableElems(s, sec))
  {
    hide KidsNamed, Lines, SectionAttrs, Label;
    var items, tables := ItemElems(s, sec.kv), TableElems(s, sec);
    KidsOfBlock("    ", items, "    ", tables, "  ");
    NamedAppend(Nodes(items), Nodes(tables), "item");
    NamedAppend(Nodes(items), Nodes(tables), "table");
    NodesNamed(items, "item", "table");
    NodesNamed(tables, "table", "item");
  }

  lemma SectionAttrsBack(s: Setting, sec: Section)
    ensures var n := NodeOf(SectionElem(s, sec));
            && AttrOf(n, "id") == Unescape(sec.id) && AttrOf(n, "title") == sec.title
            && AttrOf(n, "status") == if sec.status == 0 then "" else if sec.status == 1 then "pass" else "fail"
  {
    hide Lines, ItemElems, TableElems, AttrMap, Unescape;
    StatusPlain();
    var a, b := Attr("id", sec.id, true), Attr("title", sec.title, false);
    if sec.status == 0 {
      assert SectionAttrs(sec) == [a, b];
      TwoAttrs(a, b);
    } else {
      var c := Attr("status", if sec.status == 1 then "pass" else "fail", true);
      assert SectionAttrs(sec) == [a] + ([b] + [c]);
      AttrMapCons(map[], a, [b] + [c]);
      AttrMapCons(map[a.name := ReadAs(a)], b, [c]);
      AttrMapOne(map[a.name := ReadAs(a)][b.name := ReadAs(b)], c);
    }
  }

  lemma StatusPlain()
    ensures Unescape("pass") == "pass" && Unescape("fail") == "fail"
  {
    hide Unescape, Find, EntityCode;
    UnescapesToItselfIff("pass");
    UnescapesToItselfIff("fail");
  }

  /** A printed section is read back, its id and its keys unescaped. */
  lemma SectionBack(s: Setting, sec: Section)
    ensures ReadSection(NodeOf(SectionElem(s, sec))) == ViewRead(s, sec)
  {
    hide NodeOf, SectionElem, AttrOf, KidsNamed, ItemElems, RowElems, ColumnElems, ReadItems, ReadColumns, ReadRows,
        TableElem, Label;
    SectionAttrsBack(s, sec);
    SectionKids(s, sec);
    ItemsBack(s, sec.kv);
    if sec.cols != [] {
      TableKids(s, sec);
      ColumnsBack(s, sec.cols);
      RowsBack(sec);
    }
  }

  // ----- admissible reports -----

  predicate Plain(s: string) {
    '"' !in s
  }

  /** What the printer does not escape holds no quote: the language, the time, section ids and
      column keys. */
  predicate RawFieldsPlain(s: Setting, secs: seq<Section>) {
    && Plain(s.lang) && Plain(s.created)
    && forall k | 0 <= k < |secs| :: Plain(secs[k].id) && forall c | 0 <= c < |secs[k].cols| :: Plain(secs[k].cols[c])
  }

  lemma {:induction false} ItemsFitAppend(a: seq<Item>, b: seq<Item>, h: nat)
    requires ItemsFit(a, h) && ItemsFit(b, h)
    ensures ItemsFit(a + b, h)
  {
    hide Fits;
    if a == [] {
      assert a + b == b;
    } else {
      assert (a + b)[1..] == a[1..] + b;
      ItemsFitAppend(a[1..], b, h);
    }
  }

  lemma TextFits(t: string, h: nat)
    ensures ItemsFit([Chars(t)], h)
  {
    assert [Chars(t)][1..] == [] && ItemsFit([], h);
  }

  lemma {:induction false} LinesFit(indent: string, es: seq<Elem>, h: nat)
    requires forall i | 0 <= i < |es| :: Fits(es[i], h)
    ensures ItemsFit(Lines(indent, es), h)
  {
    hide Fits;
    if es != [] {
      LinesFit(indent, es[1..], h);
      var line := [Chars(indent), Child(es[0]), Chars("\n")];
      assert line[1..] == [Child(es[0]), Chars("\n")] && line[1..][1..] == [Chars("\n")];
      TextFits("\n", h);
      assert ItemsFit(line[1..], h);
      ItemsFitAppend(line, Lines(indent, es[1..]), h);
    }
  }

  lemma {:induction false} ChildrenFit(es: seq<Elem>, h: nat)
    requires forall i | 0 <= i < |es| :: Fits(es[i], h)
    ensures ItemsFit(Children(es), h)
  {
    hide Fits;
    if es != [] {
      ChildrenFit(es[1..], h);
      assert ([Child(es[0])] + Children(es[1..]))[1..] == Children(es[1..]);
    }
  }

  lemma BlockFits(i1: string, es: seq<Elem>, i2: string, fs: seq<Elem>, end: string, h: nat)
    requires forall i | 0 <= i < |es| :: Fits(es[i], h)
    requires forall i | 0 <= i < |fs| :: Fits(fs[i], h)
    ensures ItemsFit([Chars("\n")] + (Lines(i1, es) + (Lines(i2, fs) + [Chars(end)])), h)
  {
    hide Fits, Lines, ItemsFit;
    LinesFit(i1, es, h);
    LinesFit(i2, fs, h);
    TextFits("\n", h);
    TextFits(end, h);
    ItemsFitAppend(Lines(i2, fs), [Chars(end)], h);
    ItemsFitAppend(Lines(i1, es), Lines(i2, fs) + [Chars(end)], h);
    ItemsFitAppend([Chars("\n")], Lines(i1, es) + (Lines(i2, fs) + [Chars(end)]), h);
  }

  lemma LeavesFit(s: Setting, sec: Section, h: nat)
    requires h >= 1 && forall c | 0 <= c < |sec.cols| :: Plain(sec.cols[c])
    ensures forall i | 0 <= i < |sec.kv| :: Fits(ItemElem(s, sec.kv[i]), h)
    ensures forall i | 0 <= i < |sec.cols| :: Fits(ColumnElem(s, sec.cols[i]), h)
    ensures forall r, i | 0 <= r < |sec.rows| && 0 <= i < CellCount(sec.cols, sec.rows[r]) ::
              Fits(CellElem(sec.cols[i], sec.rows[r][i]), h)
  {
    hide Label, ItemsFit;
    forall t: string ensures ItemsFit([Chars(t)], h - 1) {
      TextFits(t, h - 1);
    }
  }

  lemma TableFits(s: Setting, sec: Section, h: nat)
    requires h >= 1 && forall c | 0 <= c < |sec.cols| :: Plain(sec.cols[c])
    ensures Fits(TableElem(s, sec), h + 2)
  {
    hide Lines, ItemsFit, ItemElem, ColumnElem, CellElem;
    LeavesFit(s, sec, h);
    ChildrenFit(ColumnElems(s, sec.cols), h);
    assert Fits(ColumnsElem(s, sec.cols), h + 1);
    forall r | 0 <= r < |sec.rows|
      ensures Fits(RowElem(sec.cols, sec.rows[r]), h + 1)
    {
      ChildrenFit(CellElems(sec.cols, sec.rows[r]), h);
    }
    BlockFits("      ", [ColumnsElem(s, sec.cols)], "      ", RowElems(sec.cols, sec.rows), "    ", h + 1);
  }

  lemma SectionFits(s: Setting, sec: Section, h: nat)
    requires h >= 1 && Plain(sec.id) && forall c | 0 <= c < |sec.cols| :: Plain(sec.cols[c])
    ensures Fits(SectionElem(s, sec), h + 3)
  {
    SectionAttrsOk(sec);
    SectionNamed();
    hide Lines, ItemsFit, ItemElem, TableElem, SectionAttrs, AttrsOk, IsName, Label;
    SectionKidsFit(s, sec, h);
    BlockFits("    ", ItemElems(s, sec.kv), "    ", TableElems(s, sec), "  ", h + 2);
  }

  lemma SectionKidsFit(s: Setting, sec: Section, h: nat)
    requires h >= 1 && forall c | 0 <= c < |sec.cols| :: Plain(sec.cols[c])
    ensures forall i | 0 <= i < |ItemElems(s, sec.kv)| :: Fits(ItemElems(s, sec.kv)[i], h + 2)
    ensures forall i | 0 <= i < |TableElems(s, sec)| :: Fits(TableElems(s, sec)[i], h + 2)
  {
    hide Fits, ItemElem, TableElem;
    LeavesFit(s, sec, h + 2);
    TableFits(s, sec, h);
  }

  lemma SectionNamed()
    ensures IsName("section")
  {
  }

  lemma SectionAttrsOk(sec: Section)
    requires Plain(sec.id)
    ensures AttrsOk(SectionAttrs(sec))
  {
    hide IsName;
    AttrNames();
  }

  lemma ReportFits(s: Setting, secs: seq<Section>)
    requires RawFieldsPlain(s, secs)
    ensures Fits(ReportElem(s, secs), MAX_DEPTH)
  {
    hide Lines, ItemsFit, SectionElem, ReportAttrs, AttrsOk, IsName;
    forall k | 0 <= k < |secs|
      ensures Fits(SectionElem(s, secs[k]), MAX_DEPTH - 1)
    {
      SectionFits(s, secs[k], MAX_DEPTH - 4);
    }
    LinesFit("  ", SectionElems(s, secs), MAX_DEPTH - 1);
    TextFits("\n", MAX_DEPTH - 1);
    ItemsFitAppend([Chars("\n")], Lines("  ", SectionElems(s, secs)), MAX_DEPTH - 1);
    ReportAttrsOk(s);
    ReportName();
  }

  lemma ReportAttrsOk(s: Setting)
    requires Plain(s.lang) && Plain(s.created)
    ensures AttrsOk(ReportAttrs(s))
  {
    AttrNames();
    assert Plain(NAMESPACE);
  }

  lemma AttrNames()
    ensures IsName("xmlns") && IsName("lang") && IsName("engine") && IsName("created")
    ensures IsName("id") && IsName("title") && IsName("status")
  {
  }

  lemma ReportName()
    ensures IsName("report")
  {
  }

  // ----- the whole document -----

  lemma DeclarationRead(x: string, node: XNode)
    requires At(x, 0, DECLARATION)
    ensures Loop(x, 0, node, 0) == Loop(x, |DECLARATION|, WithText(WithText(node, ""), ""), 0)
  {
    hide At, Element, Loop;
    var d := DECLARATION;
    AtChars(x, 0, d);
    AtSplit(x, 0, "<?", d[2..]);
    assert d == "<?" + d[2..];
    SecondChar(x, 0, d, "<!--");
    SecondChar(x, 0, d, "<![CDATA[");
    var last := |d| - 1;
    assert x[last] == d[last] == '>';
    NoEarlyEnd();
    assert forall k | 2 <= k < last :: d[k] == DECLARED[k - 2];
    FindIs(x, 0, last, '>');
    StartsAtOnce(x, node);
  }

  lemma NoEarlyEnd()
    ensures '>' !in DECLARED
  {
  }

  lemma StartsAtOnce(x: string, node: XNode)
    requires x != "" && x[0] == '<'
    ensures Loop(x, 0, node, 0) == Dispatch(x, 0, WithText(node, ""), 0)
  {
    FindIs(x, 0, 0, '<');
    assert x[0..0] == "";
  }

  lemma DocumentEnd(x: string, i: nat, node: XNode)
    requires i <= |x| && forall k | i <= k < |x| :: x[k] != '<'
    ensures Loop(x, i, node, 0) == Parsed(true, i, node)
  {
  }

  /** For every list of sections, whatever their titles, labels and values: the parser accepts the
      rendered text and finds the printed tree as the only element of the document. */
  lemma RenderedParses(s: Setting, secs: seq<Section>)
    requires RawFieldsPlain(s, secs)
    ensures var r := Parse(Rendered(s, secs), 0, EMPTY_NODE, 0);
            r.ok && r.node.kids == [NodeOf(ReportElem(s, secs))]
  {
    hide Loop, Element, Print, ReportElem, NodeOf, DECLARATION, RawFieldsPlain, At, IsMarkup;
    var x, e := Rendered(s, secs), ReportElem(s, secs);
    var d := |DECLARATION|;
    WholeText(x);
    AtSplit(x, 0, DECLARATION, "\n" + (Print(e) + "\n"));
    AtSplit(x, d, "\n", Print(e) + "\n");
    AtSplit(x, d + 1, Print(e), "\n");
    DeclarationRead(x, EMPTY_NODE);
    ReportFits(s, secs);
    ElementRead(x, d + 1, e, 0);
    var node := WithText(WithText(EMPTY_NODE, ""), "");
    PlainEscape("\n");
    LoopText(x, d, "\n", node, 0);
    var end := d + 1 + |Print(e)|;
    AtChars(x, end, "\n");
    DocumentEnd(x, end, AddKid(WithText(node, "\n"), NodeOf(e)));
  }

  lemma WholeText(x: string)
    ensures At(x, 0, x)
  {
  }

  /** The sections, items, columns, rows and cells that are read from the rendered text are the ones
      that were printed, in order, with raw fields unescaped. */
  lemma ReportRead(s: Setting, secs: seq<Section>)
    requires RawFieldsPlain(s, secs)
    ensures var r := Parse(Rendered(s, secs), 0, EMPTY_NODE, 0);
            r.ok && ReadReport(r.node) == ViewsRead(s, secs)
  {
    hide Parse, Rendered, ReadReport, RawFieldsPlain, ReportElem;
    RenderedParses(s, secs);
    ReportNodeRead(s, secs, Parse(Rendered(s, secs), 0, EMPTY_NODE, 0).node);
  }

  /** Reading the root above the node of a report. */
  lemma ReportNodeRead(s: Setting, secs: seq<Section>, root: XNode)
    requires root.kids == [NodeOf(ReportElem(s, secs))]
    ensures ReadReport(root) == ViewsRead(s, secs)
  {
    hide KidsNamed, Lines, ReadSection, ViewRead, SectionElem, NodeOf;
    var e, es := ReportElem(s, secs), SectionElems(s, secs);
    ReportKids(s, secs);
    forall i | 0 <= i < |es|
      ensures es[i].name == "section" && ReadSection(NodeOf(es[i])) == ViewRead(s, secs[i])
    {
      SectionName(s, secs[i]);
      SectionBack(s, secs[i]);
    }
    NodesNamed(es, "section", "report");
    NodeName(e);
    AllNamed([NodeOf(e)], "report");
  }

  lemma NodeName(e: Elem)
    ensures NodeOf(e).name == e.name
  {
  }

  lemma ReportKids(s: Setting, secs: seq<Section>)
    ensures NodeOf(ReportElem(s, secs)).kids == Nodes(SectionElems(s, secs))
  {
    hide Lines, SectionElem;
    var es := SectionElems(s, secs);
    KidsAppend([Chars("\n")], Lines("  ", es));
    KidsOfLines("  ", es);
    assert KidsOf([Chars("\n")]) == KidsOf([]) == [];
  }

  /** No raw field of the section that a reader sees holds an entity. */
  predicate NoEntities(sec: Section) {
    NoEntity(sec.id) && forall c | 0 <= c < |sec.cols| :: NoEntity(sec.cols[c])
  }

  lemma SameView(s: Setting, sec: Section)
    requires NoEntities(sec)
    ensures ViewRead(s, sec) == ViewOf(s, sec)
  {
    hide Unescape, NoEntity, Label;
    UnescapesToItselfIff(sec.id);
    forall c | 0 <= c < |sec.cols|
      ensures Unescape(sec.cols[c]) == sec.cols[c]
    {
      UnescapesToItselfIff(sec.cols[c]);
    }
    var a, b := ViewRead(s, sec), ViewOf(s, sec);
    assert a.columns == b.columns;
    forall r | 0 <= r < |sec.rows|
      ensures CellsRead(sec.cols, sec.rows[r]) == CellsOf(sec.cols, sec.rows[r])
    {
    }
    assert a.rows == b.rows;
  }

  lemma ViewSameIff(s: Setting, sec: Section)
    ensures ViewRead(s, sec) == ViewOf(s, sec) <==> NoEntities(sec)
  {
    hide Unescape, NoEntity, Label, CellsRead, CellsOf;
    if NoEntities(sec) {
      SameView(s, sec);
    }
    var a, b := ViewRead(s, sec), ViewOf(s, sec);
    if a == b {
      UnescapesToItselfIff(sec.id);
      forall c | 0 <= c < |sec.cols|
        ensures NoEntity(sec.cols[c])
      {
        UnescapesToItselfIff(sec.cols[c]);
        assert a.columns[c].0 == Unescape(sec.cols[c]) && b.columns[c].0 == sec.cols[c];
      }
    }
  }

  /** The parser undoes the printer if and only if no section id and no column key, which are printed
      without escaping, holds an entity. Titles, labels and values are arbitrary. */
  lemma ReportRoundTripIff(s: Setting, secs: seq<Section>)
    requires RawFieldsPlain(s, secs)
    ensures var r := Parse(Rendered(s, secs), 0, EMPTY_NODE, 0);
            && r.ok
            && (ReadReport(r.node) == Views(s, secs) <==>
                forall k | 0 <= k < |secs| :: NoEntities(secs[k]))
  {
    hide Parse, Rendered, ViewRead, ViewOf, Views, ViewsRead, RawFieldsPlain, NoEntities, ReadReport;
    ReportRead(s, secs);
    var found, meant := ViewsRead(s, secs), Views(s, secs);
    forall k | 0 <= k < |secs|
      ensures found[k] == meant[k] <==> NoEntities(secs[k])
    {
      ViewSameIff(s, secs[k]);
    }
    assert found == meant <==> forall k | 0 <= k < |secs| :: found[k] == meant[k];
  }

  lemma SectionName(s: Setting, sec: Section)
    ensures SectionElem(s, sec).name == "section"
  {
  }

  // ----- labels and the report's own tag -----

  /** A key with a colon is labelled by both of its parts, up to the first colon. */
  lemma LabelIs(tr: string -> string, a: string, b: string)
    requires ':' !in a
    ensures Label(tr, a) == tr(a) && Label(tr, a + ":" + b) == tr(a) + " - " + tr(b)
  {
    var key := a + ":" + b;
    assert forall k | 0 <= k < |a| :: key[k] == a[k] && a[k] != ':';
    FindIs(key, 0, |a|, ':');
    assert key[..|a|] == a && key[|a| + 1..] == b;
  }

  /** What a reader finds in the tag of the report. */
  lemma ReportTagRead(s: Setting, secs: seq<Section>)
    requires RawFieldsPlain(s, secs)
    ensures var r := Parse(Rendered(s, secs), 0, EMPTY_NODE, 0);
            && r.ok && |r.node.kids| == 1 && r.node.kids[0].name == "report"
            && r.node.kids[0].attrs ==
               map["xmlns" := Unescape("urn:bentopdf:kura:report:1"), "lang" := Unescape(s.lang),
                   "engine" := s.engine, "created" := Unescape(s.created)]
  {
    hide Unescape, RawFieldsPlain, Parse, Rendered, Lines, SectionElems;
    RenderedParses(s, secs);
    ReportAttributes(s);
  }

  lemma ReportAttributes(s: Setting)
    ensures AttrMap(map[], ReportAttrs(s)) ==
            map["xmlns" := Unescape("urn:bentopdf:kura:report:1"), "lang" := Unescape(s.lang),
                "engine" := s.engine, "created" := Unescape(s.created)]
  {
    hide Unescape;
    var all := ReportAttrs(s);
    var m := map["xmlns" := Unescape(NAMESPACE)];
    var m' := m["lang" := Unescape(s.lang)];
    var m'' := m'["engine" := s.engine];
    assert all[1..][1..] == all[2..] && all[2..][1..] == all[3..] && all[3..][1..] == [];
    assert AttrMap(m''["created" := Unescape(s.created)], []) == m''["created" := Unescape(s.created)];
    assert AttrMap(m'', all[3..]) == m''["created" := Unescape(s.created)];
    assert AttrMap(m', all[2..]) == AttrMap(m'', all[3..]);
    assert AttrMap(m, all[1..]) == AttrMap(m', all[2..]);
  }

  /** The first line of every report, and the one element behind it. */
  lemma DeclarationFirst(s: Setting, secs: seq<Section>)
    ensures Rendered(s, secs) ==
            ("<?" + ("xml version=\"1.0\" encoding=\"UTF-8\"?" + ">")) + ("\n" + (Print(ReportElem(s, secs)) + "\n"))
  {
    hide Print, ReportElem;
  }
}
