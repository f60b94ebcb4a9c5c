/** The text of a report, written piece by piece as the program does. */
module XmlRender {
  import opened XmlParser
  import opened XmlRoundTrip
  import opened XmlReport
  import opened Concatenation

  /** An attribute with the text before its value. */
  lemma AttrIs(a: Attr, open: string)
    requires open == " " + (a.name + "=\"")
    ensures AttrText(a) == open + (Shown(a) + "\"")
  {
    hide Shown;
    assert (" " + a.name + "=") + "\"" == open;
    Assoc(" " + a.name + "=", "\"", Shown(a) + "\"");
  }

  lemma AttrsOne(a: Attr)
    ensures AttrsText([a]) == AttrText(a)
  {
    hide AttrText;
    assert [a][1..] == [] && AttrText(a) + "" == AttrText(a);
  }

  lemma AttrsTwo(a: Attr, b: Attr)
    ensures AttrsText([a, b]) == AttrText(a) + AttrText(b)
  {
    hide AttrText;
    assert [a, b][1..] == [b];
    AttrsOne(b);
  }

  lemma OneText(t: string)
    ensures PrintItems([Chars(t)]) == Escape(t)
  {
    hide Escape;
    assert [Chars(t)][1..] == [] && PrintItems([]) == "";
    assert Escape(t) + "" == Escape(t);
  }

  // ----- re-association, on pieces without structure -----

  /** A tag with two attributes and what follows it. */
  lemma TagTwo(o: string, n: string, a: string, k: string, b: string, l: string, c: string, rest: string)
    ensures (o + (n + ((a + (k + b)) + (c + (l + b))))) + rest == (o + n + a) + (k + ((b + c) + (l + (b + rest))))
  {
    Assoc(o, n + ((a + (k + b)) + (c + (l + b))), rest);
    Assoc(n, (a + (k + b)) + (c + (l + b)), rest);
    Assoc(a + (k + b), c + (l + b), rest);
    Assoc(a, k + b, (c + (l + b)) + rest);
    Assoc(k, b, (c + (l + b)) + rest);
    Assoc(c, l + b, rest);
    Assoc(l, b, rest);
    Assoc(b, c, l + (b + rest));
    Assoc(o, n, a + (k + (b + (c + (l + (b + rest))))));
    Assoc(o + n, a, k + (b + (c + (l + (b + rest)))));
  }

  /** A tag with one attribute and what follows it. */
  lemma TagOne(o: string, n: string, a: string, k: string, b: string, rest: string)
    ensures (o + (n + (a + (k + b)))) + rest == (o + n + a) + (k + (b + rest))
  {
    Assoc(o, n + (a + (k + b)), rest);
    Assoc(n, a + (k + b), rest);
    Assoc(a, k + b, rest);
    Assoc(k, b, rest);
    Assoc(o, n, a + (k + (b + rest)));
    Assoc(o + n, a, k + (b + rest));
  }

  // ----- the pieces of a section -----

  function ItemPiece(s: Setting, kv: (string, string)): string {
    "    <item key=\"" + (Escape(kv.0) + ("\" label=\"" + (Escape(Label(s.tr, kv.0)) +
    ("\">" + (Escape(kv.1) + "</item>\n")))))
  }

  lemma KeyAndLabel(key: string, raw: bool, name: string)
    ensures AttrsText([Attr("key", key, raw), Attr("label", name, false)]) ==
            (" key=\"" + ((if raw then key else Escape(key)) + "\"")) + (" label=\"" + (Escape(name) + "\""))
  {
    hide Escape, AttrText, AttrsText;
    AttrsTwo(Attr("key", key, raw), Attr("label", name, false));
    AttrIs(Attr("key", key, raw), " key=\"");
    AttrIs(Attr("label", name, false), " label=\"");
  }

  lemma ItemText(s: Setting, kv: (string, string))
    ensures "    " + (Print(ItemElem(s, kv)) + "\n") == ItemPiece(s, kv)
  {
    hide Escape, Label, AttrText, AttrsText, PrintItems;
    var k, l, v := Escape(kv.0), Escape(Label(s.tr, kv.0)), Escape(kv.1);
    KeyAndLabel(kv.0, false, Label(s.tr, kv.0));
    OneText(kv.1);
    ItemClosing();
    Tagged("item", k, l, ">" + (v + "</item>"));
    ItemLine(k, l, v);
  }

  lemma ItemClosing()
    ensures Closing("item") == "</item>" && Closing("cell") == "</cell>" && Closing("row") == "</row>"
  {
  }

  lemma Tagged(name: string, k: string, l: string, rest: string)
    ensures ("<" + (name + ((" key=\"" + (k + "\"")) + (" label=\"" + (l + "\""))))) + rest ==
            ("<" + name + " key=\"") + (k + ("\" label=\"" + (l + ("\"" + rest))))
  {
    TagTwo("<", name, " key=\"", k, "\"", l, " label=\"", rest);
    assert "\"" + " label=\"" == "\" label=\"";
  }

  lemma ItemLine(k: string, l: string, v: string)
    ensures "    " + ((("<" + "item" + " key=\"") + (k + ("\" label=\"" + (l + ("\"" + (">" + (v + "</item>"))))))) +
            "\n") ==
            "    <item key=\"" + (k + ("\" label=\"" + (l + ("\">" + (v + "</item>\n")))))
  {
    var open := "<" + "item" + " key=\"";
    assert "    " + open == "    <item key=\"";
    Assoc("\"", ">", v + "</item>");
    assert "\"" + ">" == "\">";
    Assoc(open, k + ("\" label=\"" + (l + ("\">" + (v + "</item>")))), "\n");
    Assoc(k, "\" label=\"" + (l + ("\">" + (v + "</item>"))), "\n");
    Assoc("\" label=\"", l + ("\">" + (v + "</item>")), "\n");
    Assoc(l, "\">" + (v + "</item>"), "\n");
    Assoc("\">", v + "</item>", "\n");
    Assoc(v, "</item>", "\n");
    assert "</item>" + "\n" == "</item>\n";
    Assoc("    ", open, k + ("\" label=\"" + (l + ("\">" + (v + "</item>\n")))));
  }

  function ColumnPiece(s: Setting, col: string): string {
    "<column key=\"" + (col + ("\" label=\"" + (Escape(s.tr(col)) + "\"/>")))
  }

  lemma ColumnText(s: Setting, col: string)
    ensures Print(ColumnElem(s, col)) == ColumnPiece(s, col)
  {
    hide Escape, AttrText, AttrsText;
    KeyAndLabel(col, true, s.tr(col));
    Tagged("column", col, Escape(s.tr(col)), "/>");
    assert "<" + "column" + " key=\"" == "<column key=\"" && "\"" + "/>" == "\"/>";
  }

  function CellPiece(col: string, value: string): string {
    "<cell key=\"" + (col + ("\">" + (Escape(value) + "</cell>")))
  }

  lemma CellText(col: string, value: string)
    ensures Print(CellElem(col, value)) == CellPiece(col, value)
  {
    hide Escape, AttrText, AttrsText, PrintItems;
    var a := Attr("key", col, true);
    AttrsOne(a);
    AttrIs(a, " key=\"");
    OneText(value);
    ItemClosing();
    var rest := ">" + (Escape(value) + "</cell>");
    TagOne("<", "cell", " key=\"", col, "\"", rest);
    assert "<" + "cell" + " key=\"" == "<cell key=\"";
    Assoc("\"", ">", Escape(value) + "</cell>");
    assert "\"" + ">" == "\">";
  }

  lemma ChildrenStep(es: seq<Elem>, i: nat, x: string)
    requires i < |es|
    ensures x + PrintItems(Children(es[i..])) == (x + Print(es[i])) + PrintItems(Children(es[i + 1..]))
  {
    hide Print;
    var items := Children(es[i..]);
    assert es[i..][1..] == es[i + 1..];
    assert items[0] == Child(es[i]) && items[1..] == Children(es[i + 1..]);
    Assoc(x, Print(es[i]), PrintItems(items[1..]));
  }

  lemma NoChildren()
    ensures PrintItems(Children([])) == ""
  {
  }

  // ----- the loops -----

  method RenderItems(x0: string, s: Setting, kv: seq<(string, string)>) returns (x: string)
    ensures x == x0 + PrintItems(Lines("    ", ItemElems(s, kv)))
  {
    hide PrintItems, Lines, Print, Escape, Label;
    ghost var es := ItemElems(s, kv);
    x := x0;
    assert es[0..] == es;
    for i := 0 to |kv|
      invariant x + PrintItems(Lines("    ", es[i..])) == x0 + PrintItems(Lines("    ", es))
    {
      LinesStep("    ", es, i, x);
      ItemText(s, kv[i]);
      var key := HtmlEsc(kv[i].0);
      var name := HtmlEsc(Label(s.tr, kv[i].0));
      var value := HtmlEsc(kv[i].1);
      x := x + ("    <item key=\"" + (key + ("\" label=\"" + (name + ("\">" + (value + "</item>\n"))))));
    }
    assert es[|es|..] == [];
    NoLines("    ");
  }

  method RenderColumns(x0: string, s: Setting, cols: seq<string>) returns (x: string)
    ensures x == x0 + PrintItems(Children(ColumnElems(s, cols)))
  {
    hide PrintItems, Children, Print, Escape;
    ghost var es := ColumnElems(s, cols);
    x := x0;
    assert es[0..] == es;
    for i := 0 to |cols|
      invariant x + PrintItems(Children(es[i..])) == x0 + PrintItems(Children(es))
    {
      ChildrenStep(es, i, x);
      ColumnText(s, cols[i]);
      var name := HtmlEsc(s.tr(cols[i]));
      x := x + ("<column key=\"" + (cols[i] + ("\" label=\"" + (name + "\"/>"))));
    }
    assert es[|es|..] == [];
    NoChildren();
  }

  method RenderCells(x0: string, cols: seq<string>, row: seq<string>) returns (x: string)
    ensures x == x0 + PrintItems(Children(CellElems(cols, row)))
  {
    hide PrintItems, Children, Print, Escape;
    ghost var es := CellElems(cols, row);
    x := x0;
    assert es[0..] == es;
    var i := 0;
    while i < |row| && i < |cols|
      invariant i <= CellCount(cols, row)
      invariant x + PrintItems(Children(es[i..])) == x0 + PrintItems(Children(es))
    {
      ChildrenStep(es, i, x);
      CellText(cols[i], row[i]);
      var value := HtmlEsc(row[i]);
      x := x + ("<cell key=\"" + (cols[i] + ("\">" + (value + "</cell>"))));
      i := i + 1;
    }
    assert es[|es|..] == [];
    NoChildren();
  }

  lemma RowText(cols: seq<string>, row: seq<string>)
    ensures "      " + (Print(RowElem(cols, row)) + "\n") ==
            "      <row>" + (PrintItems(Children(CellElems(cols, row))) + "</row>\n")
  {
    hide PrintItems, Children, CellElems;
    ItemClosing();
    var c := PrintItems(Children(CellElems(cols, row)));
    assert AttrsText([]) == "";
    assert "<" + ("row" + "") == "<row";
    Wrapped("      ", "<row", ">", c, "</row>", "\n");
    assert "      " + ("<row" + ">") == "      <row>" && "</row>" + "\n" == "</row>\n";
  }

  /** A line around a body. */
  lemma Wrapped(indent: string, open: string, mark: string, body: string, close: string, end: string)
    ensures indent + ((open + (mark + (body + close))) + end) == (indent + (open + mark)) + (body + (close + end))
  {
    Assoc(open, mark + (body + close), end);
    Assoc(mark, body + close, end);
    Assoc(body, close, end);
    Assoc(open, mark, body + (close + end));
    Assoc(indent, open + mark, body + (close + end));
  }

  method RenderRows(x0: string, cols: seq<string>, rows: seq<seq<string>>) returns (x: string)
    ensures x == x0 + PrintItems(Lines("      ", RowElems(cols, rows)))
  {
    hide PrintItems, Lines, Print, Children;
    ghost var es := RowElems(cols, rows);
    x := x0;
    assert es[0..] == es;
    for i := 0 to |rows|
      invariant x + PrintItems(Lines("      ", es[i..])) == x0 + PrintItems(Lines("      ", es))
    {
      LinesStep("      ", es, i, x);
      RowText(cols, rows[i]);
      ghost var cells := PrintItems(Children(CellElems(cols, rows[i])));
      Chain3(x, "      <row>", cells, "</row>\n");
      x := x + "      <row>";
      x := RenderCells(x, cols, rows[i]);
      x := x + "</row>\n";
    }
    assert es[|es|..] == [];
    NoLines("      ");
  }

  lemma Chain3(x: string, a: string, b: string, c: string)
    ensures ((x + a) + b) + c == x + (a + (b + c))
  {
    Assoc4(x, a, b, c);
  }

  lemma BlankText(t: string)
    requires forall k | 0 <= k < |t| :: EscapeChar(t[k]) == [t[k]]
    ensures PrintItems([Chars(t)]) == t
  {
    OneText(t);
    PlainEscape(t);
  }

  /** The text of a block of lines: a newline, two groups of lines and the indent of the closing tag. */
  lemma BlockText(a: seq<Item>, b: seq<Item>, end: string)
    requires forall k | 0 <= k < |end| :: EscapeChar(end[k]) == [end[k]]
    ensures PrintItems([Chars("\n")] + (a + (b + [Chars(end)]))) ==
            "\n" + (PrintItems(a) + (PrintItems(b) + end))
  {
    hide PrintItems;
    NewlineText();
    BlankText(end);
    PrintItemsAppend(b, [Chars(end)]);
    PrintItemsAppend(a, b + [Chars(end)]);
    PrintItemsAppend([Chars("\n")], a + (b + [Chars(end)]));
  }

  lemma OneLine(indent: string, e: Elem)
    requires forall k | 0 <= k < |indent| :: indent[k] == ' '
    ensures PrintItems(Lines(indent, [e])) == indent + (Print(e) + "\n")
  {
    hide PrintItems, Print;
    LineText(indent, e);
    assert [e][1..] == [] && Lines(indent, []) == [];
    assert Lines(indent, [e]) == [Chars(indent), Child(e), Chars("\n")];
  }

  lemma ColumnsText(s: Setting, cols: seq<string>)
    ensures "      " + (Print(ColumnsElem(s, cols)) + "\n") ==
            "      <columns>" + (PrintItems(Children(ColumnElems(s, cols))) + "</columns>\n")
  {
    hide PrintItems, Children, ColumnElems;
    var c := PrintItems(Children(ColumnElems(s, cols)));
    assert AttrsText([]) == "" && Closing("columns") == "</columns>";
    assert "<" + ("columns" + "") == "<columns";
    Wrapped("      ", "<columns", ">", c, "</columns>", "\n");
    assert "      " + ("<columns" + ">") == "      <columns>" && "</columns>" + "\n" == "</columns>\n";
  }

  lemma TableText(s: Setting, sec: Section)
    ensures "    " + (Print(TableElem(s, sec)) + "\n") ==
            "    <table>\n      <columns>" + (PrintItems(Children(ColumnElems(s, sec.cols))) + ("</columns>\n" +
            (PrintItems(Lines("      ", RowElems(sec.cols, sec.rows))) + "    </table>\n")))
  {
    hide PrintItems, Children, ColumnElems, RowElems, Lines;
    var c, r := PrintItems(Children(ColumnElems(s, sec.cols))),
        PrintItems(Lines("      ", RowElems(sec.cols, sec.rows)));
    BlockText(Lines("      ", [ColumnsElem(s, sec.cols)]), Lines("      ", RowElems(sec.cols, sec.rows)), "    ");
    OneLine("      ", ColumnsElem(s, sec.cols));
    ColumnsText(s, sec.cols);
    assert AttrsText([]) == "" && Closing("table") == "</table>";
    assert "<" + ("table" + "") == "<table";
    var block := "\n" + (("      <columns>" + (c + "</columns>\n")) + (r + "    "));
    Wrapped("    ", "<table", ">", block, "</table>", "\n");
    TableLine(c, r);
  }

  lemma TableLine(c: string, r: string)
    ensures ("    " + ("<table" + ">")) + (("\n" + (("      <columns>" + (c + "</columns>\n")) + (r + "    "))) +
            ("</table>" + "\n")) ==
            "    <table>\n      <columns>" + (c + ("</columns>\n" + (r + "    </table>\n")))
  {
    var open, end := "    " + ("<table" + ">"), "</table>" + "\n";
    var columns := "      <columns>" + (c + "</columns>\n");
    Assoc("\n", columns + (r + "    "), end);
    Assoc(columns, r + "    ", end);
    Assoc(r, "    ", end);
    assert "    " + end == "    </table>\n";
    Assoc("      <columns>", c + "</columns>\n", r + "    </table>\n");
    Assoc(c, "</columns>\n", r + "    </table>\n");
    var rest := c + ("</columns>\n" + (r + "    </table>\n"));
    Assoc(open, "\n", "      <columns>" + rest);
    Assoc(open + "\n", "      <columns>", rest);
    assert (open + "\n") + "      <columns>" == "    <table>\n      <columns>";
  }

  method RenderTable(x0: string, s: Setting, sec: Section) returns (x: string)
    ensures x == x0 + PrintItems(Lines("    ", TableElems(s, sec)))
  {
    hide PrintItems, Lines, Children, TableElem, Print;
    if sec.cols == [] {
      NoLines("    ");
      assert x0 + "" == x0;
      return x0;
    }
    OneLine("    ", TableElem(s, sec));
    TableText(s, sec);
    ghost var c := PrintItems(Children(ColumnElems(s, sec.cols)));
    ghost var r := PrintItems(Lines("      ", RowElems(sec.cols, sec.rows)));
    Chain5(x0, "    <table>\n      <columns>", c, "</columns>\n", r, "    </table>\n");
    x := x0 + "    <table>\n      <columns>";
    x := RenderColumns(x, s, sec.cols);
    x := x + "</columns>\n";
    x := RenderRows(x, sec.cols, sec.rows);
    x := x + "    </table>\n";
  }

  lemma Chain5(x: string, a: string, b: string, c: string, d: string, e: string)
    ensures ((((x + a) + b) + c) + d) + e == x + (a + (b + (c + (d + e))))
  {
    Assoc4(x, a, b, c + (d + e));
    Assoc4((x + a) + b, c, d, e);
    Assoc(x + a, b, c + (d + e));
  }

  // ----- sections -----

  function StatusPiece(sec: Section): string {
    if sec.status == 0 then "" else " status=\"" + ((if sec.status == 1 then "pass" else "fail") + "\"")
  }

  lemma SectionAttrsText(sec: Section)
    ensures AttrsText(SectionAttrs(sec)) ==
            (" id=\"" + (sec.id + "\"")) + ((" title=\"" + (Escape(sec.title) + "\"")) + StatusPiece(sec))
  {
    hide Escape, AttrText, AttrsText;
    var a, b := Attr("id", sec.id, true), Attr("title", sec.title, false);
    AttrIs(a, " id=\"");
    AttrIs(b, " title=\"");
    if sec.status == 0 {
      assert SectionAttrs(sec) == [a, b];
      AttrsTwo(a, b);
      assert AttrText(b) + "" == AttrText(b);
    } else {
      var c := Attr("status", if sec.status == 1 then "pass" else "fail", true);
      AttrIs(c, " status=\"");
      assert SectionAttrs(sec) == [a] + [b, c];
      AttrsFirst(a, [b, c]);
      AttrsTwo(b, c);
    }
  }

  lemma AttrsFirst(a: Attr, rest: seq<Attr>)
    ensures AttrsText([a] + rest) == AttrText(a) + AttrsText(rest)
  {
    hide AttrText;
    assert ([a] + rest)[1..] == rest;
  }

  /** The tag of a section up to its closing mark, and what follows. */
  lemma SectionTag(id: string, t: string, st: string, rest: string)
    ensures ("<" + ("section" + ((" id=\"" + (id + "\"")) + ((" title=\"" + (t + "\"")) + st)))) + rest ==
            "<section id=\"" + (id + ("\" title=\"" + (t + ("\"" + (st + rest)))))
  {
    var tail := (" title=\"" + (t + "\"")) + st;
    TagOneMore("<", "section", " id=\"", id, "\"", tail, rest);
    assert "<" + "section" + " id=\"" == "<section id=\"";
    Assoc(" title=\"" + (t + "\""), st, rest);
    Assoc(" title=\"", t + "\"", st + rest);
    Assoc(t, "\"", st + rest);
    Assoc("\"", " title=\"", t + ("\"" + (st + rest)));
    assert "\"" + " title=\"" == "\" title=\"";
  }

  lemma TagOneMore(o: string, n: string, a: string, k: string, b: string, more: string, rest: string)
    ensures (o + (n + ((a + (k + b)) + more))) + rest == (o + n + a) + (k + (b + (more + rest)))
  {
    Assoc(o, n + ((a + (k + b)) + more), rest);
    Assoc(n, (a + (k + b)) + more, rest);
    Assoc(a + (k + b), more, rest);
    Assoc(a, k + b, more + rest);
    Assoc(k, b, more + rest);
    Assoc(o, n, a + (k + (b + (more + rest))));
    Assoc(o + n, a, k + (b + (more + rest)));
  }

  function SectionOpen(sec: Section): string {
    "  <section id=\"" + (sec.id + ("\" title=\"" + (Escape(sec.title) + "\"")))
  }

  lemma SectionText(s: Setting, sec: Section)
    ensures "  " + (Print(SectionElem(s, sec)) + "\n") ==
            SectionOpen(sec) + (StatusPiece(sec) + (">\n" + (PrintItems(Lines("    ", ItemElems(s, sec.kv))) +
            (PrintItems(Lines("    ", TableElems(s, sec))) + "  </section>\n"))))
  {
    hide PrintItems, Lines, ItemElems, TableElems, AttrsText, SectionAttrs, Escape, StatusPiece;
    var i, t := PrintItems(Lines("    ", ItemElems(s, sec.kv))), PrintItems(Lines("    ", TableElems(s, sec)));
    BlockText(Lines("    ", ItemElems(s, sec.kv)), Lines("    ", TableElems(s, sec)), "  ");
    SectionAttrsText(sec);
    assert Closing("section") == "</section>";
    var title, st := Escape(sec.title), StatusPiece(sec);
    var rest := ">" + (("\n" + (i + (t + "  "))) + "</section>");
    SectionTag(sec.id, title, st, rest);
    SectionLine(sec.id, title, st, i, t);
  }

  lemma SectionLine(id: string, t: string, st: string, i: string, b: string)
    ensures var rest := ">" + (("\n" + (i + (b + "  "))) + "</section>");
            "  " + (("<section id=\"" + (id + ("\" title=\"" + (t + ("\"" + (st + rest)))))) + "\n") ==
            ("  <section id=\"" + (id + ("\" title=\"" + (t + "\"")))) + (st + (">\n" + (i + (b + "  </section>\n"))))
  {
    var rest := ">" + (("\n" + (i + (b + "  "))) + "</section>");
    var end := st + (">\n" + (i + (b + "  </section>\n")));
    SectionEnd(st, i, b);
    var open := "<section id=\"";
    Assoc(open, id + ("\" title=\"" + (t + ("\"" + (st + rest)))), "\n");
    Assoc(id, "\" title=\"" + (t + ("\"" + (st + rest))), "\n");
    Assoc("\" title=\"", t + ("\"" + (st + rest)), "\n");
    Assoc(t, "\"" + (st + rest), "\n");
    Assoc("\"", st + rest, "\n");
    Assoc("  ", open, id + ("\" title=\"" + (t + ("\"" + end))));
    assert "  " + open == "  <section id=\"";
    Assoc("  <section id=\"", id + ("\" title=\"" + (t + "\"")), end);
    Assoc(id, "\" title=\"" + (t + "\""), end);
    Assoc("\" title=\"", t + "\"", end);
    Assoc(t, "\"", end);
  }

  lemma SectionEnd(st: string, i: string, b: string)
    ensures (st + (">" + (("\n" + (i + (b + "  "))) + "</section>"))) + "\n" ==
            st + (">\n" + (i + (b + "  </section>\n")))
  {
    var block := "\n" + (i + (b + "  "));
    Assoc(st, ">" + (block + "</section>"), "\n");
    Assoc(">", block + "</section>", "\n");
    Assoc(block, "</section>", "\n");
    var end := "</section>" + "\n";
    Assoc("\n", i + (b + "  "), end);
    Assoc(i, b + "  ", end);
    Assoc(b, "  ", end);
    assert "  " + end == "  </section>\n";
    Assoc(">", "\n", i + (b + "  </section>\n"));
    assert ">" + "\n" == ">\n";
  }

  method RenderSection(x0: string, s: Setting, sec: Section) returns (x: string)
    ensures x == x0 + ("  " + (Print(SectionElem(s, sec)) + "\n"))
  {
    hide PrintItems, Lines, Print, SectionElem, Escape, TableElems;
    SectionText(s, sec);
    ghost var i, t := PrintItems(Lines("    ", ItemElems(s, sec.kv))), PrintItems(Lines("    ", TableElems(s, sec)));
    Chain6(x0, SectionOpen(sec), StatusPiece(sec), ">\n", i, t, "  </section>\n");
    var title := HtmlEsc(sec.title);
    x := x0 + ("  <section id=\"" + (sec.id + ("\" title=\"" + (title + "\""))));
    if sec.status != 0 {
      x := x + (" status=\"" + ((if sec.status == 1 then "pass" else "fail") + "\""));
    } else {
      assert x + "" == x;
    }
    x := x + ">\n";
    x := RenderItems(x, s, sec.kv);
    x := RenderTable(x, s, sec);
    x := x + "  </section>\n";
  }

  lemma Chain6(x: string, a: string, b: string, c: string, d: string, e: string, f: string)
    ensures (((((x + a) + b) + c) + d) + e) + f == x + (a + (b + (c + (d + (e + f)))))
  {
    Chain5(x + a, b, c, d, e, f);
    Assoc(x, a, b + (c + (d + (e + f))));
  }

  lemma ReportAttrsText(s: Setting)
    ensures AttrsText(ReportAttrs(s)) ==
            (" xmlns=\"" + (NAMESPACE + "\"")) + ((" lang=\"" + (s.lang + "\"")) +
            ((" engine=\"" + (Escape(s.engine) + "\"")) + (" created=\"" + (s.created + "\""))))
  {
    hide Escape, AttrText, AttrsText, NAMESPACE;
    var a, b := Attr("xmlns", NAMESPACE, true), Attr("lang", s.lang, true);
    var c, d := Attr("engine", s.engine, false), Attr("created", s.created, true);
    assert ReportAttrs(s) == [a] + ([b] + [c, d]);
    AttrsFirst(a, [b] + [c, d]);
    AttrsFirst(b, [c, d]);
    AttrsTwo(c, d);
    AttrIs(a, " xmlns=\"");
    AttrIs(b, " lang=\"");
    AttrIs(c, " engine=\"");
    AttrIs(d, " created=\"");
  }

  /** The tag of the report up to its closing mark. */
  function TagPiece(s: Setting): string {
    "<report xmlns=\"" + (NAMESPACE + ("\" lang=\"" + (s.lang + ("\" engine=\"" + (Escape(s.engine) +
    ("\" created=\"" + (s.created + "\"")))))))
  }

  lemma ReportTag(s: Setting)
    ensures "<" + ("report" + AttrsText(ReportAttrs(s))) == TagPiece(s)
  {
    hide Escape, AttrsText, NAMESPACE;
    ReportAttrsText(s);
    ReportTagLine(NAMESPACE, s.lang, Escape(s.engine), s.created);
  }

  /** One attribute and the next. */
  lemma NextAttr(open: string, v: string, more: string, rest: string)
    ensures (open + (v + "\"")) + (more + rest) == open + (v + (("\"" + more) + rest))
  {
    Assoc(open, v + "\"", more + rest);
    Assoc(v, "\"", more + rest);
    Assoc("\"", more, rest);
  }

  lemma ReportTagLine(ns: string, l: string, e: string, c: string)
    ensures "<" + ("report" + ((" xmlns=\"" + (ns + "\"")) + ((" lang=\"" + (l + "\"")) +
            ((" engine=\"" + (e + "\"")) + (" created=\"" + (c + "\"")))))) ==
            "<report xmlns=\"" + (ns + ("\" lang=\"" + (l + ("\" engine=\"" + (e + ("\" created=\"" + (c + "\"")))))))
  {
    var x := c + "\"";
    NextAttr(" engine=\"", e, " created=\"", x);
    assert "\"" + " created=\"" == "\" created=\"";
    var y := e + ("\" created=\"" + x);
    NextAttr(" lang=\"", l, " engine=\"", y);
    assert "\"" + " engine=\"" == "\" engine=\"";
    var z := l + ("\" engine=\"" + y);
    NextAttr(" xmlns=\"", ns, " lang=\"", z);
    assert "\"" + " lang=\"" == "\" lang=\"";
    var w := ns + ("\" lang=\"" + z);
    Assoc("<", "report", " xmlns=\"" + w);
    Assoc("<" + "report", " xmlns=\"", w);
    assert ("<" + "report") + " xmlns=\"" == "<report xmlns=\"";
  }

  /** `renderXml` */
  method RenderXml(s: Setting, secs: seq<Section>) returns (x: string)
    ensures x == Rendered(s, secs)
  {
    hide SectionElem, AttrsText, Lines, PrintItems, Escape, Print, DECLARATION, NAMESPACE;
    ReportTag(s);
    ReportClosing();
    var engine := HtmlEsc(s.engine);
    x := DECLARATION + "\n" +
         ("<report xmlns=\"" + (NAMESPACE + ("\" lang=\"" + (s.lang + ("\" engine=\"" + (engine +
         ("\" created=\"" + (s.created + "\"")))))))) + ">" + "\n";
    ghost var head, es := x, SectionElems(s, secs);
    assert es[0..] == es;
    for i := 0 to |secs|
      invariant x + PrintItems(Lines("  ", es[i..])) == head + PrintItems(Lines("  ", es))
    {
      LinesStep("  ", es, i, x);
      x := RenderSection(x, s, secs[i]);
    }
    assert es[|es|..] == [];
    NoLines("  ");
    x := x + "</report>" + "\n";
    ReportText(s, secs, head, x);
  }

  lemma ReportClosing()
    ensures Closing("report") == "</report>"
  {
  }
}
