/** The parser undoes the printing of any element tree. */
module XmlRoundTrip {
  import opened XmlParser
  import opened Concatenation

  // ----- element trees and their text -----

  /** An attribute; a raw one is printed without escaping. */
  datatype Attr = Attr(name: string, value: string, raw: bool)

  datatype Elem = Elem(name: string, attrs: seq<Attr>, body: Body)

  datatype Body = SelfClosed | Content(items: seq<Item>)

  datatype Item = Chars(text: string) | Child(elem: Elem)

  function Shown(a: Attr): string {
    if a.raw then a.value else Escape(a.value)
  }

  function AttrText(a: Attr): string {
    (" " + a.name + "=") + ("\"" + (Shown(a) + "\""))
  }

  function AttrsText(attrs: seq<Attr>): string {
    if attrs == [] then "" else AttrText(attrs[0]) + AttrsText(attrs[1..])
  }

  function Closing(name: string): string {
    "</" + (name + ">")
  }

  function Print(e: Elem): string {
    ("<" + (e.name + AttrsText(e.attrs))) + match e.body
    case SelfClosed => "/>"
    case Content(items) => ">" + (PrintItems(items) + Closing(e.name))
  }

  function PrintItems(items: seq<Item>): string {
    if items == [] then ""
    else match items[0]
      case Chars(text) => Escape(text) + PrintItems(items[1..])
      case Child(e) => assert e < items[0]; Print(e) + PrintItems(items[1..])
  }

  // ----- the node a tree stands for -----

  /** What an attribute reads as: a raw value is unescaped although it was never escaped. */
  function ReadAs(a: Attr): string {
    if a.raw then Unescape(a.value) else a.value
  }

  /** Later attributes of the same name win. */
  function AttrMap(m: map<string, string>, attrs: seq<Attr>): map<string, string>
    decreases |attrs|
  {
    if attrs == [] then m else AttrMap(m[attrs[0].name := ReadAs(attrs[0])], attrs[1..])
  }

  function NodeOf(e: Elem): XNode {
    match e.body
    case SelfClosed => XNode(e.name, "", AttrMap(map[], e.attrs), [])
    case Content(items) => XNode(e.name, TextOf(items), AttrMap(map[], e.attrs), KidsOf(items))
  }

  function TextOf(items: seq<Item>): string {
    if items == [] then "" else (if items[0].Chars? then items[0].text else "") + TextOf(items[1..])
  }

  function KidsOf(items: seq<Item>): seq<XNode> {
    if items == [] then []
    else match items[0]
      case Chars(_) => KidsOf(items[1..])
      case Child(e) => assert e < items[0]; [NodeOf(e)] + KidsOf(items[1..])
  }

  // ----- admissible names -----

  predicate NameChar(c: char) {
    !IsSpace(c) && !IsQuote(c) && c != '<' && c != '>' && c != '/' && c != '=' && c != ':' && c != '!' && c != '?'
  }

  predicate IsName(s: string) {
    s != "" && forall i | 0 <= i < |s| :: NameChar(s[i])
  }

  /** A name, and no quote in what is printed without escaping. */
  predicate AttrOk(a: Attr) {
    IsName(a.name) && (a.raw ==> '"' !in a.value)
  }

  predicate AttrsOk(attrs: seq<Attr>) {
    forall i | 0 <= i < |attrs| :: AttrOk(attrs[i])
  }

  /** Every name and attribute in the tree is admissible, and the tree is at most `height` elements high. */
  predicate Fits(e: Elem, height: nat) {
    IsName(e.name) && AttrsOk(e.attrs) && height > 0 && (e.body.Content? ==> ItemsFit(e.body.items, height - 1))
  }

  predicate ItemsFit(items: seq<Item>, height: nat) {
    items != [] ==>
      && (items[0].Child? ==> assert items[0].elem < items[0]; Fits(items[0].elem, height))
      && ItemsFit(items[1..], height)
  }

  // ----- texts in place -----

  lemma AtSplit(x: string, i: nat, a: string, b: string)
    ensures At(x, i, a + b) <==> At(x, i, a) && At(x, i + |a|, b)
  {
    if i + |a| + |b| <= |x| {
      var w, v := x[i..i + |a|], x[i + |a|..i + |a| + |b|];
      assert x[i..i + |a + b|] == w + v;
      assert (w + v)[..|a|] == w && (w + v)[|a|..] == v && (a + b)[..|a|] == a && (a + b)[|a|..] == b;
    }
  }

  lemma AtChar(x: string, i: nat, s: string, k: nat)
    requires At(x, i, s) && k < |s|
    ensures i + |s| <= |x| && x[i + k] == s[k]
  {
    assert x[i..i + |s|][k] == x[i + k];
  }

  lemma AtChars(x: string, i: nat, s: string)
    requires At(x, i, s)
    ensures i + |s| <= |x| && x[i..i + |s|] == s
    ensures forall k | 0 <= k < |s| :: x[i + k] == s[k]
    ensures forall k | i <= k < i + |s| :: x[k] == s[k - i]
  {
    forall k | 0 <= k < |s|
      ensures x[i + k] == s[k]
    {
      AtChar(x, i, s, k);
    }
  }

  lemma FindIs(x: string, i: nat, j: nat, c: char)
    requires i <= j < |x| && x[j] == c && forall k | i <= k < j :: x[k] != c
    ensures Find(x, i, c) == j
  {
  }

  // ----- escaping -----

  lemma {:induction false} EscapeClean(s: string)
    ensures forall k | 0 <= k < |Escape(s)| :: Escape(s)[k] != '<' && Escape(s)[k] != '>' && Escape(s)[k] != '"'
  {
    if s != "" {
      EscapeClean(s[1..]);
    }
  }

  lemma {:induction false} EscapeAppend(a: string, b: string)
    ensures Escape(a + b) == Escape(a) + Escape(b)
  {
    if a == "" {
      assert a + b == b;
    } else {
      assert (a + b)[1..] == a[1..] + b;
      EscapeAppend(a[1..], b);
      Assoc(EscapeChar(a[0]), Escape(a[1..]), Escape(b));
    }
  }

  lemma EntityPiece(x: string, i: nat, name: string, c: char)
    requires At(x, i, "&" + (name + ";")) && ';' !in name
    requires EntityCode(name) == c as nat && 0 < c as nat < 0x80
    ensures Piece(x, i) == ([c], i + |name| + 2)
  {
    hide At, EntityCode, Find;
    var ent := "&" + (name + ";");
    AtChars(x, i, ent);
    assert x[i] == ent[0] == '&';
    assert forall k | 0 <= k < |name| :: ent[1 + k] == name[k];
    assert forall k | i <= k < i + 1 + |name| :: x[k] != ';';
    FindIs(x, i, i + 1 + |name|, ';');
    assert x[i + 1..i + 1 + |name|] == name;
  }

  lemma EscapedPiece(x: string, i: nat, c: char)
    requires At(x, i, EscapeChar(c))
    ensures i < |x| && Piece(x, i) == ([c], i + |EscapeChar(c)|)
  {
    AtChars(x, i, EscapeChar(c));
    if c == '<' {
      assert EscapeChar(c) == "&" + ("lt" + ";");
      EntityPiece(x, i, "lt", c);
    } else if c == '>' {
      assert EscapeChar(c) == "&" + ("gt" + ";");
      EntityPiece(x, i, "gt", c);
    } else if c == '&' {
      assert EscapeChar(c) == "&" + ("amp" + ";");
      EntityPiece(x, i, "amp", c);
    } else if c == '"' {
      assert EscapeChar(c) == "&" + ("quot" + ";");
      EntityPiece(x, i, "quot", c);
    } else {
      assert x[i] == c;
    }
  }

  lemma {:induction false} UnescapeInPlace(x: string, i: nat, s: string)
    requires At(x, i, Escape(s)) && i + |Escape(s)| == |x|
    ensures UnescapeFrom(x, i) == s
    decreases |s|
  {
    hide Piece, EscapeChar, At;
    if s != "" {
      AtSplit(x, i, EscapeChar(s[0]), Escape(s[1..]));
      EscapedPiece(x, i, s[0]);
      UnescapeInPlace(x, i + |EscapeChar(s[0])|, s[1..]);
      assert [s[0]] + s[1..] == s;
    }
  }

  /** Unescaping undoes escaping, for every text (sections 2.4 and 4.6 of XML 1.0). */
  lemma UnescapeEscape(s: string)
    ensures Unescape(Escape(s)) == s
  {
    assert At(Escape(s), 0, Escape(s));
    UnescapeInPlace(Escape(s), 0, s);
  }

  /** The printed value of an attribute holds no double quote. */
  lemma ShownRead(a: Attr)
    requires AttrOk(a)
    ensures Unescape(Shown(a)) == ReadAs(a) && forall k | 0 <= k < |Shown(a)| :: Shown(a)[k] != '"'
  {
    hide Escape, Unescape;
    EscapeClean(a.value);
    UnescapeEscape(a.value);
  }

  // ----- texts that unescaping leaves alone -----

  /** No ampersand starts an entity. */
  predicate NoEntity(s: string) {
    forall i | 0 <= i < |s| :: !Entity(s, i)
  }

  predicate Entity(s: string, i: nat)
    requires i < |s|
  {
    s[i] == '&' && Find(s, i, ';') < |s| && EntityCode(s[i + 1..Find(s, i, ';')]) != 0
  }

  /** An entity is longer than what it stands for. */
  lemma EntityShrinks(s: string, i: nat)
    requires i < |s| && Entity(s, i)
    ensures |Piece(s, i).0| < Piece(s, i).1 - i
  {
    var ent := s[i + 1..Find(s, i, ';')];
    EntityLength(ent);
  }

  lemma EntityLength(ent: string)
    requires EntityCode(ent) != 0
    ensures |ent| >= 1 && |Utf8(EntityCode(ent))| < |ent| + 2
  {
    NothingConverted();
    assert "#"[1..] == "";
  }

  lemma NothingConverted()
    ensures StrToUl("", false) == 0
  {
  }

  lemma {:induction false} UnescapeLength(s: string, i: nat)
    requires i <= |s|
    ensures |UnescapeFrom(s, i)| <= |s| - i
    decreases |s| - i
  {
    hide Piece;
    if i < |s| {
      PieceLength(s, i);
      UnescapeLength(s, Piece(s, i).1);
    }
  }

  lemma PieceLength(s: string, i: nat)
    requires i < |s|
    ensures |Piece(s, i).0| <= Piece(s, i).1 - i
    ensures !Entity(s, i) ==> Piece(s, i) == ([s[i]], i + 1)
  {
    hide EntityCode, Utf8;
    if Entity(s, i) {
      EntityShrinks(s, i);
    }
  }

  lemma {:induction false} EntityFreeFrom(s: string, i: nat)
    requires i <= |s|
    ensures UnescapeFrom(s, i) == s[i..] <==> forall k | i <= k < |s| :: !Entity(s, k)
    decreases |s| - i
  {
    hide Piece, Entity;
    if i < |s| {
      PieceLength(s, i);
      if Entity(s, i) {
        EntityShrinks(s, i);
        UnescapeLength(s, Piece(s, i).1);
      } else {
        EntityFreeFrom(s, i + 1);
        assert s[i..] == [s[i]] + s[i + 1..];
        ConsEqual(s[i], UnescapeFrom(s, i + 1), s[i + 1..]);
      }
    }
  }

  lemma ConsEqual(c: char, a: string, b: string)
    ensures [c] + a == [c] + b <==> a == b
  {
    assert ([c] + a)[1..] == a && ([c] + b)[1..] == b;
  }

  /** Unescaping leaves a text alone if and only if no ampersand in it starts an entity. */
  lemma UnescapesToItselfIff(s: string)
    ensures Unescape(s) == s <==> NoEntity(s)
  {
    hide UnescapeFrom, Entity;
    EntityFreeFrom(s, 0);
    assert s[0..] == s;
  }

  // ----- tags -----

  predicate TagPlain(s: string) {
    forall k | 0 <= k < |s| :: s[k] != '>' && !IsQuote(s[k])
  }

  lemma {:induction false} TagEndPlain(x: string, i: nat, s: string)
    requires At(x, i, s) && TagPlain(s)
    ensures TagEnd(x, i, NONE) == TagEnd(x, i + |s|, NONE)
    decreases |s|
  {
    if s != "" {
      AtChar(x, i, s, 0);
      assert s == [s[0]] + s[1..];
      AtSplit(x, i, [s[0]], s[1..]);
      TagEndPlain(x, i + 1, s[1..]);
    }
  }

  lemma {:induction false} TagEndQuoted(x: string, i: nat, s: string)
    requires At(x, i, s) && forall k | 0 <= k < |s| :: s[k] != '"'
    ensures TagEnd(x, i, '"') == TagEnd(x, i + |s|, '"')
    decreases |s|
  {
    if s != "" {
      AtChar(x, i, s, 0);
      assert s == [s[0]] + s[1..];
      AtSplit(x, i, [s[0]], s[1..]);
      TagEndQuoted(x, i + 1, s[1..]);
    }
  }

  lemma TagEndAttr(x: string, i: nat, a: Attr)
    requires At(x, i, AttrText(a)) && AttrOk(a)
    ensures TagEnd(x, i, NONE) == TagEnd(x, i + |AttrText(a)|, NONE)
  {
    hide At, Shown;
    var head, v := " " + a.name + "=", Shown(a);
    AtSplit(x, i, head, "\"" + (v + "\""));
    assert TagPlain(head);
    TagEndPlain(x, i, head);
    var q := i + |head|;
    AtSplit(x, q, "\"", v + "\"");
    AtSplit(x, q + 1, v, "\"");
    AtChar(x, q, "\"", 0);
    ShownRead(a);
    TagEndQuoted(x, q + 1, v);
    AtChar(x, q + 1 + |v|, "\"", 0);
  }

  lemma {:induction false} TagEndAttrs(x: string, i: nat, attrs: seq<Attr>)
    requires At(x, i, AttrsText(attrs)) && AttrsOk(attrs)
    ensures TagEnd(x, i, NONE) == TagEnd(x, i + |AttrsText(attrs)|, NONE)
    decreases |attrs|
  {
    hide AttrText, TagEnd, At, AttrOk;
    if attrs != [] {
      AtSplit(x, i, AttrText(attrs[0]), AttrsText(attrs[1..]));
      TagEndAttr(x, i, attrs[0]);
      TagEndAttrs(x, i + |AttrText(attrs[0])|, attrs[1..]);
    }
  }

  lemma TrimName(name: string)
    requires IsName(name)
    ensures TrimRight(TrimLeft(" " + name)) == name
  {
    var s := " " + name;
    assert s[1..] == name;
    assert TrimLeft(name) == name;
  }

  lemma MarksAt(tag: string, p: nat, name: string, v: string)
    requires IsName(name) && forall k | 0 <= k < |v| :: v[k] != '"'
    requires At(tag, p, " " + name + "=") && At(tag, p + |name| + 2, "\"" + (v + "\""))
    ensures Marks(tag, p) == (p + |name| + 1, p + |name| + 2, p + |name| + 3 + |v|)
  {
    hide Find, FindQuote, At;
    var head, tail, eq := " " + name + "=", "\"" + (v + "\""), p + |name| + 1;
    AtChars(tag, p, head);
    AtChars(tag, eq + 1, tail);
    assert tag[eq] == head[|name| + 1] == '=';
    assert forall k | p <= k < eq :: tag[k] == head[k - p] && head[k - p] != '=';
    FindIs(tag, p, eq, '=');
    assert tag[eq + 1] == tail[0] == '"';
    assert FindQuote(tag, eq) == eq + 1;
    assert tag[eq + 2 + |v|] == tail[1 + |v|] == '"';
    assert forall k | eq + 2 <= k < eq + 2 + |v| :: tag[k] == tail[k - eq - 1] && tail[k - eq - 1] == v[k - eq - 2];
    FindIs(tag, eq + 2, eq + 2 + |v|, '"');
  }

  lemma AttributeAt(tag: string, p: nat, a: Attr)
    requires At(tag, p, AttrText(a)) && AttrOk(a)
    ensures Marks(tag, p).2 + 1 == p + |AttrText(a)| && Attribute(tag, p) == (a.name, ReadAs(a))
  {
    hide Find, FindQuote, Marks, Unescape, TrimLeft, TrimRight, IsName, Shown, At;
    var head, v := " " + a.name + "=", Shown(a);
    var q := p + |head|;
    AtSplit(tag, p, head, "\"" + (v + "\""));
    AtSplit(tag, q, "\"", v + "\"");
    AtSplit(tag, q + 1, v, "\"");
    ShownRead(a);
    MarksAt(tag, p, a.name, v);
    AtSplit(tag, p, " " + a.name, "=");
    AtChars(tag, p, " " + a.name);
    AtChars(tag, q + 1, v);
    TrimName(a.name);
  }

  lemma {:induction false} AttributesRead(tag: string, p: nat, attrs: seq<Attr>, m: map<string, string>)
    requires At(tag, p, AttrsText(attrs)) && p + |AttrsText(attrs)| == |tag| && AttrsOk(attrs)
    ensures Attributes(tag, p, m) == AttrMap(m, attrs)
    decreases |attrs|
  {
    hide Attribute, AttrText, Marks, AttrOk;
    if attrs == [] {
      assert Marks(tag, p).2 == |tag|;
      AttributesEnd(tag, p, m);
    } else {
      var n := |AttrText(attrs[0])|;
      AtSplit(tag, p, AttrText(attrs[0]), AttrsText(attrs[1..]));
      AttributeAt(tag, p, attrs[0]);
      AttributesStep(tag, p, m);
      AttributesRead(tag, p + n, attrs[1..], m[attrs[0].name := ReadAs(attrs[0])]);
    }
  }

  lemma FirstOfAttrs(attrs: seq<Attr>)
    requires attrs != []
    ensures AttrsText(attrs) != "" && AttrsText(attrs)[0] == ' '
  {
    var a := attrs[0];
    assert AttrText(a)[0] == (" " + a.name + "=")[0] == ' ';
  }

  /** A printed tag is read as its name and its attributes. */
  lemma TagNodeRead(name: string, attrs: seq<Attr>)
    requires IsName(name) && AttrsOk(attrs)
    ensures TagNode(name + AttrsText(attrs)) == XNode(name, "", AttrMap(map[], attrs), [])
  {
    hide Attributes, AttrMap, AttrText, Find, FindSpace, AttrOk;
    var tag := name + AttrsText(attrs);
    assert At(tag, 0, tag);
    AtSplit(tag, 0, name, AttrsText(attrs));
    if attrs != [] {
      FirstOfAttrs(attrs);
      assert tag[|name|] == ' ';
    }
    assert FindSpace(tag, 0) == |name|;
    assert tag[..|name|] == name;
    assert Find(name, 0, ':') == |name|;
    AttributesRead(tag, |name|, attrs, map[]);
  }

  // ----- elements -----

  /** The start tag of an element at `i`: where it ends, and its text. */
  lemma StartTag(x: string, i: nat, e: Elem, end: string)
    requires IsName(e.name) && AttrsOk(e.attrs) && (end == ">" || end == "/>")
    requires At(x, i, "<" + (e.name + AttrsText(e.attrs))) && At(x, i + 1 + |e.name + AttrsText(e.attrs)|, end)
    ensures var tag := e.name + AttrsText(e.attrs);
            && TagEnd(x, i + 1, NONE) == i + |tag| + |end| < |x|
            && x[i + 1..i + |tag| + |end|] == tag + end[..|end| - 1]
  {
    hide At, AttrsText, TagEnd, IsName, AttrsOk;
    var tag, mark := e.name + AttrsText(e.attrs), end[..|end| - 1];
    var j := i + 1 + |tag|;
    AtSplit(x, i, "<", tag);
    AtSplit(x, i + 1, e.name, AttrsText(e.attrs));
    NameTagPlain(e.name);
    TagEndPlain(x, i + 1, e.name);
    TagEndAttrs(x, i + 1 + |e.name|, e.attrs);
    assert end == mark + ">";
    AtSplit(x, j, mark, ">");
    TagEndPlain(x, j, mark);
    AtChar(x, j + |mark|, ">", 0);
    TagEndHere(x, j + |mark|);
    AtSplit(x, i + 1, tag, mark);
    AtChars(x, i + 1, tag + mark);
  }

  lemma NameTagPlain(name: string)
    requires IsName(name)
    ensures TagPlain(name)
  {
  }

  lemma TagEndHere(x: string, i: nat)
    requires i < |x| && x[i] == '>'
    ensures TagEnd(x, i, NONE) == i
  {
  }

  lemma NotSelfClosing(name: string, attrs: seq<Attr>)
    requires IsName(name)
    ensures !SelfCloses(name + AttrsText(attrs))
  {
    hide AttrText;
    LastOfAttrs(attrs);
  }

  lemma {:induction false} LastOfAttrs(attrs: seq<Attr>)
    ensures attrs != [] ==> AttrsText(attrs) != "" && AttrsText(attrs)[|AttrsText(attrs)| - 1] == '"'
  {
    if attrs != [] {
      LastOfAttrs(attrs[1..]);
      var a := attrs[0];
      assert AttrText(a) == ((" " + a.name + "=") + ("\"" + Shown(a))) + "\"";
    }
  }

  lemma SecondChar(x: string, i: nat, s: string, t: string)
    requires At(x, i, s) && |s| >= 2 && |t| >= 2 && s[1] != t[1]
    ensures !At(x, i, t)
  {
    AtChar(x, i, s, 1);
    if At(x, i, t) {
      AtChar(x, i, t, 1);
    }
  }

  lemma OpeningShape(x: string, i: nat, name: string, rest: string)
    requires IsName(name) && At(x, i, "<" + (name + rest))
    ensures x[i] == '<' && !IsMarkup(x, i) && !At(x, i, "</")
  {
    var s := "<" + (name + rest);
    AtChar(x, i, s, 0);
    assert s[1] == name[0];
    SecondChar(x, i, s, "<!");
    SecondChar(x, i, s, "<?");
    SecondChar(x, i, s, "</");
  }

  /** A pending text and the `<` that ends it. */
  lemma LoopText(x: string, i: nat, s: string, node: XNode, depth: nat)
    requires At(x, i, Escape(s)) && i + |Escape(s)| < |x| && x[i + |Escape(s)|] == '<'
    ensures Loop(x, i, node, depth) == Dispatch(x, i + |Escape(s)|, WithText(node, s), depth)
  {
    hide Escape, Unescape, Dispatch, Find;
    EscapeClean(s);
    AtChars(x, i, Escape(s));
    FindIs(x, i, i + |Escape(s)|, '<');
    UnescapeEscape(s);
  }

  lemma ClosingRead(x: string, i: nat, name: string, node: XNode, depth: nat)
    requires IsName(name) && At(x, i, Closing(name))
    ensures i < |x| && x[i] == '<' && Dispatch(x, i, node, depth) == Parsed(true, i + |Closing(name)|, node)
  {
    hide Element, Markup;
    var c := Closing(name);
    AtChars(x, i, c);
    AtSplit(x, i, "</", name + ">");
    assert x[i] == c[0] == '<';
    SecondChar(x, i, c, "<!");
    SecondChar(x, i, c, "<?");
    var last := i + |c| - 1;
    assert x[last] == c[|c| - 1] == '>';
    assert forall k | i <= k < last :: x[k] == c[k - i] && c[k - i] != '>';
    FindIs(x, i, last, '>');
  }

  function Filled(node: XNode, text: string, kids: seq<XNode>): XNode {
    node.(text := node.text + text, kids := node.kids + kids)
  }

  /** Items printed after a pending text `pre`, and the closing tag behind them. */
  lemma {:induction false} ItemsRead(x: string, i: nat, pre: string, items: seq<Item>, name: string, node: XNode,
      depth: nat)
    requires i <= |x| && IsName(name) && depth <= MAX_DEPTH && ItemsFit(items, MAX_DEPTH - depth)
    requires At(x, i, Escape(pre)) && At(x, i + |Escape(pre)|, PrintItems(items))
    requires At(x, i + |Escape(pre)| + |PrintItems(items)|, Closing(name))
    ensures Loop(x, i, node, depth) ==
            Parsed(true, i + |Escape(pre)| + |PrintItems(items)| + |Closing(name)|,
                   Filled(node, pre + TextOf(items), KidsOf(items)))
    decreases |x| - i, 2, |items|
  {
    hide Loop, Dispatch, Escape, Closing, At, IsName, Print, NodeOf, Fits;
    var j := i + |Escape(pre)|;
    if items == [] {
      ClosingRead(x, j, name, WithText(node, pre), depth);
      LoopText(x, i, pre, node, depth);
      assert pre + TextOf(items) == pre && node.kids + KidsOf(items) == node.kids;
    } else {
      match items[0]
      case Chars(s) =>
        AtSplit(x, j, Escape(s), PrintItems(items[1..]));
        EscapeAppend(pre, s);
        AtSplit(x, i, Escape(pre), Escape(s));
        ItemsRead(x, i, pre + s, items[1..], name, node, depth);
        Assoc(pre, s, TextOf(items[1..]));
      case Child(e) =>
        ChildRead(x, i, pre, e, items[1..], name, node, depth);
    }
  }

  lemma {:induction false} ChildRead(x: string, i: nat, pre: string, e: Elem, rest: seq<Item>, name: string,
      node: XNode, depth: nat)
    requires i <= |x| && IsName(name) && depth <= MAX_DEPTH && Fits(e, MAX_DEPTH - depth) &&
             ItemsFit(rest, MAX_DEPTH - depth)
    requires At(x, i, Escape(pre)) && At(x, i + |Escape(pre)|, Print(e) + PrintItems(rest))
    requires At(x, i + |Escape(pre)| + |Print(e) + PrintItems(rest)|, Closing(name))
    ensures Loop(x, i, node, depth) ==
            Parsed(true, i + |Escape(pre)| + |Print(e) + PrintItems(rest)| + |Closing(name)|,
                   Filled(node, pre + ("" + TextOf(rest)), [NodeOf(e)] + KidsOf(rest)))
    decreases |x| - i, 1, 0
  {
    hide Loop, Element, Escape, Closing, At, IsName, Print, PrintItems, TextOf, KidsOf, NodeOf, Fits, ItemsFit,
        IsMarkup;
    var j := i + |Escape(pre)|;
    var k := j + |Print(e)|;
    AtSplit(x, j, Print(e), PrintItems(rest));
    ElementRead(x, j, e, depth);
    LoopText(x, i, pre, node, depth);
    var node' := AddKid(WithText(node, pre), NodeOf(e));
    assert Dispatch(x, j, WithText(node, pre), depth) == Loop(x, k, node', depth);
    EmptyText(x, k);
    ItemsRead(x, k, "", rest, name, node', depth);
    Assoc(node.text, pre, TextOf(rest));
    Assoc(node.kids, [NodeOf(e)], KidsOf(rest));
    assert "" + TextOf(rest) == TextOf(rest);
  }

  lemma EmptyText(x: string, i: nat)
    requires i <= |x|
    ensures At(x, i, Escape("")) && |Escape("")| == 0
  {
  }

  /** An element printed at position `i` is read as the node it stands for, and reading goes on
      right after it. */
  lemma {:induction false} ElementRead(x: string, i: nat, e: Elem, depth: nat)
    requires At(x, i, Print(e)) && depth <= MAX_DEPTH && Fits(e, MAX_DEPTH - depth)
    ensures i < i + |Print(e)| <= |x| && x[i] == '<' && !IsMarkup(x, i) && !At(x, i, "</")
    ensures Element(x, i, depth) == Parsed(true, i + |Print(e)|, NodeOf(e))
    decreases |x| - i, 0, 0
  {
    hide At, TagNode, TagEnd, AttrsText, AttrMap, Escape, Loop, PrintItems, TextOf, KidsOf, Closing, IsName, IsMarkup,
        ItemsFit;
    var tag := e.name + AttrsText(e.attrs);
    var end := if e.body.SelfClosed? then "/>" else ">" + (PrintItems(e.body.items) + Closing(e.name));
    AtSplit(x, i, "<" + tag, end);
    OpeningShape(x, i, e.name, AttrsText(e.attrs));
    TagNodeRead(e.name, e.attrs);
    match e.body
    case SelfClosed =>
      StartTag(x, i, e, "/>");
      assert (tag + "/")[..|tag|] == tag;
    case Content(items) =>
      var j := i + 1 + |tag|;
      AtSplit(x, j, ">", PrintItems(items) + Closing(e.name));
      AtSplit(x, j + 1, PrintItems(items), Closing(e.name));
      StartTag(x, i, e, ">");
      NotSelfClosing(e.name, e.attrs);
      assert tag + "" == tag;
      var node := XNode(e.name, "", AttrMap(map[], e.attrs), []);
      EmptyText(x, j + 1);
      ItemsRead(x, j + 1, "", items, e.name, node, depth + 1);
      assert Filled(node, "" + TextOf(items), KidsOf(items)) == NodeOf(e);
  }
}
