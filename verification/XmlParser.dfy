/** The XML reader of the report tools: escaping, entities, and the recursive element parser. */
module XmlParser {
  import Decimal
  import opened Concatenation

  // ----- searching -----

  /** `s` stands in `x` at position `i`. */
  predicate At(x: string, i: nat, s: string) {
    i + |s| <= |x| && x[i..i + |s|] == s
  }

  /** The first `c` at or after `i`, or the end of the text. */
  function Find(x: string, i: nat, c: char): (j: nat)
    requires i <= |x|
    ensures i <= j <= |x| && (j < |x| ==> x[j] == c) && forall k | i <= k < j :: x[k] != c
    decreases |x| - i
  {
    if i == |x| || x[i] == c then i else Find(x, i + 1, c)
  }

  /** The first occurrence of `pat` at or after `i`, or the end of the text. */
  function FindText(x: string, i: nat, pat: string): (j: nat)
    requires i <= |x|
    ensures i <= j <= |x| && (j < |x| ==> At(x, j, pat))
    decreases |x| - i
  {
    if i == |x| || At(x, i, pat) then i else FindText(x, i + 1, pat)
  }

  predicate IsSpace(c: char) {
    c == ' ' || c == '\t' || c == '\r' || c == '\n'
  }

  predicate IsQuote(c: char) {
    c == '"' || c == '\''
  }

  function FindSpace(x: string, i: nat): (j: nat)
    requires i <= |x|
    ensures i <= j <= |x| && (j < |x| ==> IsSpace(x[j])) && forall k | i <= k < j :: !IsSpace(x[k])
    decreases |x| - i
  {
    if i == |x| || IsSpace(x[i]) then i else FindSpace(x, i + 1)
  }

  function FindQuote(x: string, i: nat): (j: nat)
    requires i <= |x|
    ensures i <= j <= |x| && (j < |x| ==> IsQuote(x[j])) && forall k | i <= k < j :: !IsQuote(x[k])
    decreases |x| - i
  {
    if i == |x| || IsQuote(x[i]) then i else FindQuote(x, i + 1)
  }

  function TrimLeft(s: string): string {
    if s != "" && IsSpace(s[0]) then TrimLeft(s[1..]) else s
  }

  function TrimRight(s: string): string {
    if s != "" && IsSpace(s[|s| - 1]) then TrimRight(s[..|s| - 1]) else s
  }

  // ----- escaping -----

  /** `htmlEsc`, one character. */
  function EscapeChar(c: char): string {
    if c == '<' then "&lt;" else if c == '>' then "&gt;" else if c == '&' then "&amp;"
    else if c == '"' then "&quot;" else [c]
  }

  function Escape(s: string): string {
    if s == "" then "" else EscapeChar(s[0]) + Escape(s[1..])
  }

  predicate IsHexDigit(c: char) {
    '0' <= c <= '9' || 'a' <= c <= 'f' || 'A' <= c <= 'F'
  }

  function HexValue(c: char): nat
    requires IsHexDigit(c)
  {
    if c <= '9' then c as int - '0' as int else if c <= 'F' then c as int - 'A' as int + 10
        else c as int - 'a' as int + 10
  }

  const ULONG_MAX: nat := 0xFFFF_FFFF_FFFF_FFFF

  /** The number that the leading digits of `s` continue from `acc`, in base 16 or 10. */
  function DigitRun(s: string, hex: bool, acc: nat): nat {
    if s == "" || (if hex then !IsHexDigit(s[0]) else !Decimal.IsDigit(s[0])) then acc
    else
      var next := if hex then 16 * acc + HexValue(s[0]) else 10 * acc + Decimal.DigitValue(s[0]);
      DigitRun(s[1..], hex, next)
  }

  predicate CSpace(c: char) {
    c == ' ' || '\t' <= c <= '\r'
  }

  /** `strtoul`: blanks, a sign, for base 16 an optional `0x`, digits. An overflow saturates and a
      minus sign wraps. */
  function StrToUl(s: string, hex: bool): nat {
    if s != "" && CSpace(s[0]) then StrToUl(s[1..], hex)
    else
      var signed := s != "" && (s[0] == '+' || s[0] == '-');
      var t := if signed then s[1..] else s;
      var digits := if hex && |t| > 2 && t[0] == '0' && (t[1] == 'x' || t[1] == 'X') && IsHexDigit(t[2]) then t[2..]
          else t;
      var n := DigitRun(digits, hex, 0);
      if n > ULONG_MAX then ULONG_MAX else if signed && s[0] == '-' && n > 0 then ULONG_MAX + 1 - n else n
  }

  /** The code an entity stands for; 0 when it is not known. */
  function EntityCode(ent: string): nat {
    if ent == "amp" then '&' as nat
    else if ent == "lt" then '<' as nat
    else if ent == "gt" then '>' as nat
    else if ent == "quot" then '"' as nat
    else if ent == "apos" then '\'' as nat
    else if ent != "" && ent[0] == '#' then
      (if |ent| > 1 && ent[1] == 'x' then StrToUl(ent[2..], true) else StrToUl(ent[1..], false)) % 0x1_0000_0000
    else 0
  }

  /** The bytes written for a code: one, two or three, the third form for everything larger. */
  function Utf8(cp: nat): string {
    if cp < 0x80 then [cp as char]
    else if cp < 0x800 then [(0xC0 + cp / 0x40) as char, (0x80 + cp % 0x40) as char]
    else [(0xE0 + cp / 0x1000 % 0x10) as char, (0x80 + cp / 0x40 % 0x40) as char, (0x80 + cp % 0x40) as char]
  }

  /** What unescaping yields at position `i`: the text and the position after it. An ampersand
      that starts no known entity stands for itself. */
  function Piece(s: string, i: nat): (r: (string, nat))
    requires i < |s|
    ensures i < r.1 <= |s|
  {
    var e := Find(s, i, ';');
    if s[i] != '&' || e == |s| || EntityCode(s[i + 1..e]) == 0 then ([s[i]], i + 1)
    else (Utf8(EntityCode(s[i + 1..e])), e + 1)
  }

  function UnescapeFrom(s: string, i: nat): string
    requires i <= |s|
    decreases |s| - i
  {
    if i == |s| then "" else Piece(s, i).0 + UnescapeFrom(s, Piece(s, i).1)
  }

  /** `xmlUnescape`. */
  function Unescape(s: string): string {
    UnescapeFrom(s, 0)
  }

  // ----- elements -----

  datatype XNode = XNode(name: string, text: string, attrs: map<string, string>, kids: seq<XNode>)

  const MAX_DEPTH: nat := 64

  /** No open quote. */
  const NONE: char := '\0'

  function NextQuote(q: char, c: char): char {
    if q != NONE && c == q then NONE else if q == NONE && IsQuote(c) then c else q
  }

  /** The next `>` outside quotes, or the end of the text. */
  function TagEnd(x: string, i: nat, q: char): (e: nat)
    requires i <= |x|
    ensures i <= e <= |x|
    decreases |x| - i
  {
    if i == |x| || (q == NONE && x[i] == '>') then i else TagEnd(x, i + 1, NextQuote(q, x[i]))
  }

  /** The marks of an attribute from `p` on: `=`, the opening and the closing quote; the closing
      quote lies at the end of the tag when one of them is missing. */
  function Marks(tag: string, p: nat): (r: (nat, nat, nat))
    requires p <= |tag|
    ensures p <= r.0 <= r.1 <= r.2 <= |tag| && (r.2 < |tag| ==> r.1 < r.2)
  {
    var eq := Find(tag, p, '=');
    var qs := FindQuote(tag, eq);
    (eq, qs, if qs < |tag| then Find(tag, qs + 1, tag[qs]) else |tag|)
  }

  /** The name and the value of the attribute at `p`. */
  function Attribute(tag: string, p: nat): (string, string)
    requires p <= |tag| && Marks(tag, p).2 < |tag|
  {
    var (eq, qs, qe) := Marks(tag, p);
    (TrimRight(TrimLeft(tag[p..eq])), Unescape(tag[qs + 1..qe]))
  }

  /** The attributes of a tag from `p` on; reading stops where the pattern breaks. */
  function Attributes(tag: string, p: nat, attrs: map<string, string>): map<string, string>
    requires p <= |tag|
    decreases |tag| - p
  {
    var qe := Marks(tag, p).2;
    if qe == |tag| then attrs
    else
      var a := Attribute(tag, p);
      Attributes(tag, qe + 1, attrs[a.0 := a.1])
  }

  function LocalName(name: string): string {
    var c := Find(name, 0, ':');
    if c == |name| then name else name[c + 1..]
  }

  function TagNode(tag: string): XNode {
    var sp := FindSpace(tag, 0);
    XNode(LocalName(tag[..sp]), "", Attributes(tag, sp, map[]), [])
  }

  predicate SelfCloses(tag: string) {
    tag != "" && tag[|tag| - 1] == '/'
  }

  /** The outcome of parsing: success, the position reached, and the node filled so far. */
  datatype Parsed = Parsed(ok: bool, pos: nat, node: XNode)

  function After(x: string, i: nat, c: char): (j: nat)
    requires i < |x|
    ensures i < j <= |x|
  {
    if Find(x, i, c) == |x| then |x| else Find(x, i, c) + 1
  }

  function AfterText(x: string, i: nat, pat: string): (j: nat)
    requires i < |x| && pat != ""
    ensures i < j <= |x|
  {
    if FindText(x, i, pat) == |x| then |x| else FindText(x, i, pat) + |pat|
  }

  function WithText(node: XNode, text: string): XNode {
    node.(text := node.text + text)
  }

  function AddKid(node: XNode, kid: XNode): XNode {
    node.(kids := node.kids + [kid])
  }

  /** A comment, a CDATA section, a declaration or an instruction. */
  predicate IsMarkup(x: string, i: nat) {
    At(x, i, "<!") || At(x, i, "<?")
  }

  /** What such markup contributes to the text, and the position after it. */
  function Markup(x: string, i: nat): (m: (string, nat))
    requires i < |x|
    ensures i < m.1 <= |x|
  {
    if At(x, i, "<!--") then ("", AfterText(x, i, "-->"))
    else if At(x, i, "<![CDATA[") then
      var e := FindText(x, i, "]]>");
      (if e < i + 9 then "" else x[i + 9..e], AfterText(x, i, "]]>"))
    else ("", After(x, i, '>'))
  }

  const EMPTY_NODE := XNode("", "", map[], [])

  /** An element whose `<` is at `i`: its tag and, unless it closes itself, its content. */
  function Element(x: string, i: nat, depth: nat): (r: Parsed)
    requires i < |x|
    ensures i <= r.pos <= |x| && (r.ok ==> i < r.pos)
    decreases |x| - i, 0
  {
    var e := TagEnd(x, i + 1, NONE);
    if e == |x| then Parsed(false, i, EMPTY_NODE)
    else
      var tag := x[i + 1..e];
      if SelfCloses(tag) then Parsed(true, e + 1, TagNode(tag[..|tag| - 1]))
      else Parse(x, e + 1, TagNode(tag), depth + 1)
  }

  /** `parseXml`: fills `node` from position `i` on. */
  function Parse(x: string, i: nat, node: XNode, depth: nat): (r: Parsed)
    requires i <= |x|
    ensures i <= r.pos <= |x|
    decreases |x| - i, 3
  {
    if depth > MAX_DEPTH then Parsed(false, i, node) else Loop(x, i, node, depth)
  }

  function Loop(x: string, i: nat, node: XNode, depth: nat): (r: Parsed)
    requires i <= |x|
    ensures i <= r.pos <= |x|
    decreases |x| - i, 2
  {
    var lt := Find(x, i, '<');
    if lt == |x| then Parsed(depth == 0, i, node)
    else Dispatch(x, lt, WithText(node, Unescape(x[i..lt])), depth)
  }

  /** The branches on what starts with the `<` at `i`. */
  function Dispatch(x: string, i: nat, node: XNode, depth: nat): (r: Parsed)
    requires i < |x|
    ensures i <= r.pos <= |x|
    decreases |x| - i, 1
  {
    if IsMarkup(x, i) then Loop(x, Markup(x, i).1, WithText(node, Markup(x, i).0), depth)
    else if At(x, i, "</") then Parsed(true, After(x, i, '>'), node)
    else
      var kid := Element(x, i, depth);
      if !kid.ok then Parsed(false, kid.pos, node) else Loop(x, kid.pos, AddKid(node, kid.node), depth)
  }

  // ----- the loops of the source -----

  lemma EscapeStep(s: string, i: nat, o: string)
    requires i < |s|
    ensures o + Escape(s[i..]) == (o + EscapeChar(s[i])) + Escape(s[i + 1..])
  {
    assert s[i..][1..] == s[i + 1..];
  }

  method HtmlEsc(s: string) returns (o: string)
    ensures o == Escape(s)
  {
    o := "";
    assert s[0..] == s;
    for i := 0 to |s|
      invariant o + Escape(s[i..]) == Escape(s)
    {
      EscapeStep(s, i, o);
      var c := s[i];
      o := o + if c == '<' then "&lt;" else if c == '>' then "&gt;" else if c == '&' then "&amp;"
               else if c == '"' then "&quot;" else [c];
    }
  }

  method XmlUnescape(s: string) returns (o: string)
    ensures o == Unescape(s)
  {
    o := "";
    var i := 0;
    while i < |s|
      invariant i <= |s| && o + UnescapeFrom(s, i) == Unescape(s)
    {
      var piece := Piece(s, i);
      Assoc(o, piece.0, UnescapeFrom(s, piece.1));
      o := o + piece.0;
      i := piece.1;
    }
  }

  /** The scan for the end of a tag, with the quote that is open. */
  method ScanTag(x: string, start: nat) returns (e: nat)
    requires start <= |x|
    ensures e == TagEnd(x, start, NONE)
  {
    e := start;
    var q := NONE;
    while e < |x| && (q != NONE || x[e] != '>')
      invariant start <= e <= |x| && TagEnd(x, e, q) == TagEnd(x, start, NONE)
    {
      if q != NONE && x[e] == q {
        q := NONE;
      } else if q == NONE && (x[e] == '"' || x[e] == '\'') {
        q := x[e];
      }
      e := e + 1;
    }
  }

  lemma AttributesStep(tag: string, p: nat, attrs: map<string, string>)
    requires p <= |tag| && Marks(tag, p).2 < |tag|
    ensures Attributes(tag, p, attrs) ==
            Attributes(tag, Marks(tag, p).2 + 1, attrs[Attribute(tag, p).0 := Attribute(tag, p).1])
  {
  }

  lemma AttributesEnd(tag: string, p: nat, attrs: map<string, string>)
    requires p <= |tag| && Marks(tag, p).2 == |tag|
    ensures Attributes(tag, p, attrs) == attrs
  {
  }

  method ReadAttribute(tag: string, p: nat) returns (name: string, value: string)
    requires p <= |tag| && Marks(tag, p).2 < |tag|
    ensures (name, value) == Attribute(tag, p)
  {
    var (eq, qs, qe) := Marks(tag, p);
    value := XmlUnescape(tag[qs + 1..qe]);
    name := TrimRight(TrimLeft(tag[p..eq]));
  }

  /** One turn of the loop over the attributes. */
  method NextAttribute(tag: string, p: nat, attrs: map<string, string>) returns (next: nat, attrs': map<string, string>)
    requires p <= |tag| && Marks(tag, p).2 < |tag|
    ensures p < next <= |tag| && Attributes(tag, next, attrs') == Attributes(tag, p, attrs)
  {
    AttributesStep(tag, p, attrs);
    var name, value := ReadAttribute(tag, p);
    next, attrs' := Marks(tag, p).2 + 1, attrs[name := value];
  }

  method ReadAttributes(tag: string, start: nat) returns (attrs: map<string, string>)
    requires start <= |tag|
    ensures attrs == Attributes(tag, start, map[])
  {
    attrs := map[];
    var p := start;
    while Marks(tag, p).2 < |tag|
      invariant p <= |tag| && Attributes(tag, p, attrs) == Attributes(tag, start, map[])
      decreases |tag| - p
    {
      p, attrs := NextAttribute(tag, p, attrs);
    }
    AttributesEnd(tag, p, attrs);
  }

  method ReadTag(tag: string) returns (kid: XNode)
    ensures kid == TagNode(tag)
  {
    var sp := FindSpace(tag, 0);
    var attrs := ReadAttributes(tag, sp);
    return XNode(LocalName(tag[..sp]), "", attrs, []);
  }

  /** The element branch. */
  method ParseElement(x: string, start: nat, depth: nat) returns (ok: bool, i: nat, kid: XNode)
    requires start < |x|
    ensures Element(x, start, depth) == Parsed(ok, i, kid)
    decreases |x| - start, 0
  {
    hide TagNode, Parse, TagEnd;
    var e := ScanTag(x, start + 1);
    if e >= |x| {
      return false, start, EMPTY_NODE;
    }
    var tag := x[start + 1..e];
    var selfClose := tag != "" && tag[|tag| - 1] == '/';
    if selfClose {
      kid := ReadTag(tag[..|tag| - 1]);
      return true, e + 1, kid;
    }
    kid := ReadTag(tag);
    ok, i, kid := ParseXml(x, e + 1, kid, depth + 1);
  }

  /** `parseXml` with its index into the text. */
  method ParseXml(x: string, start: nat, node0: XNode, depth: nat) returns (ok: bool, i: nat, node: XNode)
    requires start <= |x|
    ensures Parse(x, start, node0, depth) == Parsed(ok, i, node)
    decreases |x| - start, 1
  {
    i, node := start, node0;
    if depth > MAX_DEPTH {
      return false, i, node;
    }
    ghost var whole := Parse(x, start, node0, depth);
    while i < |x|
      invariant start <= i <= |x|
      invariant whole == Loop(x, i, node, depth)
      decreases |x| - i
    {
      var lt := Find(x, i, '<');
      if lt == |x| {
        return depth == 0, i, node;
      }
      var text := XmlUnescape(x[i..lt]);
      node := WithText(node, text);
      i := lt;
      if IsMarkup(x, i) {
        var skipped := Markup(x, i);
        node := WithText(node, skipped.0);
        i := skipped.1;
      } else if At(x, i, "</") {
        return true, After(x, i, '>'), node;
      } else {
        var kidOk, j, kid := ParseElement(x, i, depth);
        i := j;
        if !kidOk {
          return false, i, node;
        }
        node := AddKid(node, kid);
      }
    }
    return depth == 0, i, node;
  }
}
