/** What the XML reader makes of the markup that the program's own reports do not use: sections,
    comments, declarations, character references, prefixes and deep nesting. */
module XmlMarkup {
  import opened XmlParser
  import opened XmlRoundTrip
  import Decimal

  // ----- sections, comments and declarations -----

  lemma {:induction false} FindTextIs(x: string, i: nat, j: nat, pat: string)
    requires i <= j < |x| && At(x, j, pat) && forall k | i <= k < j :: !At(x, k, pat)
    ensures FindText(x, i, pat) == j
    decreases j - i
  {
    hide At;
    if i < j {
      FindTextIs(x, i + 1, j, pat);
    }
  }

  lemma MarkupDispatched(x: string, i: nat, node: XNode, depth: nat)
    requires i < |x| && x[i] == '<' && IsMarkup(x, i)
    ensures Loop(x, i, node, depth) == Loop(x, Markup(x, i).1, WithText(node, Markup(x, i).0), depth)
  {
    hide Markup, IsMarkup;
    assert Find(x, i, '<') == i && x[i..i] == "";
    assert WithText(node, Unescape("")) == node by {
      assert Unescape("") == "" && node.text + "" == node.text;
    }
  }

  /** Text where `]]>` does not occur. */
  ghost predicate NoEnd(s: string) {
    forall k: nat | k < |s| :: !At(s, k, "]]>")
  }

  /** The text of a CDATA section is taken as it stands: no entity and no tag in it is read (section
      2.7 of XML 1.0). */
  lemma SectionKept(x: string, i: nat, s: string, node: XNode, depth: nat)
    requires At(x, i, "<![CDATA[" + (s + "]]>")) && NoEnd(s)
    ensures i < |x| && i + |s| + 12 <= |x|
    ensures Loop(x, i, node, depth) == Loop(x, i + |s| + 12, node.(text := node.text + s), depth)
  {
    hide At, Loop, NoEnd;
    var open, j := "<![CDATA[", i + 9;
    AtSplit(x, i, open, s + "]]>");
    AtSplit(x, j, s, "]]>");
    AtChars(x, i, open);
    AtChars(x, j, s);
    AtChars(x, j + |s|, "]]>");
    SectionStarts(x, i);
    forall k | i <= k < j + |s|
      ensures !At(x, k, "]]>")
    {
      NotTheEnd(x, i, k, s);
    }
    FindTextIs(x, i, j + |s|, "]]>");
    SectionMarkup(x, i, s);
    MarkupDispatched(x, i, node, depth);
  }

  lemma SectionStarts(x: string, i: nat)
    requires At(x, i, "<![CDATA[")
    ensures i < |x| && x[i] == '<' && IsMarkup(x, i) && !At(x, i, "<!--")
  {
    var open := "<![CDATA[";
    AtChars(x, i, open);
    assert x[i + 0] == open[0] && x[i + 1] == open[1] && x[i + 2] == open[2];
    assert x[i..i + 2] == "<!";
    NotAt(x, i, "<!--", 2);
  }

  lemma NotAt(x: string, i: nat, s: string, k: nat)
    requires k < |s| && (i + k < |x| ==> x[i + k] != s[k])
    ensures !At(x, i, s)
  {
    if At(x, i, s) {
      AtChar(x, i, s, k);
    }
  }

  lemma NotTheEnd(x: string, i: nat, k: nat, s: string)
    requires At(x, i, "<![CDATA[") && At(x, i + 9, s) && At(x, i + 9 + |s|, "]]>") && NoEnd(s)
    requires i <= k < i + 9 + |s|
    ensures !At(x, k, "]]>")
  {
    hide At;
    var open, end, j := "<![CDATA[", "]]>", i + 9;
    AtChars(x, i, open);
    AtChars(x, j, s);
    AtChars(x, j + |s|, end);
    if k < j {
      assert x[k] == open[k - i];
      NotAt(x, k, end, 0);
    } else if k + 2 < j + |s| {
      InsideSection(x, j, k, s);
    } else {
      assert x[k + 2] == end[k + 2 - j - |s|];
      NotAt(x, k, end, 2);
    }
  }

  lemma InsideSection(x: string, j: nat, k: nat, s: string)
    requires At(x, j, s) && NoEnd(s) && j <= k && k + 2 < j + |s|
    ensures !At(x, k, "]]>")
  {
    AtChars(x, j, s);
    assert !At(s, k - j, "]]>");
    assert s[k - j..k - j + 3] == x[k..k + 3];
  }

  lemma SectionMarkup(x: string, i: nat, s: string)
    requires At(x, i, "<![CDATA[") && !At(x, i, "<!--") && i < |x|
    requires i + 9 + |s| < |x| && FindText(x, i, "]]>") == i + 9 + |s| && x[i + 9..i + 9 + |s|] == s
    ensures Markup(x, i) == (s, i + 12 + |s|)
  {
    hide At;
  }

  /** A comment contributes nothing. */
  lemma CommentSkipped(x: string, i: nat, s: string, node: XNode, depth: nat)
    requires At(x, i, "<!--" + (s + "-->")) && forall k: nat | i <= k < i + 4 + |s| :: !At(x, k, "-->")
    ensures i + |s| + 7 <= |x| && Loop(x, i, node, depth) == Loop(x, i + |s| + 7, node, depth)
  {
    hide At, Loop;
    AtSplit(x, i, "<!--", s + "-->");
    AtSplit(x, i + 4, s, "-->");
    AtChars(x, i, "<!--");
    AtChars(x, i + 4 + |s|, "-->");
    assert x[i + 0] == "<!--"[0];
    FindTextIs(x, i, i + 4 + |s|, "-->");
    AtSplit(x, i, "<!", "--");
    assert "<!" + "--" == "<!--";
    MarkupDispatched(x, i, node, depth);
    assert Markup(x, i) == ("", i + |s| + 7);
    assert node.text + "" == node.text;
  }

  /** Any other declaration and every instruction is skipped up to the next `>`. */
  lemma DeclarationSkipped(x: string, i: nat, e: nat, node: XNode, depth: nat)
    requires At(x, i, "<?") || (At(x, i, "<!") && !At(x, i, "<!--") && !At(x, i, "<![CDATA["))
    requires i <= e < |x| && x[e] == '>' && forall k | i <= k < e :: x[k] != '>'
    ensures Loop(x, i, node, depth) == Loop(x, e + 1, node, depth)
  {
    hide Loop;
    if At(x, i, "<?") {
      InstructionStarts(x, i);
    } else {
      AtChar(x, i, "<!", 0);
    }
    FindIs(x, i, e, '>');
    MarkupDispatched(x, i, node, depth);
    assert Markup(x, i) == ("", e + 1);
    assert node.text + "" == node.text;
  }

  lemma InstructionStarts(x: string, i: nat)
    requires At(x, i, "<?")
    ensures i < |x| && x[i] == '<' && !At(x, i, "<!--") && !At(x, i, "<![CDATA[")
  {
    AtChar(x, i, "<?", 0);
    AtChar(x, i, "<?", 1);
    NotAt(x, i, "<!--", 1);
    NotAt(x, i, "<![CDATA[", 1);
  }

  // ----- character references -----

  /** The number that hexadecimal digits denote. */
  function HexNumber(s: string): nat
    requires forall i | 0 <= i < |s| :: IsHexDigit(s[i])
  {
    if s == "" then 0 else 16 * HexNumber(s[..|s| - 1]) + HexValue(s[|s| - 1])
  }

  lemma HexDigitValues(d: nat)
    requires d < 16
    ensures IsHexDigit("0123456789abcdef"[d]) && HexValue("0123456789abcdef"[d]) == d
    ensures IsHexDigit("0123456789ABCDEF"[d]) && HexValue("0123456789ABCDEF"[d]) == d
  {
  }

  predicate AllHex(s: string) {
    forall i | 0 <= i < |s| :: IsHexDigit(s[i])
  }

  lemma {:induction false} DecimalSnoc(s: string, c: char, acc: nat)
    requires Decimal.AllDigits(s) && Decimal.IsDigit(c)
    ensures DigitRun(s + [c], false, acc) == 10 * DigitRun(s, false, acc) + Decimal.DigitValue(c)
    decreases |s|
  {
    var all := s + [c];
    if s == "" {
      assert all[1..] == "";
      var next := 10 * acc + Decimal.DigitValue(c);
      assert DigitRun("", false, next) == next;
    } else {
      assert all[0] == s[0] && all[1..] == s[1..] + [c];
      DecimalSnoc(s[1..], c, 10 * acc + Decimal.DigitValue(s[0]));
    }
  }

  lemma {:induction false} DecimalRun(s: string)
    requires Decimal.AllDigits(s)
    ensures DigitRun(s, false, 0) == Decimal.Value(s)
  {
    if s != "" {
      var n := |s| - 1;
      assert s == s[..n] + [s[n]];
      DecimalRun(s[..n]);
      DecimalSnoc(s[..n], s[n], 0);
    }
  }

  lemma {:induction false} HexSnoc(s: string, c: char, acc: nat)
    requires AllHex(s) && IsHexDigit(c)
    ensures DigitRun(s + [c], true, acc) == 16 * DigitRun(s, true, acc) + HexValue(c)
    decreases |s|
  {
    var all := s + [c];
    if s == "" {
      assert all[1..] == "";
      var next := 16 * acc + HexValue(c);
      assert DigitRun("", true, next) == next;
    } else {
      assert all[0] == s[0] && all[1..] == s[1..] + [c];
      HexSnoc(s[1..], c, 16 * acc + HexValue(s[0]));
    }
  }

  lemma {:induction false} HexRun(s: string)
    requires AllHex(s)
    ensures DigitRun(s, true, 0) == HexNumber(s)
  {
    if s != "" {
      var n := |s| - 1;
      assert s == s[..n] + [s[n]];
      HexRun(s[..n]);
      HexSnoc(s[..n], s[n], 0);
    }
  }

  /** A decimal reference stands for its number, of 32 bits. */
  lemma DecimalReference(n: nat)
    requires n < 0x1_0000_0000
    ensures EntityCode("#" + Decimal.Text(n)) == n
  {
    hide EntityCode, StrToUl, DigitRun, Decimal.Value;
    var s := Decimal.Text(n);
    var ent := "#" + s;
    DecimalRun(s);
    assert Decimal.IsDigit(s[0]);
    assert ent[0] == '#' && ent[1] == s[0] && ent[1..] == s;
    DecimalNumber(s);
    NumericCode(ent);
  }

  lemma NumericCode(ent: string)
    requires |ent| > 1 && ent[0] == '#'
    ensures EntityCode(ent) ==
            (if ent[1] == 'x' then StrToUl(ent[2..], true) else StrToUl(ent[1..], false)) % 0x1_0000_0000
  {
    hide StrToUl;
  }

  lemma DecimalNumber(s: string)
    requires Decimal.AllDigits(s) && s != "" && DigitRun(s, false, 0) <= 0xFFFF_FFFF_FFFF_FFFF
    ensures StrToUl(s, false) == DigitRun(s, false, 0)
  {
    hide DigitRun;
    assert Decimal.IsDigit(s[0]);
  }

  lemma HexaNumber(s: string)
    requires AllHex(s) && s != "" && DigitRun(s, true, 0) <= 0xFFFF_FFFF_FFFF_FFFF
    ensures StrToUl(s, true) == DigitRun(s, true, 0)
  {
    hide DigitRun;
    assert IsHexDigit(s[0]);
    if |s| > 1 {
      assert IsHexDigit(s[1]);
    }
  }

  /** So does a hexadecimal one. */
  lemma HexReference(s: string)
    requires AllHex(s) && s != "" && HexNumber(s) < 0x1_0000_0000
    ensures EntityCode("#x" + s) == HexNumber(s)
  {
    hide EntityCode, StrToUl, DigitRun, HexNumber;
    var ent := "#x" + s;
    HexRun(s);
    assert ent[0] == '#' && ent[1] == 'x' && ent[2..] == s;
    HexaNumber(s);
    NumericCode(ent);
  }

  // How `strtoul` reads a number (section 7.22.1.4 of ISO/IEC 9899).

  /** White space in front does not count. */
  lemma BlanksSkipped(c: char, s: string, hex: bool)
    requires c as int == 32 || 9 <= c as int <= 13
    ensures StrToUl([c] + s, hex) == StrToUl(s, hex)
  {
    assert ([c] + s)[1..] == s;
  }

  ghost predicate DigitAt(s: string, hex: bool) {
    s != "" && if hex then IsHexDigit(s[0]) else '0' <= s[0] <= '9'
  }

  /** No prefix that would be skipped. */
  ghost predicate Unprefixed(s: string) {
    |s| < 2 || s[0] != '0' || (s[1] != 'x' && s[1] != 'X')
  }

  /** A sign may stand before the digits: a minus takes the number from two to the 64. A number that
      does not fit is the largest one. */
  lemma SignRead(s: string, hex: bool)
    requires DigitAt(s, hex) && (hex ==> Unprefixed(s))
    ensures var n := DigitRun(s, hex, 0);
            && (n < 0x1_0000_0000_0000_0000 ==>
                  && StrToUl(s, hex) == n == StrToUl("+" + s, hex)
                  && StrToUl("-" + s, hex) == if n == 0 then 0 else 0x1_0000_0000_0000_0000 - n)
            && (n >= 0x1_0000_0000_0000_0000 ==>
                  StrToUl(s, hex) == StrToUl("+" + s, hex) == StrToUl("-" + s, hex) == 0xFFFF_FFFF_FFFF_FFFF)
  {
    hide DigitRun;
    assert ("+" + s)[1..] == s && ("-" + s)[1..] == s && ("+" + s)[0] == '+' && ("-" + s)[0] == '-';
  }

  /** A hexadecimal number may have a prefix of its own. */
  lemma PrefixRead(s: string, x: char)
    requires DigitAt(s, true) && (x == 'x' || x == 'X') && DigitRun(s, true, 0) < 0x1_0000_0000_0000_0000
    ensures StrToUl("0" + ([x] + s), true) == DigitRun(s, true, 0)
  {
    hide DigitRun;
    var t := "0" + ([x] + s);
    assert t[0] == '0' && t[1] == x && t[2] == s[0] && t[2..] == s;
  }

  /** What follows the digits is ignored. */
  lemma {:induction false} RestIgnored(s: string, t: string, hex: bool, acc: nat)
    requires forall i | 0 <= i < |s| :: DigitAt(s[i..], hex)
    requires !DigitAt(t, hex)
    ensures DigitRun(s + t, hex, acc) == DigitRun(s, hex, acc)
    decreases |s|
  {
    if s == "" {
      assert s + t == t;
    } else {
      assert DigitAt(s[0..], hex) && s[0..] == s;
      assert (s + t)[0] == s[0] && (s + t)[1..] == s[1..] + t;
      forall i | 0 <= i < |s[1..]|
        ensures DigitAt(s[1..][i..], hex)
      {
        assert s[1..][i..] == s[i + 1..];
      }
      RestIgnored(s[1..], t, hex,
                  if hex then 16 * acc + HexValue(s[0]) else 10 * acc + Decimal.DigitValue(s[0]));
    }
  }

  /** The five names, and nothing for any other. */
  lemma NamedEntities(ent: string)
    ensures EntityCode("amp") == 38 && EntityCode("lt") == 60 && EntityCode("gt") == 62
    ensures EntityCode("quot") == 34 && EntityCode("apos") == 39
    ensures ent !in {"amp", "lt", "gt", "quot", "apos"} && (ent == "" || ent[0] != '#') ==> EntityCode(ent) == 0
  {
    assert '&' as nat == 38 && '<' as nat == 60 && '>' as nat == 62 && '"' as nat == 34 && '\'' as nat == 39;
  }

  /** A reference is replaced by the bytes of its code. */
  lemma ReferenceRead(x: string, i: nat, ent: string)
    requires At(x, i, "&" + (ent + ";")) && ';' !in ent && EntityCode(ent) != 0
    ensures i < |x| && Piece(x, i) == (Utf8(EntityCode(ent)), i + |ent| + 2)
  {
    hide At, EntityCode, Find, Utf8;
    var all := "&" + (ent + ";");
    AtChars(x, i, all);
    assert x[i + 0] == all[0] == '&';
    assert forall k | 0 <= k < |ent| :: all[1 + k] == ent[k];
    assert forall k | i <= k < i + 1 + |ent| :: x[k] != ';';
    FindIs(x, i, i + 1 + |ent|, ';');
    assert x[i + 1..i + 1 + |ent|] == ent;
  }

  /** The code that one to three bytes of UTF-8 stand for (section 3 of RFC 3629). */
  function Decoded(b: string): nat {
    match |b|
    case 1 => b[0] as nat
    case 2 => if b[0] as int >= 0xC0 && b[1] as int >= 0x80 then (b[0] as int - 0xC0) * 64 + (b[1] as int - 0x80) else 0
    case 3 =>
      if b[0] as int >= 0xE0 && b[1] as int >= 0x80 && b[2] as int >= 0x80
      then (b[0] as int - 0xE0) * 4096 + (b[1] as int - 0x80) * 64 + (b[2] as int - 0x80) else 0
    case _ => 0
  }

  ghost predicate Continuation(c: char) {
    0x80 <= c as int <= 0xBF
  }

  /** The bytes are UTF-8 for the code, up to the end of the basic plane; beyond it only the lower
      16 bits are written. */
  lemma Utf8Decodes(cp: nat)
    ensures var b := Utf8(cp);
            && (cp < 0x80 ==> |b| == 1)
            && (0x80 <= cp < 0x800 ==> |b| == 2 && 0xC2 <= b[0] as int <= 0xDF && Continuation(b[1]))
            && (0x800 <= cp ==> |b| == 3 && 0xE0 <= b[0] as int <= 0xEF && Continuation(b[1]) && Continuation(b[2]))
            && Decoded(b) == (if cp < 0x800 then cp else cp % 0x10000)
  {
    if cp >= 0x800 {
      ThreeBytes(cp);
    }
  }

  lemma ThreeBytes(cp: nat)
    ensures (cp / 0x1000 % 0x10) * 4096 + (cp / 0x40 % 0x40) * 64 + cp % 0x40 == cp % 0x10000
  {
    var a, b := cp / 0x40, cp / 0x1000;
    var c := b / 0x10;
    assert cp == 0x40 * a + cp % 0x40 && a == 0x40 * b + a % 0x40 && b == 0x10 * c + b % 0x10;
    var rest := (b % 0x10) * 4096 + (a % 0x40) * 64 + cp % 0x40;
    assert cp == 0x10000 * c + rest && 0 <= rest < 0x10000;
  }

  lemma Utf8ExactIff(cp: nat)
    ensures Decoded(Utf8(cp)) == cp <==> cp < 0x10000
  {
    hide Utf8, Decoded;
    Utf8Decodes(cp);
  }

  // ----- names and nesting -----

  /** The prefix of a name is dropped, up to the first colon. */
  lemma PrefixDropped(prefix: string, name: string)
    requires ':' !in prefix
    ensures LocalName(prefix + ":" + name) == name && LocalName(prefix) == prefix
  {
    var all := prefix + ":" + name;
    assert forall k | 0 <= k < |prefix| :: all[k] == prefix[k] && prefix[k] != ':';
    FindIs(all, 0, |prefix|, ':');
    assert all[|prefix| + 1..] == name;
  }

  /** `m` opening tags one after the other. */
  function Opened(m: nat): string {
    if m == 0 then "" else "<a>" + Opened(m - 1)
  }

  lemma OpenTag(x: string, i: nat, node: XNode, depth: nat)
    requires At(x, i, "<a>")
    ensures i + 3 <= |x|
    ensures var kid := Parse(x, i + 3, TagNode("a"), depth + 1);
            Loop(x, i, node, depth) ==
            if kid.ok then Loop(x, kid.pos, AddKid(node, kid.node), depth) else Parsed(false, kid.pos, node)
  {
    AtChars(x, i, "<a>");
    assert x[i + 0] == '<' && x[i + 1] == 'a' && x[i + 2] == '>';
    assert Find(x, i, '<') == i && x[i..i] == "" && Unescape("") == "" && node.text + "" == node.text;
    assert TagEnd(x, i + 1, NONE) == i + 2;
    assert x[i + 1..i + 2] == "a";
    NotAt(x, i, "<!", 1);
    NotAt(x, i, "<?", 1);
    NotAt(x, i, "</", 1);
    assert !SelfCloses("a");
    hide Parse, TagNode, At, Find, TagEnd, Unescape;
    assert Element(x, i, depth) == Parse(x, i + 3, TagNode("a"), depth + 1);
    assert WithText(node, Unescape(x[i..i])) == node;
    assert Loop(x, i, node, depth) == Dispatch(x, i, node, depth);
  }

  /** More than 64 open elements are refused, whatever follows. */
  lemma {:induction false} NestingRefused(x: string, i: nat, m: nat, node: XNode, depth: nat)
    requires i <= |x| && At(x, i, Opened(m)) && depth + m > 64
    ensures !Parse(x, i, node, depth).ok
    decreases m
  {
    hide At, Loop, TagNode;
    if depth <= 64 {
      AtSplit(x, i, "<a>", Opened(m - 1));
      OpenTag(x, i, node, depth);
      NestingRefused(x, i + 3, m - 1, TagNode("a"), depth + 1);
    }
  }

  /** Up to 64 are read, whatever their content: the reader goes on with it. */
  lemma NestingAllowed(x: string, i: nat, node: XNode, depth: nat)
    requires i <= |x| && depth <= 64
    ensures Parse(x, i, node, depth) == Loop(x, i, node, depth)
  {
  }

  // ----- attributes in any spelling -----

  ghost predicate Blank(s: string) {
    forall i | 0 <= i < |s| :: s[i] in {' ', '\t', '\r', '\n'}
  }

  lemma {:induction false} LeftTrimmed(before: string, s: string)
    requires Blank(before) && s != "" && s[0] !in {' ', '\t', '\r', '\n'}
    ensures TrimLeft(before + s) == s
  {
    if before == "" {
      assert before + s == s;
    } else {
      assert (before + s)[1..] == before[1..] + s && (before + s)[0] == before[0];
      LeftTrimmed(before[1..], s);
    }
  }

  lemma {:induction false} RightTrimmed(s: string, after: string)
    requires Blank(after) && s != "" && s[|s| - 1] !in {' ', '\t', '\r', '\n'}
    ensures TrimRight(s + after) == s
  {
    var all, n := s + after, |s + after| - 1;
    if after == "" {
      assert all == s;
    } else {
      assert all[..n] == s + after[..|after| - 1] && all[n] == after[|after| - 1];
      RightTrimmed(s, after[..|after| - 1]);
    }
  }

  /** An attribute with blanks around its name and its `=`, and either kind of quotes; the other kind
      may occur in its value. */
  function Spelled(before: string, name: string, after: string, gap: string, q: char, v: string): string {
    (before + (name + after)) + ("=" + (gap + ([q] + (v + [q]))))
  }

  lemma AnyAttributeRead(tag: string, p: nat, before: string, name: string, after: string, gap: string, q: char,
      v: string)
    requires Blank(before) && IsName(name) && Blank(after) && Blank(gap) && q in {'"', '\''} && q !in v
    requires At(tag, p, Spelled(before, name, after, gap, q, v))
    ensures p <= |tag| && Marks(tag, p).2 < |tag|
    ensures Marks(tag, p).2 + 1 == p + |Spelled(before, name, after, gap, q, v)|
    ensures Attribute(tag, p) == (name, Unescape(v))
  {
    hide At, Unescape, TrimLeft, TrimRight, Find, FindQuote, Blank, IsName;
    var head, eq := before + (name + after), p + |before| + |name| + |after|;
    var qs := eq + 1 + |gap|;
    AtSplit(tag, p, head, "=" + (gap + ([q] + (v + [q]))));
    AtSplit(tag, eq, "=", gap + ([q] + (v + [q])));
    AtSplit(tag, eq + 1, gap, [q] + (v + [q]));
    AtSplit(tag, qs, [q], v + [q]);
    AtSplit(tag, qs + 1, v, [q]);
    AnyMarks(tag, p, head, gap, q, v, before, name, after);
    AtChars(tag, p, head);
    AtChars(tag, qs + 1, v);
    NameTrimmed(before, name, after);
  }

  lemma NameTrimmed(before: string, name: string, after: string)
    requires Blank(before) && IsName(name) && Blank(after)
    ensures TrimRight(TrimLeft(before + (name + after))) == name
  {
    hide TrimLeft, TrimRight, Blank;
    assert NameChar(name[0]) && NameChar(name[|name| - 1]);
    LeftTrimmed(before, name + after);
    RightTrimmed(name, after);
  }

  lemma HeadHasNoMark(before: string, name: string, after: string)
    requires Blank(before) && IsName(name) && Blank(after)
    ensures var head := before + (name + after);
            forall k | 0 <= k < |head| :: head[k] != '='
  {
    var head := before + (name + after);
    forall k | 0 <= k < |head|
      ensures head[k] != '='
    {
      if k < |before| {
        assert head[k] == before[k];
      } else if k < |before| + |name| {
        assert head[k] == name[k - |before|];
      } else {
        assert head[k] == after[k - |before| - |name|];
      }
    }
  }

  lemma AnyMarks(tag: string, p: nat, head: string, gap: string, q: char, v: string, before: string, name: string,
      after: string)
    requires Blank(before) && IsName(name) && Blank(after) && Blank(gap) && q in {'"', '\''} && q !in v
    requires head == before + (name + after) && At(tag, p, head) && At(tag, p + |head|, "=")
    requires var qs := p + |head| + 1 + |gap|;
             At(tag, p + |head| + 1, gap) && At(tag, qs, [q]) && At(tag, qs + 1, v) && At(tag, qs + 1 + |v|, [q])
    ensures p <= |tag|
    ensures var qs := p + |head| + 1 + |gap|; Marks(tag, p) == (p + |head|, qs, qs + 1 + |v|) && qs + 1 + |v| < |tag|
  {
    hide At, IsName, Find, FindQuote, Blank, IsQuote;
    var eq := p + |head|;
    var qs := eq + 1 + |gap|;
    HeadHasNoMark(before, name, after);
    FoundBehind(tag, p, head, '=');
    QuoteBehind(tag, eq, gap, q);
    assert forall k | 0 <= k < |v| :: v[k] != q;
    FoundBehind(tag, qs + 1, v, q);
    AtChar(tag, qs, [q], 0);
  }

  lemma FoundBehind(x: string, i: nat, s: string, c: char)
    requires At(x, i, s) && At(x, i + |s|, [c]) && forall k | 0 <= k < |s| :: s[k] != c
    ensures i + |s| < |x| && Find(x, i, c) == i + |s|
  {
    AtChars(x, i, s);
    AtChar(x, i + |s|, [c], 0);
    FindIs(x, i, i + |s|, c);
  }

  lemma QuoteBehind(x: string, i: nat, gap: string, q: char)
    requires At(x, i, "=") && At(x, i + 1, gap) && Blank(gap) && At(x, i + 1 + |gap|, [q]) && q in {'"', '\''}
    ensures i + 1 + |gap| < |x| && FindQuote(x, i) == i + 1 + |gap|
  {
    AtChar(x, i, "=", 0);
    AtChars(x, i + 1, gap);
    AtChar(x, i + 1 + |gap|, [q], 0);
  }

  lemma {:induction false} InsideQuotes(x: string, i: nat, v: string, q: char)
    requires At(x, i, v) && q !in v && q != NONE
    ensures TagEnd(x, i, q) == TagEnd(x, i + |v|, q)
    decreases |v|
  {
    if v != "" {
      AtChar(x, i, v, 0);
      assert v == [v[0]] + v[1..];
      AtSplit(x, i, [v[0]], v[1..]);
      InsideQuotes(x, i + 1, v[1..], q);
    }
  }

  /** A `>` between quotes of either kind does not end the tag. */
  lemma QuotedMarkPassed(x: string, i: nat, v: string, q: char)
    requires q in {'"', '\''} && q !in v && At(x, i, [q] + (v + [q]))
    ensures i + |v| + 2 <= |x| && TagEnd(x, i, NONE) == TagEnd(x, i + |v| + 2, NONE)
  {
    hide At;
    AtSplit(x, i, [q], v + [q]);
    AtSplit(x, i + 1, v, [q]);
    AtChar(x, i, [q], 0);
    AtChar(x, i + 1 + |v|, [q], 0);
    InsideQuotes(x, i + 1, v, q);
  }
}
