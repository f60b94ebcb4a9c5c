/** The generator of regular expressions that match the decimal numerals above a number. */
module AboveRegex {
  import opened Decimal
  import opened Concatenation

  datatype Regex =
    | Lit(text: string)
    | Class(lo: char, hi: char)
    | Cat(first: Regex, second: Regex)
    | Exactly(item: Regex, times: nat)
    | AtLeast(item: Regex, times: nat)
    | Alt(options: seq<Regex>)

  /** `w` as a whole is matched by `r`. */
  ghost predicate Matches(r: Regex, w: string)
    decreases r, 0
  {
    match r
    case Lit(t) => w == t
    case Class(lo, hi) => |w| == 1 && lo <= w[0] <= hi
    case Cat(a, b) => exists j | 0 <= j <= |w| :: Matches(a, w[..j]) && Matches(b, w[j..])
    case Exactly(x, n) => Power(x, n, w)
    case AtLeast(x, n) => exists m :: n <= m && Power(x, m, w)
    case Alt(rs) => exists i | 0 <= i < |rs| :: Matches(rs[i], w)
  }

  /** `w` is `n` words in a row, each matched by `r`. */
  ghost predicate Power(r: Regex, n: nat, w: string)
    decreases r, 1, n
  {
    if n == 0 then w == "" else exists j | 0 <= j <= |w| :: Matches(r, w[..j]) && Power(r, n - 1, w[j..])
  }

  function Brackets(lo: char, hi: char): string {
    ['[', lo, '-', hi, ']']
  }

  /** The expression as text. */
  function Show(r: Regex): string
    decreases r
  {
    match r
    case Lit(t) => t
    case Class(lo, hi) => Brackets(lo, hi)
    case Cat(a, b) => Show(a) + Show(b)
    case Exactly(x, n) => Show(x) + ("{" + Text(n) + "}")
    case AtLeast(x, n) => Show(x) + ("{" + Text(n) + ",}")
    case Alt(rs) => "(" + ShowAll(rs, |rs|) + ")"
  }

  /** The first `k` alternatives, separated by bars. */
  function ShowAll(rs: seq<Regex>, k: nat): string
    requires k <= |rs|
    decreases rs, k
  {
    if k == 0 then "" else if k == 1 then Show(rs[0])
    else ShowAll(rs, k - 1) + ("|" + Show(rs[k - 1]))
  }

  const DIGIT := Class('0', '9')

  function Longer(s: string): Regex {
    Cat(Class('1', '9'), AtLeast(DIGIT, |s|))
  }

  /** Numerals that agree with `s` before index `i` and have a larger digit there. */
  function LargerAt(s: string, i: nat): Regex
    requires i < |s| && AllDigits(s) && s[i] != '9'
  {
    var head := Cat(Lit(s[..i]), Class(DigitChar(DigitValue(s[i]) + 1), '9'));
    var rest := |s| - i - 1;
    if rest > 0 then Cat(head, Exactly(DIGIT, rest)) else head
  }

  function Options(s: string, k: nat): seq<Regex>
    requires k <= |s| && AllDigits(s)
  {
    if k == 0 then [Longer(s)]
    else if s[k - 1] == '9' then Options(s, k - 1)
    else Options(s, k - 1) + [LargerAt(s, k - 1)]
  }

  function AboveExpression(n: nat): Regex {
    var s := Text(n);
    Alt(Options(s, |s|))
  }

  // ----- the generator -----

  function Shown(rs: seq<Regex>): (texts: seq<string>)
    ensures |texts| == |rs|
    ensures forall i | 0 <= i < |rs| :: texts[i] == Show(rs[i])
  {
    seq(|rs|, i requires 0 <= i < |rs| => Show(rs[i]))
  }

  method JoinBars(texts: seq<string>, ghost rs: seq<Regex>) returns (out: string)
    requires texts == Shown(rs)
    ensures out == ShowAll(rs, |rs|)
  {
    out := "";
    for k := 0 to |texts|
      invariant out == ShowAll(rs, k)
    {
      out := if k == 0 then texts[0] else out + ("|" + texts[k]);
    }
  }

  lemma LongerText(s: string)
    ensures Show(Longer(s)) == "[1-9]" + ("[0-9]" + ("{" + Text(|s|) + ",}"))
  {
    hide Text;
    assert Show(Class('1', '9')) == "[1-9]" && Show(DIGIT) == "[0-9]";
    assert Show(AtLeast(DIGIT, |s|)) == "[0-9]" + ("{" + Text(|s|) + ",}");
  }

  lemma DigitText(v: nat)
    requires v < 10
    ensures Brackets(DigitChar(v), '9') == "[" + Text(v) + "-9]"
  {
    assert Text(v) == [DigitChar(v)];
  }

  /** The text of one alternative. */
  function LargerText(s: string, i: nat): string
    requires i < |s| && AllDigits(s)
  {
    var head, rest := s[..i] + ("[" + Text(DigitValue(s[i]) + 1) + "-9]"), |s| - i - 1;
    if rest > 0 then head + ("[0-9]" + ("{" + Text(rest) + "}")) else head
  }

  lemma LargerShown(s: string, i: nat)
    requires i < |s| && AllDigits(s) && s[i] != '9'
    ensures Show(LargerAt(s, i)) == LargerText(s, i)
  {
    hide Text;
    var v, rest := DigitValue(s[i]) + 1, |s| - i - 1;
    DigitText(v);
    assert Show(Cat(Lit(s[..i]), Class(DigitChar(v), '9'))) == s[..i] + Brackets(DigitChar(v), '9');
    assert Show(DIGIT) == "[0-9]";
    assert Show(Exactly(DIGIT, rest)) == "[0-9]" + ("{" + Text(rest) + "}");
  }

  /** `above` */
  method Above(n: nat) returns (text: string)
    ensures text == Show(AboveExpression(n))
  {
    var s := Text(n);
    LongerText(s);
    var alts := ["[1-9]" + ("[0-9]" + ("{" + Text(|s|) + ",}"))];
    for i := 0 to |s|
      invariant alts == Shown(Options(s, i))
    {
      if s[i] != '9' {
        LargerShown(s, i);
        alts := alts + [LargerText(s, i)];
      }
    }
    var bars := JoinBars(alts, Options(s, |s|));
    text := "(" + bars + ")";
  }

  // ----- what the expression matches -----

  ghost predicate AllIn(w: string, lo: char, hi: char) {
    forall i | 0 <= i < |w| :: lo <= w[i] <= hi
  }

  lemma {:induction false} ClassPower(lo: char, hi: char, n: nat, w: string)
    ensures Power(Class(lo, hi), n, w) <==> |w| == n && AllIn(w, lo, hi)
  {
    if n > 0 {
      forall j | 0 <= j <= |w| {
        ClassPower(lo, hi, n - 1, w[j..]);
      }
      if |w| == n && AllIn(w, lo, hi) {
        assert Matches(Class(lo, hi), w[..1]) && Power(Class(lo, hi), n - 1, w[1..]);
      }
    }
  }

  lemma LongerMatches(s: string, w: string)
    ensures Matches(Longer(s), w) <==> |w| > |s| && AllDigits(w) && w[0] != '0'
  {
    forall j | 0 <= j <= |w|
      ensures Matches(AtLeast(DIGIT, |s|), w[j..]) <==> |w| - j >= |s| && AllIn(w[j..], '0', '9')
    {
      forall m: nat {
        ClassPower('0', '9', m, w[j..]);
      }
      if |w| - j >= |s| && AllIn(w[j..], '0', '9') {
        assert Power(DIGIT, |w| - j, w[j..]);
      }
    }
    if |w| > |s| && AllDigits(w) && w[0] != '0' {
      assert Matches(Class('1', '9'), w[..1]) && Matches(AtLeast(DIGIT, |s|), w[1..]);
    }
  }

  /** `w` has the length of `s`, agrees with it before index `i` and is larger there. */
  ghost predicate LargerThere(w: string, s: string, i: nat) {
    AllDigits(w) && |w| == |s| && i < |s| && w[..i] == s[..i] && w[i] > s[i]
  }

  lemma HeadMatches(t: string, d: char, w: string)
    requires IsDigit(d)
    ensures Matches(Cat(Lit(t), Class(d, '9')), w) <==> |w| == |t| + 1 && w[..|t|] == t && d <= w[|t|] <= '9'
  {
    if |w| == |t| + 1 && w[..|t|] == t && d <= w[|t|] <= '9' {
      assert Matches(Lit(t), w[..|t|]) && Matches(Class(d, '9'), w[|t|..]);
    }
  }

  lemma LargerMatches(s: string, i: nat, w: string)
    requires i < |s| && AllDigits(s) && s[i] != '9'
    ensures Matches(LargerAt(s, i), w) <==> LargerThere(w, s, i)
  {
    var d := DigitChar(DigitValue(s[i]) + 1);
    var head, rest := Cat(Lit(s[..i]), Class(d, '9')), |s| - i - 1;
    if rest == 0 {
      HeadMatches(s[..i], d, w);
      OneLarger(s, i, w);
    } else {
      if j :| 0 <= j <= |w| && Matches(head, w[..j]) && Matches(Exactly(DIGIT, rest), w[j..]) {
        HeadMatches(s[..i], d, w[..j]);
        ClassPower('0', '9', rest, w[j..]);
        SplitLarger(s, i, w, j);
      }
      if LargerThere(w, s, i) {
        HeadMatches(s[..i], d, w[..i + 1]);
        ClassPower('0', '9', rest, w[i + 1..]);
        assert w[..i + 1][..i] == w[..i];
        assert Matches(head, w[..i + 1]) && Matches(Exactly(DIGIT, rest), w[i + 1..]);
      }
    }
  }

  lemma OneLarger(s: string, i: nat, w: string)
    requires i + 1 == |s| && AllDigits(s) && s[i] != '9'
    ensures |w| == i + 1 && w[..i] == s[..i] && DigitChar(DigitValue(s[i]) + 1) <= w[i] <= '9' <==> LargerThere(w, s, i)
  {
    if |w| == i + 1 && w[..i] == s[..i] {
      assert forall k | 0 <= k < i :: w[k] == w[..i][k] == s[k];
    }
  }

  lemma SplitLarger(s: string, i: nat, w: string, j: nat)
    requires i < |s| && AllDigits(s) && s[i] != '9' && j <= |w|
    requires j == i + 1 && w[..j][..i] == s[..i] && DigitChar(DigitValue(s[i]) + 1) <= w[..j][i] <= '9'
    requires |w| - j == |s| - i - 1 && AllIn(w[j..], '0', '9')
    ensures LargerThere(w, s, i)
  {
    assert w[..i] == w[..j][..i];
    forall k | 0 <= k < |w|
      ensures IsDigit(w[k])
    {
      if k < i {
        assert w[k] == w[..i][k] == s[k];
      } else if k >= j {
        assert w[k] == w[j..][k - j];
      }
    }
  }

  ghost predicate SomeMatches(rs: seq<Regex>, w: string) {
    exists i | 0 <= i < |rs| :: Matches(rs[i], w)
  }

  ghost predicate SomewhereLarger(w: string, s: string, k: nat) {
    exists i | 0 <= i < k :: LargerThere(w, s, i)
  }

  lemma {:induction false} OptionsMatch(s: string, k: nat, w: string)
    requires k <= |s| && AllDigits(s)
    ensures SomeMatches(Options(s, k), w) <==> Matches(Longer(s), w) || SomewhereLarger(w, s, k)
  {
    hide Matches, Longer, LargerAt;
    if k == 0 {
      assert Options(s, 0)[0] == Longer(s);
    } else {
      OptionsMatch(s, k - 1, w);
      if s[k - 1] != '9' {
        LargerMatches(s, k - 1, w);
        LastOption(Options(s, k - 1), LargerAt(s, k - 1), w);
      }
      assert LargerThere(w, s, k - 1) ==> IsDigit(w[k - 1]);
      LastPlace(w, s, k);
      hide SomeMatches, SomewhereLarger;
    }
  }

  lemma LastPlace(w: string, s: string, k: nat)
    requires k > 0
    ensures SomewhereLarger(w, s, k) <==> SomewhereLarger(w, s, k - 1) || LargerThere(w, s, k - 1)
  {
    hide LargerThere;
  }

  lemma LastOption(rs: seq<Regex>, r: Regex, w: string)
    ensures SomeMatches(rs + [r], w) <==> SomeMatches(rs, w) || Matches(r, w)
  {
    hide Matches;
    if i :| 0 <= i < |rs| && Matches(rs[i], w) {
      assert (rs + [r])[i] == rs[i];
    }
    assert (rs + [r])[|rs|] == r;
  }

  // ----- comparing numerals -----

  /** Of two digit strings of the same length the larger number has the larger digit where they
      first differ. */
  lemma {:induction false} LargerValue(w: string, s: string, i: nat)
    requires AllDigits(s) && LargerThere(w, s, i)
    ensures Value(w) > Value(s)
  {
    var a, b, common := w[i..], s[i..], s[..i];
    assert w == common + a && s == common + b;
    ValueAppend(common, a);
    ValueAppend(common, b);
    FirstDigitDecides(a, b);
  }

  lemma FirstDigitDecides(a: string, b: string)
    requires AllDigits(a) && AllDigits(b) && |a| == |b| > 0 && a[0] > b[0]
    ensures Value(a) > Value(b)
  {
    var n := |a| - 1;
    assert a == a[..1] + a[1..] && b == b[..1] + b[1..];
    ValueAppend(a[..1], a[1..]);
    ValueAppend(b[..1], b[1..]);
    ValueBounds(b[1..]);
    OneDigit(a[..1]);
    OneDigit(b[..1]);
    hide Value, Pow10;
    Multiples(DigitValue(a[0]), DigitValue(b[0]), Pow10(n));
  }

  lemma OneDigit(s: string)
    requires AllDigits(s) && |s| == 1
    ensures Value(s) == DigitValue(s[0])
  {
    assert s[..0] == [];
  }

  lemma {:induction false} Multiples(x: nat, y: nat, p: nat)
    requires x > y
    ensures x * p >= y * p + p
    decreases x
  {
    if x > y + 1 {
      Multiples(x - 1, y, p);
    }
    Successor(x - 1, p);
  }

  lemma Successor(x: nat, p: nat)
    ensures (x + 1) * p == x * p + p
  {
  }

  /** The first index from `i` on where two strings differ, or their length. */
  lemma {:induction false} FirstDifference(w: string, s: string, i: nat) returns (k: nat)
    requires |w| == |s| && i <= |s| && w[..i] == s[..i]
    ensures k <= |s| && w[..k] == s[..k] && (k < |s| ==> w[k] != s[k])
    decreases |s| - i
  {
    if i == |s| || w[i] != s[i] {
      k := i;
    } else {
      assert w[..i + 1] == w[..i] + [w[i]] && s[..i + 1] == s[..i] + [s[i]];
      k := FirstDifference(w, s, i + 1);
    }
  }

  lemma SameLengthLarger(w: string, s: string)
    requires AllDigits(w) && AllDigits(s) && |w| == |s|
    ensures Value(w) > Value(s) <==> SomewhereLarger(w, s, |s|)
  {
    if i :| 0 <= i < |s| && LargerThere(w, s, i) {
      LargerValue(w, s, i);
    }
    var k := FirstDifference(w, s, 0);
    if k == |s| {
      assert w == w[..k] && s == s[..k];
    } else if w[k] < s[k] {
      LargerValue(s, w, k);
    } else {
      assert LargerThere(w, s, k);
    }
  }

  /** A canonical numeral with more digits denotes a larger number. */
  lemma MoreDigitsLarger(w: string, s: string)
    requires Canonical(w) && Canonical(s) && |w| > |s|
    ensures Value(w) > Value(s)
  {
    ValueBounds(w);
    ValueBounds(s);
    Pow10Monotone(|s|, |w| - 1);
  }

  /** A string is matched exactly when it is the canonical numeral of a number above `n`. */
  lemma AboveExact(n: nat, w: string)
    ensures Matches(AboveExpression(n), w) <==> Canonical(w) && Value(w) > n
  {
    var s := Text(n);
    OptionsMatch(s, |s|, w);
    LongerMatches(s, w);
    hide Longer, Value, Options, Text;
    if Canonical(w) {
      if |w| > |s| {
        MoreDigitsLarger(w, s);
      } else if |w| < |s| {
        MoreDigitsLarger(s, w);
      } else {
        SameLengthLarger(w, s);
      }
    }
    if i :| 0 <= i < |s| && LargerThere(w, s, i) {
      LargerIsCanonical(w, s, i);
    }
  }

  lemma LargerIsCanonical(w: string, s: string, i: nat)
    requires Canonical(s) && LargerThere(w, s, i)
    ensures Canonical(w)
  {
    if i > 0 {
      assert w[0] == w[..i][0] == s[0];
    }
  }
}
