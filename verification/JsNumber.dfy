/** Numbers printed as JavaScript prints them, and what the printed text denotes. */
module JsNumber {
  import opened Decimal
  import opened Concatenation
  import opened Optional

  /** A double: zero of either sign, an infinity or not a number, or the shortest digits and the
      decimal exponent that the exponential format prints for it, so that the magnitude is
      d.ddd times ten to `exp`. */
  datatype Float = Zero | NonFinite | Finite(negative: bool, digits: string, exp: int)

  predicate Valid(f: Float) {
    f.Finite? ==> f.digits != "" && AllDigits(f.digits) && f.digits[0] != '0'
  }

  function Zeros(n: nat): (s: string)
    ensures |s| == n && AllDigits(s)
  {
    if n == 0 then "" else Zeros(n - 1) + "0"
  }

  function Abs(e: int): nat {
    if e < 0 then -e else e
  }

  /** The text of the magnitude with `n` digits before the decimal point. */
  function Layout(digits: string, n: int): string
    requires digits != ""
  {
    var k := |digits|;
    if k <= n <= 21 then digits + Zeros(n - k)
    else if 0 < n <= 21 then digits[..n] + ("." + digits[n..])
    else if -6 < n <= 0 then "0." + (Zeros(-n) + digits)
    else
      var e := n - 1;
      var head := if k == 1 then digits else digits[..1] + ("." + digits[1..]);
      head + ("e" + ((if e < 0 then "-" else "+") + Text(Abs(e))))
  }

  /** `number` */
  function Number(f: Float): string
    requires Valid(f)
  {
    match f
    case Zero => "0"
    case NonFinite => "null"
    case Finite(negative, digits, exp) => (if negative then "-" else "") + Layout(digits, exp + 1)
  }

  // ----- exact values -----

  function TenTo(e: int): (r: real)
    ensures r > 0.0
    decreases Abs(e)
  {
    if e == 0 then 1.0 else if e > 0 then 10.0 * TenTo(e - 1) else TenTo(e + 1) / 10.0
  }

  lemma TenToNext(e: int)
    ensures TenTo(e + 1) == 10.0 * TenTo(e)
  {
  }

  lemma {:induction false} TenToSum(a: int, n: nat)
    ensures TenTo(a + n) == TenTo(a) * Pow10(n) as real
  {
    hide TenTo;
    if n > 0 {
      TenToSum(a, n - 1);
      TenToNext(a + n - 1);
      Product(10, Pow10(n - 1));
      Swap(TenTo(a), Pow10(n - 1) as real);
    }
  }

  lemma Product(a: int, b: int)
    ensures (a * b) as real == a as real * b as real
  {
  }

  lemma Scaled(v: nat, p: nat, one: real, t: real)
    requires one == 1.0 && t == one * p as real
    ensures (v * p) as real * one == v as real * t
  {
    assert t == p as real;
    Product(v, p);
  }

  lemma Swap(x: real, y: real)
    ensures 10.0 * (x * y) == x * (10.0 * y)
  {
  }

  /** The value that a double stands for. */
  function ValueOf(f: Float): real
    requires Valid(f) && !f.NonFinite?
  {
    match f
    case Zero => 0.0
    case Finite(negative, digits, exp) =>
      Signed(negative, Value(digits) as real * TenTo(exp + 1 - |digits|))
  }

  // ----- the grammar of JSON numbers (section 6 of RFC 8259) -----

  /** The exponent that starts at index `i`, if the text ends with it. */
  function ReadExponent(t: string, i: nat): Option<int>
    requires i <= |t|
  {
    if i == |t| then Some(0)
    else if t[i] != 'e' && t[i] != 'E' then None
    else
      var signed := i + 1 < |t| && (t[i + 1] == '+' || t[i + 1] == '-');
      var from := if signed then i + 2 else i + 1;
      var to := DigitsEnd(t, from);
      if to == from || to != |t| then None
      else
        var v := Value(t[from..to]);
        Some(if signed && t[i + 1] == '-' then -(v as int) else v)
  }

  datatype Parts = Parts(whole: string, fraction: string, exponent: int)

  /** The fraction that starts at index `i`, with the index behind it. */
  function ReadFraction(t: string, i: nat): (r: (string, nat))
    requires i <= |t|
    ensures AllDigits(r.0) && i <= r.1 <= |t|
  {
    if i < |t| && t[i] == '.' then
      var end := DigitsEnd(t, i + 1);
      (t[i + 1..end], end)
    else ("", i)
  }

  /** The parts of the unsigned number that starts at index `i`. */
  function ReadParts(t: string, i: nat): (r: Option<Parts>)
    requires i <= |t|
    ensures r.Some? ==> AllDigits(r.value.whole) && AllDigits(r.value.fraction)
  {
    var point := DigitsEnd(t, i);
    var (fraction, end) := ReadFraction(t, point);
    if !Canonical(t[i..point]) || end == point + 1 then None
    else
      match ReadExponent(t, end)
      case None => None
      case Some(e) => Some(Parts(t[i..point], fraction, e))
  }

  function ValueOfParts(p: Parts): real
    requires AllDigits(p.whole) && AllDigits(p.fraction)
  {
    Value(p.whole + p.fraction) as real * TenTo(p.exponent - |p.fraction|)
  }

  function Signed(negative: bool, x: real): real {
    if negative then -x else x
  }

  /** The value of a JSON number, none if the text is not one. */
  function Meaning(t: string): Option<real> {
    var negative := t != "" && t[0] == '-';
    match ReadParts(t, if negative then 1 else 0)
    case None => None
    case Some(p) => Some(Signed(negative, ValueOfParts(p)))
  }

  /** A number in its parts: an empty fraction and a missing exponent are not written. */
  function Composed(negative: bool, whole: string, fraction: string, exponent: Option<int>): string {
    (if negative then "-" else "") +
    (whole + (FractionText(fraction) + ExponentText(exponent)))
  }

  function ExponentText(exponent: Option<int>): string {
    match exponent
    case None => ""
    case Some(e) => "e" + ((if e < 0 then "-" else "+") + Text(Abs(e)))
  }

  lemma ExponentRead(t: string, i: nat, exponent: Option<int>)
    requires i <= |t| && t[i..] == ExponentText(exponent)
    ensures ReadExponent(t, i) == Some(if exponent.Some? then exponent.value else 0)
  {
    if exponent.Some? {
      var e, d := exponent.value, Text(Abs(exponent.value));
      var sign := if e < 0 then "-" else "+";
      hide Text;
      assert t[i] == t[i..][0] == 'e' && t[i + 1] == t[i..][1] == sign[0];
      assert t[i + 2..] == t[i..][2..] == d;
      assert t[i + 2..i + 2 + |d|] == d;
      DigitsEndAt(t, i + 2, d);
    }
  }

  function FractionText(fraction: string): string {
    if fraction == "" then "" else "." + fraction
  }

  lemma FractionRead(t: string, i: nat, fraction: string)
    requires i + |FractionText(fraction)| <= |t| && t[i..i + |FractionText(fraction)|] == FractionText(fraction)
    requires AllDigits(fraction)
    requires var end := i + |FractionText(fraction)|; end < |t| ==> t[end] == 'e'
    ensures ReadFraction(t, i) == (fraction, i + |FractionText(fraction)|)
  {
    if fraction != "" {
      var end := i + |FractionText(fraction)|;
      assert t[i] == t[i..end][0] == '.';
      assert t[i + 1..end] == t[i..end][1..] == fraction;
      DigitsEndAt(t, i + 1, fraction);
    }
  }

  /** Where the parts of a number stand in its text. */
  lemma PartsStand(t: string, i: nat, whole: string, tail: string, x: string)
    requires i <= |t| && t[i..] == whole + (tail + x)
    ensures var point := i + |whole|; var end := point + |tail|;
            end <= |t| && t[i..point] == whole && t[point..end] == tail && t[end..] == x
  {
    var point := i + |whole|;
    var end := point + |tail|;
    assert t[i..point] == t[i..][..|whole|];
    assert t[point..end] == t[i..][|whole|..|whole| + |tail|];
    assert t[end..] == t[i..][|whole| + |tail|..];
  }

  lemma PartsRead(t: string, i: nat, whole: string, fraction: string, exponent: Option<int>)
    requires i <= |t| && t[i..] == whole + (FractionText(fraction) + ExponentText(exponent))
    requires Canonical(whole) && AllDigits(fraction)
    ensures ReadParts(t, i) == Some(Parts(whole, fraction, if exponent.Some? then exponent.value else 0))
  {
    hide ReadExponent, Text, DigitsEnd, ReadFraction;
    var tail, x := FractionText(fraction), ExponentText(exponent);
    PartsStand(t, i, whole, tail, x);
    var point := i + |whole|;
    var end := point + |tail|;
    assert end < |t| ==> t[end] == t[end..][0] == 'e';
    assert tail != "" ==> t[point] == t[point..end][0] == '.';
    DigitsEndAt(t, i, whole);
    FractionRead(t, point, fraction);
    ExponentRead(t, end, exponent);
  }

  lemma MeaningOfComposed(negative: bool, whole: string, fraction: string, exponent: Option<int>)
    requires Canonical(whole) && AllDigits(fraction)
    ensures var parts := Parts(whole, fraction, if exponent.Some? then exponent.value else 0);
            Meaning(Composed(negative, whole, fraction, exponent)) == Some(Signed(negative, ValueOfParts(parts)))
  {
    hide ReadParts, ValueOfParts, Signed, ExponentText, FractionText;
    var t := Composed(negative, whole, fraction, exponent);
    var rest := whole + (FractionText(fraction) + ExponentText(exponent));
    var i := if negative then 1 else 0;
    assert t[i..] == rest;
    assert t[0] == if negative then '-' else whole[0];
    PartsRead(t, i, whole, fraction, exponent);
  }

  // ----- the layouts -----

  lemma {:induction false} ZerosValue(n: nat)
    ensures Value(Zeros(n)) == 0
  {
    if n > 0 {
      ZerosValue(n - 1);
      assert Zeros(n)[..n - 1] == Zeros(n - 1);
    }
  }

  lemma PaddedValue(digits: string, n: nat)
    requires AllDigits(digits)
    ensures AllDigits(digits + Zeros(n)) && Value(digits + Zeros(n)) == Value(digits) * Pow10(n)
  {
    ValueAppend(digits, Zeros(n));
    ZerosValue(n);
  }

  /** Digits followed by zeros. */
  lemma Padded(digits: string, n: nat)
    requires AllDigits(digits)
    ensures AllDigits(digits + Zeros(n)) && Value(digits + Zeros(n)) as real * TenTo(0) ==
            Value(digits) as real * TenTo(n)
  {
    hide Value, Zeros, Pow10, AllDigits;
    assert TenTo(0) == 1.0;
    hide TenTo;
    PaddedValue(digits, n);
    TenToSum(0, n);
    Scaled(Value(digits), Pow10(n), TenTo(0), TenTo(n));
  }

  /** Digits behind zeros. */
  lemma Led(digits: string, n: nat)
    requires AllDigits(digits)
    ensures AllDigits(Zeros(n) + digits) && Value("0" + (Zeros(n) + digits)) == Value(digits)
  {
    ValueAppend(Zeros(n), digits);
    ValueAppend("0", Zeros(n) + digits);
    ZerosValue(n);
    CanonicalZero("0");
  }

  /** The layout of `digits` with the point after `n` digits is the text of these parts, and the
      parts denote the digits scaled by `n - k`. */
  ghost predicate LaidOut(digits: string, n: int, whole: string, fraction: string, exponent: Option<int>)
    requires digits != "" && AllDigits(digits)
  {
    && Canonical(whole) && AllDigits(fraction)
    && Layout(digits, n) == whole + (FractionText(fraction) + ExponentText(exponent))
    && ValueOfParts(Parts(whole, fraction, if exponent.Some? then exponent.value else 0)) ==
       Value(digits) as real * TenTo(n - |digits|)
  }

  lemma IntegerLaidOut(digits: string, n: int)
    requires digits != "" && AllDigits(digits) && digits[0] != '0' && |digits| <= n <= 21
    ensures LaidOut(digits, n, digits + Zeros(n - |digits|), "", None)
  {
    hide TenTo, Value, Text, Zeros;
    var whole := digits + Zeros(n - |digits|);
    Padded(digits, n - |digits|);
    assert whole + "" == whole;
  }

  lemma SplitLaidOut(digits: string, n: int)
    requires digits != "" && AllDigits(digits) && digits[0] != '0' && 0 < n < |digits| && n <= 21
    ensures LaidOut(digits, n, digits[..n], digits[n..], None)
  {
    hide TenTo, Value, Text, Zeros;
    assert digits[..n] + digits[n..] == digits;
    assert FractionText(digits[n..]) + "" == FractionText(digits[n..]);
  }

  lemma FractionLaidOut(digits: string, n: int)
    requires digits != "" && AllDigits(digits) && -6 < n <= 0
    ensures LaidOut(digits, n, "0", Zeros(-n) + digits, None)
  {
    hide TenTo, Value, Text, Zeros;
    var fraction := Zeros(-n) + digits;
    Led(digits, -n);
    assert FractionText(fraction) + "" == FractionText(fraction);
    assert "0." + fraction == "0" + ("." + fraction);
  }

  lemma ExponentialLaidOut(digits: string, n: int)
    requires digits != "" && AllDigits(digits) && digits[0] != '0' && !(-6 < n <= 21)
    ensures LaidOut(digits, n, digits[..1], digits[1..], Some(n - 1))
  {
    hide TenTo, Value, Text, Zeros;
    var tail, x := FractionText(digits[1..]), ExponentText(Some(n - 1));
    assert digits[..1] + digits[1..] == digits;
    Assoc(digits[..1], tail, x);
    assert digits[..1] + tail == if |digits| == 1 then digits else digits[..1] + ("." + digits[1..]);
  }

  lemma LayoutParts(digits: string, n: int) returns (whole: string, fraction: string, exponent: Option<int>)
    requires digits != "" && AllDigits(digits) && digits[0] != '0'
    ensures LaidOut(digits, n, whole, fraction, exponent)
  {
    hide LaidOut, Zeros;
    var k := |digits|;
    if k <= n <= 21 {
      whole, fraction, exponent := digits + Zeros(n - k), "", None;
      IntegerLaidOut(digits, n);
    } else if 0 < n <= 21 {
      whole, fraction, exponent := digits[..n], digits[n..], None;
      SplitLaidOut(digits, n);
    } else if -6 < n <= 0 {
      whole, fraction, exponent := "0", Zeros(-n) + digits, None;
      FractionLaidOut(digits, n);
    } else {
      whole, fraction, exponent := digits[..1], digits[1..], Some(n - 1);
      ExponentialLaidOut(digits, n);
    }
  }

  /** The printed text is a JSON number that denotes exactly the value of the double; only a
      double without a value prints as something else. */
  lemma NumberDenotes(f: Float)
    requires Valid(f)
    ensures Meaning(Number(f)) == if f.NonFinite? then None else Some(ValueOf(f))
  {
    hide Meaning, Layout, TenTo, Value, ExponentText, FractionText;
    match f
    case Zero => ZeroDenotes();
    case NonFinite => NullDenotesNothing();
    case Finite(negative, digits, exp) =>
      var whole, fraction, exponent := LayoutParts(digits, exp + 1);
      MeaningOfComposed(negative, whole, fraction, exponent);
  }

  lemma ZeroDenotes()
    ensures Meaning("0") == Some(0.0)
  {
    MeaningOfComposed(false, "0", "", None);
    assert Composed(false, "0", "", None) == "0";
    assert "0" + "" == "0";
    CanonicalZero("0");
  }

  lemma NullDenotesNothing()
    ensures Meaning("null") == None
  {
  }

  // ----- which layout is chosen -----

  lemma {:induction false} TenToMonotone(a: int, b: int)
    requires a <= b
    ensures TenTo(a) <= TenTo(b)
    decreases b - a
  {
    hide TenTo, Pow10;
    if a < b {
      TenToMonotone(a, b - 1);
      TenToNext(b - 1);
    }
  }

  lemma Between(x: real, low: nat, mid: nat, high: nat, first: real, last: real)
    requires x > 0.0 && low <= mid < high && first == x * low as real && last == x * high as real
    ensures first <= mid as real * x < last
  {
    BetweenReals(x, low as real, mid as real, high as real);
  }

  lemma BetweenReals(x: real, low: real, mid: real, high: real)
    requires x > 0.0 && low <= mid < high
    ensures x * low <= mid * x < x * high
  {
    assert x * (mid - low) >= 0.0;
    assert x * (high - mid) > 0.0;
  }

  /** The number of digits before the point places the magnitude between powers of ten. */
  lemma MagnitudeBounds(digits: string, n: int)
    requires digits != "" && AllDigits(digits) && digits[0] != '0'
    ensures TenTo(n - 1) <= Value(digits) as real * TenTo(n - |digits|) < TenTo(n)
  {
    hide TenTo, Pow10, Value;
    var k := |digits|;
    ValueBounds(digits);
    TenToSum(n - k, k - 1);
    TenToSum(n - k, k);
    Between(TenTo(n - k), Pow10(k - 1), Value(digits), Pow10(k), TenTo(n - 1), TenTo(n));
  }

  lemma DigitsHoldNoE(s: string)
    requires AllDigits(s)
    ensures 'e' !in s
  {
  }

  /** The exponent form is chosen exactly for magnitudes below 10^-6 and from 10^21 on, the
      bounds of steps 6 to 10 of section 6.1.6.1.20 of ECMA-262. */
  lemma ExponentFormIff(digits: string, n: int)
    requires digits != "" && AllDigits(digits) && digits[0] != '0'
    ensures var magnitude := Value(digits) as real * TenTo(n - |digits|);
            'e' in Layout(digits, n) <==> magnitude < TenTo(-6) || magnitude >= TenTo(21)
  {
    hide TenTo, Value, Layout;
    MagnitudeBounds(digits, n);
    EInLayout(digits, n);
    if n <= -6 {
      TenToMonotone(n, -6);
    } else if n <= 21 {
      TenToMonotone(-6, n - 1);
      TenToMonotone(n, 21);
    } else {
      TenToMonotone(21, n - 1);
    }
  }

  lemma EInLayout(digits: string, n: int)
    requires digits != "" && AllDigits(digits) && digits[0] != '0'
    ensures 'e' in Layout(digits, n) <==> !(-6 < n <= 21)
  {
    hide Zeros, Text;
    var k := |digits|;
    if k <= n <= 21 {
      DigitsHoldNoE(digits + Zeros(n - k));
    } else if 0 < n <= 21 {
      DigitsHoldNoE(digits[..n]);
      DigitsHoldNoE(digits[n..]);
    } else if -6 < n <= 0 {
      DigitsHoldNoE(Zeros(-n) + digits);
    } else {
      var head := if k == 1 then digits else digits[..1] + ("." + digits[1..]);
      assert Layout(digits, n)[|head|] == 'e';
    }
  }

  // ----- the layout by arithmetic on the significand -----

  /** The last `w` digits of `v`, padded with zeros. */
  function Fixed(v: nat, w: nat): string {
    if w == 0 then "" else Fixed(v / 10, w - 1) + [DigitChar(v % 10)]
  }

  function Shifted(v: nat, w: nat): nat {
    v * Pow10(w)
  }

  /** `v` without its last `w` digits. */
  function Dropped(v: nat, w: nat): nat {
    if w == 0 then v else Dropped(v / 10, w - 1)
  }

  /** `s` divided by ten to the `places`, as a decimal fraction. */
  function Pointed(s: nat, places: nat): string {
    Text(Dropped(s, places)) + (if places == 0 then "" else "." + Fixed(s, places))
  }

  /** Section 6.1.6.1.20 of ECMA-262 for a positive number s times ten to the n-k, where s has k
      digits: an integer, a decimal fraction, or a decimal fraction with one digit before the
      point and an exponent. */
  function EcmaLayout(s: nat, k: nat, n: int): string {
    if k <= n <= 21 then Text(Shifted(s, n - k))
    else if -6 < n <= 21 then Pointed(s, k - n)
    else Pointed(s, if k > 0 then k - 1 else 0) + ("e" + ((if n - 1 < 0 then "-" else "+") + Text(Abs(n - 1))))
  }

  lemma {:induction false} LastDigits(a: string, d: string)
    requires AllDigits(a) && AllDigits(d) && AllDigits(a + d)
    ensures Fixed(Value(a + d), |d|) == d && Dropped(Value(a + d), |d|) == Value(a)
  {
    if d == "" {
      assert a + d == a;
    } else {
      var front, last := d[..|d| - 1], d[|d| - 1];
      LastDigits(a, front);
      assert (a + d)[..|a + d| - 1] == a + front;
      assert Value(a + d) / 10 == Value(a + front) && Value(a + d) % 10 == DigitValue(last);
      assert d == front + [last];
    }
  }

  lemma TextOfCanonical(w: string)
    requires Canonical(w)
    ensures Text(Value(w)) == w
  {
    CanonicalUnique(Text(Value(w)), w);
  }

  /** Putting the point into a numeral is dividing by a power of ten. */
  lemma PointedSplits(whole: string, fraction: string, s: nat)
    requires Canonical(whole) && AllDigits(fraction) && s == Value(whole + fraction)
    ensures Pointed(s, |fraction|) == whole + FractionText(fraction)
  {
    hide Value, Text, Fixed, Dropped;
    LastDigits(whole, fraction);
    TextOfCanonical(whole);
  }

  lemma IntegerIsEcma(digits: string, n: int)
    requires digits != "" && AllDigits(digits) && digits[0] != '0' && |digits| <= n <= 21
    ensures Layout(digits, n) == EcmaLayout(Value(digits), |digits|, n)
  {
    hide Value, Text, Zeros, Pow10;
    PaddedValue(digits, n - |digits|);
    TextOfCanonical(digits + Zeros(n - |digits|));
  }

  /** A layout with a point, from its parts. */
  lemma PointedIsEcma(digits: string, n: int, whole: string, fraction: string, exponent: Option<int>)
    requires digits != "" && AllDigits(digits) && LaidOut(digits, n, whole, fraction, exponent)
    requires Value(whole + fraction) == Value(digits)
    ensures Layout(digits, n) == Pointed(Value(digits), |fraction|) + ExponentText(exponent)
  {
    hide Value, Layout, Pointed, FractionText, ExponentText, ValueOfParts, TenTo, AllDigits, Canonical;
    PointedSplits(whole, fraction, Value(digits));
    Assoc(whole, FractionText(fraction), ExponentText(exponent));
  }

  lemma SplitIsEcma(digits: string, n: int)
    requires digits != "" && AllDigits(digits) && digits[0] != '0' && 0 < n < |digits| && n <= 21
    ensures Layout(digits, n) == EcmaLayout(Value(digits), |digits|, n)
  {
    hide Value, Layout, Pointed, LaidOut, AllDigits, Text, Shifted;
    SplitLaidOut(digits, n);
    assert digits[..n] + digits[n..] == digits;
    PointedIsEcma(digits, n, digits[..n], digits[n..], None);
    assert Pointed(Value(digits), |digits| - n) + "" == Pointed(Value(digits), |digits| - n);
  }

  lemma FractionIsEcma(digits: string, n: int)
    requires digits != "" && AllDigits(digits) && -6 < n <= 0
    ensures Layout(digits, n) == EcmaLayout(Value(digits), |digits|, n)
  {
    hide Value, Layout, Pointed, LaidOut, AllDigits, Text, Shifted, Zeros;
    FractionLaidOut(digits, n);
    Led(digits, -n);
    PointedIsEcma(digits, n, "0", Zeros(-n) + digits, None);
    assert Pointed(Value(digits), |digits| - n) + "" == Pointed(Value(digits), |digits| - n);
  }

  lemma ExponentialIsEcma(digits: string, n: int)
    requires digits != "" && AllDigits(digits) && digits[0] != '0' && !(-6 < n <= 21)
    ensures Layout(digits, n) == EcmaLayout(Value(digits), |digits|, n)
  {
    hide Value, Layout, Pointed, LaidOut, AllDigits, Text, Shifted;
    ExponentialLaidOut(digits, n);
    assert digits[..1] + digits[1..] == digits;
    PointedIsEcma(digits, n, digits[..1], digits[1..], Some(n - 1));
  }

  /** The layout chosen is the standard's. */
  lemma LayoutIsEcma(digits: string, n: int)
    requires digits != "" && AllDigits(digits) && digits[0] != '0'
    ensures Layout(digits, n) == EcmaLayout(Value(digits), |digits|, n)
  {
    hide Value, Layout, EcmaLayout, AllDigits;
    if |digits| <= n <= 21 {
      IntegerIsEcma(digits, n);
    } else if 0 < n <= 21 {
      SplitIsEcma(digits, n);
    } else if -6 < n <= 0 {
      FractionIsEcma(digits, n);
    } else {
      ExponentialIsEcma(digits, n);
    }
  }

  /** Zero is printed without a sign, and what is no finite number as null. */
  lemma SpecialNumbers()
    ensures Number(Zero) == "0" && Number(NonFinite) == "null"
  {
  }
}
