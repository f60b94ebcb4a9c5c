/** The value that a number has once `num` has printed it: three decimals, at most 31 characters,
    trailing zeros removed. */
module PrintedNumber {
  import Decimal

  /** The integer nearest to `x`, the even one of two. */
  function Nearest(x: real): (n: int)
    ensures x >= 0.0 ==> n >= 0
    ensures x.Floor as real == x ==> n == x.Floor
  {
    var low := x.Floor;
    var rest := x - low as real;
    if rest < 0.5 || (rest == 0.5 && low % 2 == 0) then low else low + 1
  }

  function DigitCount(i: nat): (d: nat)
    ensures d >= 1
  {
    if i < 10 then 1 else 1 + DigitCount(i / 10)
  }

  /** `i` without its last `k` digits. */
  function Dropped(i: nat, k: nat): nat {
    if k == 0 then i else Dropped(i / 10, k - 1)
  }

  /** `i` without its trailing zeros. */
  function Stripped(i: nat): nat {
    if i > 0 && i % 10 == 0 then Stripped(i / 10) else i
  }

  /** `i` ones and `t` thousandths printed into `room` characters. A cut in the decimals drops
      digits; a cut that leaves no decimal point makes the zeros at the end of the whole number go
      too. */
  function Magnitude(i: nat, t: nat, room: nat): (r: real)
    ensures r >= 0.0
  {
    var d := DigitCount(i);
    if d + 4 <= room then Number(i, t)
    else if d + 3 == room then Number(i, t / 10 * 10)
    else if d + 2 == room then Number(i, t / 100 * 100)
    else if d + 1 == room then Number(i, 0)
    else Number(Stripped(Dropped(i, d - room)), 0)
  }

  function Number(i: nat, t: nat): (r: real)
    ensures r >= 0.0
  {
    i as real + t as real / 1000.0
  }

  const ROOM: nat := 31

  function Abs(v: real): real {
    if v < 0.0 then -v else v
  }

  /** A minus sign takes one character. */
  function RoomFor(v: real): nat {
    if v < 0.0 then ROOM - 1 else ROOM
  }

  function Printed(v: real): real {
    var n := Nearest(Abs(v) * 1000.0);
    var m := Magnitude(n / 1000, n % 1000, RoomFor(v));
    if v < 0.0 then -m else m
  }

  /** `i` ones and `t` thousandths fit into `room` characters once zeros at the end are removed:
      short enough for all decimals, or without those that are cut, and never ending in a zero
      without a point. */
  predicate FitsRoom(i: nat, t: nat, room: nat) {
    var d := DigitCount(i);
    || d + 4 <= room
    || (d + 3 == room && t % 10 == 0)
    || (d + 2 == room && t % 100 == 0)
    || (d + 1 == room && t == 0)
    || (d == room && t == 0 && i % 10 != 0)
  }

  /** At most three decimals, and short enough. */
  ghost predicate PrintsExactly(v: real) {
    var x := Abs(v) * 1000.0;
    x.Floor as real == x && FitsRoom(x.Floor / 1000, x.Floor % 1000, RoomFor(v))
  }

  lemma {:induction false} StrippedFacts(i: nat)
    requires i > 0
    ensures 0 < Stripped(i) <= i && Stripped(i) % 10 != 0 && DigitCount(Stripped(i)) <= DigitCount(i)
    ensures Stripped(i) == i <==> i % 10 != 0
  {
    if i % 10 == 0 {
      StrippedFacts(i / 10);
    }
  }

  lemma {:induction false} DroppedFacts(i: nat, k: nat)
    requires i > 0 && k < DigitCount(i)
    ensures 0 < Dropped(i, k) <= i && DigitCount(Dropped(i, k)) == DigitCount(i) - k
    ensures k > 0 ==> Dropped(i, k) < i
  {
    if k > 0 {
      DroppedFacts(i / 10, k - 1);
    }
  }

  /** A whole number that fills the room: what is left of it. */
  lemma CutFacts(i: nat, room: nat)
    requires DigitCount(i) >= room > 1
    ensures var r := Stripped(Dropped(i, DigitCount(i) - room));
            && r > 0 && r % 10 != 0 && DigitCount(r) <= room
            && (r == i <==> DigitCount(i) == room && i % 10 != 0)
  {
    assert i > 0;
    DroppedFacts(i, DigitCount(i) - room);
    StrippedFacts(Dropped(i, DigitCount(i) - room));
  }

  lemma NumberInjective(i: nat, t: nat, j: nat, u: nat)
    requires t < 1000 && u < 1000
    ensures Number(i, t) == Number(j, u) <==> i == j && t == u
  {
    assert 1000.0 * Number(i, t) == (1000 * i + t) as real;
    assert 1000.0 * Number(j, u) == (1000 * j + u) as real;
  }

  lemma MagnitudeExactIff(i: nat, t: nat, room: nat)
    requires room > 6 && t < 1000
    ensures Magnitude(i, t, room) == Number(i, t) <==> FitsRoom(i, t, room)
  {
    hide DigitCount, Dropped, Stripped, Number;
    var j, u := MagnitudeAgain(i, t, room);
    NumberInjective(i, t, j, u);
  }

  /** The parts that a printed number has, and that they print exactly. */
  lemma MagnitudeAgain(i: nat, t: nat, room: nat) returns (j: nat, u: nat)
    requires room > 6 && t < 1000
    ensures u < 1000 && Magnitude(i, t, room) == Number(j, u) && FitsRoom(j, u, room)
    ensures j == i && u == t <==> FitsRoom(i, t, room)
  {
    hide DigitCount, Dropped, Stripped, Number;
    var d := DigitCount(i);
    if d >= room {
      CutFacts(i, room);
      j, u := Stripped(Dropped(i, d - room)), 0;
    } else {
      j := i;
      u := if d + 4 <= room then t
           else if d + 3 == room then t / 10 * 10
           else if d + 2 == room then t / 100 * 100
           else 0;
    }
  }

  lemma Thousands(i: nat, t: nat)
    requires t < 1000
    ensures (1000 * i + t) / 1000 == i && (1000 * i + t) % 1000 == t
    ensures 1000.0 * Number(i, t) == (1000 * i + t) as real
  {
  }

  /** Printing keeps a number if and only if it prints exactly, and a printed number does. */
  lemma PrintedExactIff(v: real)
    ensures Printed(v) == v <==> PrintsExactly(v)
    ensures PrintsExactly(Printed(v))
  {
    hide Magnitude, FitsRoom, Number;
    var x, room := Abs(v) * 1000.0, RoomFor(v);
    var n := Nearest(x);
    var i, t := n / 1000, n % 1000;
    Thousands(i, t);
    MagnitudeExactIff(i, t, room);
    var j, u := MagnitudeAgain(i, t, room);
    Thousands(j, u);
    var m := 1000 * j + u;
    assert Abs(Printed(v)) * 1000.0 == m as real && (m as real).Floor == m;
    ZeroFits();
  }

  lemma ZeroFits()
    ensures FitsRoom(0, 0, ROOM) && forall j: nat, u: nat :: Number(j, u) == 0.0 ==> j == 0 && u == 0
  {
  }

  // ----- how near the printed number is -----

  /** The nearest integer, and the even one if two are equally near. */
  lemma NearestIs(x: real)
    ensures var n := Nearest(x);
            && n as real - 0.5 <= x <= n as real + 0.5
            && (x == n as real - 0.5 || x == n as real + 0.5 ==> n % 2 == 0)
  {
    assert x.Floor as real <= x < x.Floor as real + 1.0;
  }

  lemma {:induction false} DigitCountBelow(i: nat, k: nat)
    requires i < Decimal.Pow10(k) && k > 0
    ensures DigitCount(i) <= k
  {
    if i >= 10 && k > 1 {
      DigitCountBelow(i / 10, k - 1);
    }
  }

  /** Up to ten to the 25 a printed number is the nearest one with three decimals; of two it is the
      one whose last decimal is even. */
  lemma PrintedIsNearest(v: real) returns (n: nat)
    requires Abs(v) <= Decimal.Pow10(25) as real
    ensures Abs(Printed(v)) * 1000.0 == n as real && Abs(Printed(v) - v) <= 0.0005
    ensures Abs(Printed(v) - v) == 0.0005 ==> n % 2 == 0
  {
    hide Printed, Abs, Nearest;
    var m;
    n, m := PrintedThousandths(v);
    Close(v, m, n);
  }

  /** Where there is room for all decimals, a number is printed as its thousandths. */
  lemma PrintedThousandths(v: real) returns (n: nat, m: real)
    requires Abs(v) <= Decimal.Pow10(25) as real
    ensures m * 1000.0 == n as real && n as real - 0.5 <= Abs(v) * 1000.0 <= n as real + 0.5
    ensures Abs(v) * 1000.0 == n as real - 0.5 || Abs(v) * 1000.0 == n as real + 0.5 ==> n % 2 == 0
    ensures Printed(v) == if v < 0.0 then -m else m
  {
    hide DigitCount, Decimal.Pow10, Magnitude, Nearest, Number;
    var x := Abs(v) * 1000.0;
    n := Nearest(x);
    NearestIs(x);
    WholeBound(n, Decimal.Pow10(25), x);
    TenTimesMore();
    DigitCountBelow(n / 1000, 26);
    Thousands(n / 1000, n % 1000);
    RoomEnough(n / 1000, n % 1000, RoomFor(v));
    m := Number(n / 1000, n % 1000);
  }

  /** A magnitude near that of `v`, with the sign of `v`. */
  lemma Close(v: real, m: real, n: nat)
    requires m * 1000.0 == n as real && n as real - 0.5 <= Abs(v) * 1000.0 <= n as real + 0.5
    ensures var p := if v < 0.0 then -m else m;
            && Abs(p - v) <= 0.0005 && Abs(p) * 1000.0 == n as real
            && (Abs(p - v) == 0.0005 ==> Abs(v) * 1000.0 == n as real - 0.5 || Abs(v) * 1000.0 == n as real + 0.5)
  {
  }

  lemma RoomEnough(i: nat, t: nat, room: nat)
    requires DigitCount(i) <= 26 && room >= 30
    ensures Magnitude(i, t, room) == Number(i, t)
  {
  }

  lemma TenTimesMore()
    ensures Decimal.Pow10(25) < Decimal.Pow10(26)
  {
  }

  lemma WholeBound(n: nat, p: nat, x: real)
    requires x <= (1000 * p) as real && n as real <= x + 0.5
    ensures n / 1000 <= p
  {
    assert n <= 1000 * p;
  }

  lemma {:induction false} PowerDigits(k: nat)
    ensures DigitCount(Decimal.Pow10(k)) == k + 1 && Stripped(Decimal.Pow10(k)) == 1
  {
    if k > 0 {
      PowerDigits(k - 1);
    }
  }

  /** A number of 31 digits fills the line: its zeros at the end are taken for decimals and removed.
      One digit less is still exact; a minus sign takes one digit's place. */
  lemma LongNumbers()
    ensures Printed(Decimal.Pow10(30) as real) == 1.0 && Printed(-(Decimal.Pow10(29) as real)) == -1.0
    ensures Printed(Decimal.Pow10(29) as real) == Decimal.Pow10(29) as real
    ensures Printed(-(Decimal.Pow10(28) as real)) == -(Decimal.Pow10(28) as real)
  {
    hide Decimal.Pow10, Printed, Magnitude;
    PowerPrinted(30);
    PowerPrinted(29);
    PowerPrinted(28);
  }

  lemma PowerPrinted(k: nat)
    ensures var p := Decimal.Pow10(k);
            && Printed(p as real) == Magnitude(p, 0, 31) && Printed(-(p as real)) == -Magnitude(p, 0, 30)
            && (k + 2 <= 30 ==> Magnitude(p, 0, 30) == p as real)
            && (k + 2 <= 31 ==> Magnitude(p, 0, 31) == p as real)
            && (k == 29 ==> Magnitude(p, 0, 30) == 1.0) && (k == 30 ==> Magnitude(p, 0, 31) == 1.0)
  {
    hide Decimal.Pow10, DigitCount, Stripped;
    var p := Decimal.Pow10(k);
    var x := p as real * 1000.0;
    assert x == (1000 * p) as real && x.Floor == 1000 * p;
    assert Nearest(x) == 1000 * p && 1000 * p / 1000 == p && 1000 * p % 1000 == 0;
    PowerDigits(k);
  }
}
