/** Which strings the options of a job admit as their values. */
module JobValues {
  import opened Jobs

  // ----- sizes -----

  /** The places of characters from code point `m` on. */
  ghost function From(s: string, m: int): set<nat> {
    set i: nat | i < |s| && s[i] as int >= m
  }

  lemma FromCons(s: string, m: int)
    requires s != ""
    ensures |From(s, m)| == |From(s[1..], m)| + if s[0] as int >= m then 1 else 0
  {
    var tail := From(s[1..], m);
    Shifted(tail);
    assert From(s, m) == Shift(tail) + if s[0] as int >= m then {0} else {} by {
      forall i: nat | i in From(s, m) && i != 0
        ensures i in Shift(tail)
      {
        assert s[1..][i - 1] == s[i];
        assert i - 1 in tail;
      }
    }
  }

  ghost function Shift(a: set<nat>): set<nat> {
    set i | i in a :: i + 1
  }

  lemma ShiftStep(a: set<nat>, x: nat)
    requires x in a
    ensures Shift(a) == Shift(a - {x}) + {x + 1} && x + 1 !in Shift(a - {x})
  {
    forall y: nat | y in Shift(a)
      ensures y in Shift(a - {x}) + {x + 1}
    {
      var i: nat :| i in a && y == i + 1;
      assert i != x ==> i in a - {x};
    }
  }

  lemma {:induction false} Shifted(a: set<nat>)
    ensures |Shift(a)| == |a|
  {
    if |a| == 0 {
      assert Shift(a) == {};
    } else {
      var x: nat :| x in a;
      Shifted(a - {x});
      ShiftStep(a, x);
    }
  }

  /** Two UTF-16 units for a character beyond the basic plane, one for any other. */
  lemma {:induction false} UnitsCounted(s: string)
    ensures Utf16Units(s) == |s| + |From(s, 0x10000)|
  {
    if s != "" {
      UnitsCounted(s[1..]);
      FromCons(s, 0x10000);
    } else {
      assert From(s, 0x10000) == {};
    }
  }

  /** UTF-8: one byte more from each of the three bounds on. */
  lemma {:induction false} BytesCounted(s: string)
    ensures Utf8Bytes(s) == |s| + |From(s, 0x80)| + |From(s, 0x800)| + |From(s, 0x10000)|
  {
    if s != "" {
      BytesCounted(s[1..]);
      FromCons(s, 0x80);
      FromCons(s, 0x800);
      FromCons(s, 0x10000);
    } else {
      assert From(s, 0x80) == {} && From(s, 0x800) == {} && From(s, 0x10000) == {};
    }
  }

  ghost predicate Ascii(s: string) {
    forall i | 0 <= i < |s| :: s[i] as int < 0x80
  }

  lemma AsciiSizes(s: string)
    requires Ascii(s)
    ensures Utf8Bytes(s) == |s| == Utf16Units(s)
  {
    UnitsCounted(s);
    BytesCounted(s);
    assert From(s, 0x80) == {} && From(s, 0x800) == {} && From(s, 0x10000) == {};
  }

  // ----- numbers -----

  ghost predicate Digits(s: string) {
    s != "" && forall i | 0 <= i < |s| :: '0' <= s[i] <= '9'
  }

  /** Digits, or digits on both sides of one point. */
  ghost predicate Numeral(v: string) {
    Digits(v) || exists k: nat :: Pointed(v, k)
  }

  ghost predicate Pointed(v: string, k: nat) {
    k < |v| && v[k] == '.' && Digits(v[..k]) && Digits(v[k + 1..])
  }

  lemma {:induction false} DotFound(v: string, i: nat, k: nat)
    requires i <= k <= |v| && (k < |v| ==> v[k] == '.') && forall j | i <= j < k :: v[j] != '.'
    ensures FirstDot(v, i) == k
    decreases k - i
  {
    if i < k {
      DotFound(v, i + 1, k);
    }
  }

  lemma NumeralAscii(v: string)
    requires Numeral(v)
    ensures Ascii(v) && v != ""
  {
    if !Digits(v) {
      var k: nat :| Pointed(v, k);
      forall i | 0 <= i < |v|
        ensures v[i] as int < 0x80
      {
        if i < k {
          assert v[..k][i] == v[i];
        } else if i > k {
          assert v[k + 1..][i - k - 1] == v[i];
        }
      }
    }
  }

  lemma {:induction false} DotIs(v: string, i: nat)
    requires i <= |v|
    ensures var dot := FirstDot(v, i); dot < |v| ==> v[dot] == '.'
    decreases |v| - i
  {
    if i < |v| {
      DotIs(v, i + 1);
    }
  }

  lemma IsNumberIff(v: string)
    ensures IsNumber(v) <==> Numeral(v) && |v| <= 10
  {
    if Numeral(v) {
      NumeralAscii(v);
      AsciiSizes(v);
      if Digits(v) {
        DotFound(v, 0, |v|);
      } else {
        var k: nat :| Pointed(v, k);
        assert forall j | 0 <= j < k :: v[j] == v[..k][j];
        DotFound(v, 0, k);
        assert forall i | k < i < |v| :: v[i] == v[k + 1..][i - k - 1];
      }
    }
    if IsNumber(v) {
      NumberIsNumeral(v);
      NumeralAscii(v);
      AsciiSizes(v);
    }
  }

  lemma NumberIsNumeral(v: string)
    requires IsNumber(v)
    ensures Numeral(v)
  {
    var dot := FirstDot(v, 0);
    DotIs(v, 0);
    if dot < |v| {
      assert Pointed(v, dot);
    }
  }

  /** The resolutions: at most ten characters of a plain decimal numeral. */
  lemma ResolutionIff(flag: string, v: string)
    requires flag in {"--raster-dpi", "--image-max-ppi"}
    ensures ValueOk(flag, v) <==> Numeral(v) && |v| <= 10
  {
    hide IsNumber;
    IsNumberIff(v);
    if Numeral(v) && |v| <= 10 {
      NumeralAscii(v);
      AsciiSizes(v);
      NumeralPrintable(v);
    }
  }

  lemma NumeralPrintable(v: string)
    requires Numeral(v)
    ensures forall i | 0 <= i < |v| :: 0x20 <= v[i] as int < 0x7f
  {
    if !Digits(v) {
      var k: nat :| Pointed(v, k);
      forall i | 0 <= i < |v|
        ensures 0x20 <= v[i] as int < 0x7f
      {
        if i < k {
          assert v[..k][i] == v[i];
        } else if i > k {
          assert v[k + 1..][i - k - 1] == v[i];
        }
      }
    }
  }

  // ----- the other options -----

  /** The record ranges: digits, commas, hyphens and blanks, at most 512 of them. */
  lemma RecordsIff(v: string)
    ensures ValueOk("--vt-records", v) <==>
            && 0 < |v| <= 512
            && forall i | 0 <= i < |v| :: '0' <= v[i] <= '9' || v[i] == ',' || v[i] == '-' || v[i] == ' '
  {
    if forall i | 0 <= i < |v| :: '0' <= v[i] <= '9' || v[i] == ',' || v[i] == '-' || v[i] == ' ' {
      AsciiSizes(v);
    }
  }

  /** The invoice profile: at most 32 letters, digits, blanks, underscores and hyphens. */
  lemma InvoiceProfileIff(v: string)
    ensures ValueOk("--facturx-profile", v) <==>
            && 0 < |v| <= 32
            && forall i | 0 <= i < |v| ::
                 || '0' <= v[i] <= '9' || 'a' <= v[i] <= 'z' || 'A' <= v[i] <= 'Z'
                 || v[i] == ' ' || v[i] == '_' || v[i] == '-'
  {
    if forall i | 0 <= i < |v| :: Alphanumeric(v[i]) || v[i] in {' ', '_', '-'} {
      AsciiSizes(v);
    }
  }

  /** Any other text: 1 to 512 UTF-16 units without control characters. */
  lemma PlainTextIff(flag: string, v: string)
    requires flag !in {"--raster-dpi", "--image-max-ppi", "--vt-records", "--facturx-profile"}
    ensures ValueOk(flag, v) <==>
            && v != "" && |v| + |From(v, 0x10000)| <= 512
            && forall i | 0 <= i < |v| :: v[i] as int >= 0x20 && v[i] as int != 0x7f
  {
    UnitsCounted(v);
  }

  /** A password: 1 to 65536 bytes of UTF-8 without a NUL. */
  lemma PasswordIff(p: string)
    ensures PasswordOk(p) <==>
            && p != "" && |p| + |From(p, 0x80)| + |From(p, 0x800)| + |From(p, 0x10000)| <= 65536
            && forall i | 0 <= i < |p| :: p[i] as int != 0
  {
    BytesCounted(p);
    assert '\0' in p <==> exists i | 0 <= i < |p| :: p[i] == '\0';
  }

  ghost predicate ProfilePart(s: string) {
    1 <= |s| <= 100 && forall i | 0 <= i < |s| :: 'a' <= s[i] <= 'z' || '0' <= s[i] <= '9' || s[i] == '-'
  }

  /** The name of a library profile: two short parts on either side of one slash. */
  lemma ProfileIff(site: Site, a: string, b: string)
    requires '/' !in a
    ensures LibraryProfile(site, a + "/" + b) <==> ProfilePart(a) && ProfilePart(b) && site.bundled(a + "/" + b)
    ensures !LibraryProfile(site, a)
  {
    var id := a + "/" + b;
    assert id[..|a|] == a && id[|a| + 1..] == b && id[|a|] == '/';
    assert forall k | 0 <= k < |a| :: id[k] == a[k] && a[k] != '/';
    forall k | 0 <= k < |id| && id[k] == '/' && IdPart(id[..k])
      ensures k == |a|
    {
      BeforeSlash(id, k, |a|);
    }
  }

  lemma BeforeSlash(id: string, k: nat, n: nat)
    requires k < |id| && n < |id| && id[n] == '/' && IdPart(id[..k])
    ensures k <= n
  {
    var part := id[..k];
    assert forall i | 0 <= i < |part| :: part[i] == id[i] && part[i] != '/';
  }
}
