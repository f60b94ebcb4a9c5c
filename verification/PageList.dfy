/** Page numbers printed as a list of ranges. */
module PageList {
  import opened Decimal
  import opened Concatenation
  import opened Optional

  datatype Range = Range(first: nat, last: nat)

  /** A set of page numbers as it is iterated. */
  ghost predicate Ascending(pages: seq<nat>) {
    forall i, j | 0 <= i < j < |pages| :: pages[i] < pages[j]
  }

  ghost predicate Covered(ranges: seq<Range>, p: int) {
    exists i | 0 <= i < |ranges| :: ranges[i].first <= p <= ranges[i].last
  }

  /** Increasing ranges with a gap between neighbours: disjoint, and none can be extended. */
  ghost predicate Maximal(ranges: seq<Range>) {
    && (forall i | 0 <= i < |ranges| :: ranges[i].first <= ranges[i].last)
    && forall i, j | 0 <= i < j < |ranges| :: ranges[i].last + 1 < ranges[j].first
  }

  function RangeText(r: Range): string {
    if r.first == 0 then "-"
    else if r.first == r.last then Text(r.first)
    else Text(r.first) + ("-" + Text(r.last))
  }

  function ListText(ranges: seq<Range>): string {
    if ranges == [] then ""
    else
      var front := ListText(ranges[..|ranges| - 1]);
      front + ((if front == "" then "" else ", ") + RangeText(ranges[|ranges| - 1]))
  }

  /** The first `n` pages are exactly what the ranges cover. */
  ghost predicate Lists(ranges: seq<Range>, pages: seq<nat>, n: nat) {
    && n <= |pages| && Maximal(ranges)
    && (forall i | 0 <= i < n :: Covered(ranges, pages[i]))
    && (forall p: nat | Covered(ranges, p) :: p in pages[..n])
    && (ranges != [] ==> n > 0 && ranges[|ranges| - 1].last == pages[n - 1])
  }

  lemma CoveredSnoc(ranges: seq<Range>, r: Range, p: int)
    ensures Covered(ranges + [r], p) <==> Covered(ranges, p) || r.first <= p <= r.last
  {
    var longer := ranges + [r];
    assert longer[|ranges|] == r;
    assert forall k | 0 <= k < |ranges| :: longer[k] == ranges[k];
  }

  lemma MaximalSnoc(ranges: seq<Range>, r: Range)
    requires Maximal(ranges) && r.first <= r.last
    requires ranges != [] ==> ranges[|ranges| - 1].last + 1 < r.first
    ensures Maximal(ranges + [r])
  {
    forall i | 0 <= i < |ranges|
      ensures ranges[i].last + 1 < r.first
    {
      assert ranges[i].last <= ranges[|ranges| - 1].last;
    }
  }

  lemma PrefixGrows(pages: seq<nat>, n: nat, m: nat, p: nat)
    requires n <= m <= |pages| && p in pages[..n]
    ensures p in pages[..m]
  {
    var i :| 0 <= i < n && pages[..n][i] == p;
    assert pages[..m][i] == p;
  }

  lemma InRun(pages: seq<nat>, n: nat, m: nat, p: nat)
    requires n < m <= |pages| && pages[n] <= p <= pages[m - 1]
    requires forall i | n <= i < m :: pages[i] == pages[n] + (i - n)
    ensures p in pages[..m]
  {
    assert pages[..m][n + (p - pages[n])] == p;
  }

  /** Maximal ranges whose expansion is exactly the set of pages. */
  ghost predicate ListsAll(ranges: seq<Range>, pages: seq<nat>) {
    Maximal(ranges) && forall p: nat :: p in pages <==> Covered(ranges, p)
  }

  /** A run of consecutive pages that neither neighbour continues becomes the next range. */
  lemma RunListed(ranges: seq<Range>, pages: seq<nat>, n: nat, m: nat)
    requires Ascending(pages) && n < m <= |pages| && Lists(ranges, pages, n)
    requires forall i | n <= i < m :: pages[i] == pages[n] + (i - n)
    requires n > 0 ==> ranges != [] && pages[n - 1] + 1 < pages[n]
    ensures Lists(ranges + [Range(pages[n], pages[m - 1])], pages, m)
  {
    var run := Range(pages[n], pages[m - 1]);
    MaximalSnoc(ranges, run);
    hide Maximal, Covered, Ascending;
    forall i | 0 <= i < m
      ensures Covered(ranges + [run], pages[i])
    {
      CoveredSnoc(ranges, run, pages[i]);
    }
    forall p: nat | Covered(ranges + [run], p)
      ensures p in pages[..m]
    {
      CoveredSnoc(ranges, run, p);
      if Covered(ranges, p) {
        PrefixGrows(pages, n, m, p);
      } else {
        InRun(pages, n, m, p);
      }
    }
  }

  lemma NoneListed(pages: seq<nat>)
    ensures Lists([], pages, 0) && ListText([]) == ""
  {
  }

  lemma AllListed(ranges: seq<Range>, pages: seq<nat>)
    requires Lists(ranges, pages, |pages|)
    ensures ListsAll(ranges, pages)
  {
    assert pages[..|pages|] == pages;
  }

  lemma ListsAllUnique(a: seq<Range>, b: seq<Range>, pages: seq<nat>)
    requires ListsAll(a, pages) && ListsAll(b, pages)
    ensures a == b
  {
    forall p: int
      ensures Covered(a, p) <==> Covered(b, p)
    {
      assert Covered(a, p) || Covered(b, p) ==> p >= 0;
    }
    RangesUnique(a, b);
  }

  lemma ListTextSnoc(ranges: seq<Range>, r: Range)
    ensures var front := ListText(ranges);
            ListText(ranges + [r]) == (front + (if front == "" then "" else ", ")) + RangeText(r)
  {
    assert (ranges + [r])[..|ranges|] == ranges;
    Assoc(ListText(ranges), if ListText(ranges) == "" then "" else ", ", RangeText(r));
  }

  /** `pageList` */
  method Print(pages: seq<nat>) returns (out: string, ghost ranges: seq<Range>)
    requires Ascending(pages)
    ensures out == ListText(ranges) && ListsAll(ranges, pages)
    ensures forall rs | ListsAll(rs, pages) :: out == ListText(rs)
  {
    hide Lists, ListsAll, ListText, RangeText, Maximal, Covered;
    out, ranges := "", [];
    var it := 0;
    NoneListed(pages);
    while it < |pages|
      invariant it <= |pages| && Lists(ranges, pages, it) && out == ListText(ranges)
      invariant it > 0 ==> ranges != []
      invariant 0 < it < |pages| ==> pages[it - 1] + 1 < pages[it]
    {
      var a, b := pages[it], pages[it];
      ghost var n := it;
      it := it + 1;
      while it < |pages| && pages[it] == b + 1
        invariant n < it <= |pages| && b == pages[it - 1]
        invariant forall i | n <= i < it :: pages[i] == a + (i - n)
      {
        b := pages[it];
        it := it + 1;
      }
      RunListed(ranges, pages, n, it);
      ListTextSnoc(ranges, Range(a, b));
      ranges := ranges + [Range(a, b)];
      if out != "" {
        out := out + ", ";
      }
      out := out + RangeText(Range(a, b));
    }
    AllListed(ranges, pages);
    forall rs | ListsAll(rs, pages)
      ensures out == ListText(rs)
    {
      ListsAllUnique(ranges, rs, pages);
    }
  }

  // ----- the list determines the set -----

  lemma FirstCovered(ranges: seq<Range>)
    requires Maximal(ranges) && ranges != []
    ensures Covered(ranges, ranges[0].first)
    ensures forall p | Covered(ranges, p) :: p >= ranges[0].first
  {
    forall p | Covered(ranges, p)
      ensures p >= ranges[0].first
    {
      var k :| 0 <= k < |ranges| && ranges[k].first <= p <= ranges[k].last;
      assert k == 0 || ranges[0].last + 1 < ranges[k].first;
    }
  }

  /** The page behind the first range is not covered; those in it are. */
  lemma FirstEnds(ranges: seq<Range>)
    requires Maximal(ranges) && ranges != []
    ensures ranges[0].first <= ranges[0].last && !Covered(ranges, ranges[0].last + 1)
    ensures forall p | ranges[0].first <= p <= ranges[0].last :: Covered(ranges, p)
    ensures Maximal(ranges[1..])
    ensures forall p :: Covered(ranges[1..], p) <==> Covered(ranges, p) && p > ranges[0].last
  {
    forall p
      ensures Covered(ranges[1..], p) <==> Covered(ranges, p) && p > ranges[0].last
    {
      if k :| 0 <= k < |ranges| && ranges[k].first <= p <= ranges[k].last {
        if k > 0 {
          assert ranges[1..][k - 1] == ranges[k];
          assert ranges[0].last + 1 < ranges[k].first;
        }
      }
      if k :| 0 <= k < |ranges[1..]| && ranges[1..][k].first <= p <= ranges[1..][k].last {
        assert ranges[1..][k] == ranges[k + 1];
        assert ranges[0].last + 1 < ranges[k + 1].first;
      }
    }
  }

  /** Maximal ranges are determined by the pages they cover. */
  lemma {:induction false} RangesUnique(a: seq<Range>, b: seq<Range>)
    requires Maximal(a) && Maximal(b) && forall p :: Covered(a, p) <==> Covered(b, p)
    ensures a == b
    decreases |a|
  {
    hide Maximal, Covered;
    if a != [] && b != [] {
      FirstCovered(a);
      FirstCovered(b);
      FirstEnds(a);
      FirstEnds(b);
      assert !Covered(b, a[0].last + 1) && !Covered(a, b[0].last + 1);
      assert Covered(b, a[0].first) && Covered(a, b[0].first);
      assert a[0] == b[0];
      RangesUnique(a[1..], b[1..]);
      assert a == [a[0]] + a[1..] && b == [b[0]] + b[1..];
    } else if a != [] {
      FirstCovered(a);
      NothingCovered(a[0].first);
    } else if b != [] {
      FirstCovered(b);
      NothingCovered(b[0].first);
    }
  }

  lemma NothingCovered(p: int)
    ensures !Covered([], p)
  {
  }

  // ----- reading a list -----

  /** The range at index `i`, with the index behind it. */
  function ReadRange(t: string, i: nat): (r: Option<(Range, nat)>)
    requires i <= |t|
    ensures r.Some? ==> i < r.value.1 <= |t|
  {
    var j := DigitsEnd(t, i);
    if j == i then None
    else if j < |t| && t[j] == '-' then
      var k := DigitsEnd(t, j + 1);
      if k == j + 1 then None else Some((Range(Value(t[i..j]), Value(t[j + 1..k])), k))
    else Some((Range(Value(t[i..j]), Value(t[i..j])), j))
  }

  /** The ranges from index `i` on, separated by comma and space. */
  function ReadList(t: string, i: nat): Option<seq<Range>>
    requires i <= |t|
    decreases |t| - i
  {
    match ReadRange(t, i)
    case None => None
    case Some((r, j)) =>
      if j == |t| then Some([r])
      else if j + 1 < |t| && t[j] == ',' && t[j + 1] == ' ' then
        (match ReadList(t, j + 2)
         case None => None
         case Some(rest) => Some([r] + rest))
      else None
  }

  /** A printed range, followed by the end or a comma, is read back. */
  lemma RangeRead(t: string, i: nat, r: Range)
    requires 0 < r.first <= r.last
    requires var j := i + |RangeText(r)|; j <= |t| && t[i..j] == RangeText(r) && (j < |t| ==> t[j] == ',')
    ensures ReadRange(t, i) == Some((r, i + |RangeText(r)|))
  {
    hide Text, DigitsEnd, Value, AllDigits;
    var a := Text(r.first);
    if r.first == r.last {
      DigitsEndAt(t, i, a);
    } else {
      var b := Text(r.last);
      PiecesStand(t, i, a, b);
      DigitsEndAt(t, i, a);
      DigitsEndAt(t, i + |a| + 1, b);
    }
  }

  lemma PiecesStand(t: string, i: nat, a: string, b: string)
    requires var j := i + |a| + 1 + |b|; j <= |t| && t[i..j] == a + ("-" + b)
    ensures t[i..i + |a|] == a && t[i + |a|] == '-' && t[i + |a| + 1..i + |a| + 1 + |b|] == b
  {
    var j := i + |a| + 1 + |b|;
    assert t[i..i + |a|] == t[i..j][..|a|];
    assert t[i + |a|] == t[i..j][|a|];
    assert t[i + |a| + 1..j] == t[i..j][|a| + 1..];
  }

  lemma {:induction false} ListTextCons(r: Range, rest: seq<Range>)
    ensures ListText([r] + rest) == if rest == [] then RangeText(r) else RangeText(r) + (", " + ListText(rest))
    ensures ListText([r] + rest) != ""
    decreases |rest|
  {
    hide RangeText, ListText;
    RangeTextNonempty(r);
    if rest == [] {
      ListTextOne(r);
      assert [r] + rest == [r];
    } else {
      var front, last := rest[..|rest| - 1], rest[|rest| - 1];
      assert front + [last] == rest && ([r] + front) + [last] == [r] + rest;
      ListTextCons(r, front);
      ListTextSnoc([r] + front, last);
      if front == [] {
        ListTextOne(last);
        assert rest == [last];
        Assoc(RangeText(r), ", ", RangeText(last));
      } else {
        ListTextSnoc(front, last);
        ListTextCons(front[0], front[1..]);
        assert [front[0]] + front[1..] == front;
        Regroup(RangeText(r), ListText(front), RangeText(last));
      }
    }
  }

  lemma ListTextOne(r: Range)
    ensures ListText([r]) == RangeText(r)
  {
    hide RangeText;
    assert [r][..0] == [];
  }

  lemma RangeTextNonempty(r: Range)
    ensures RangeText(r) != ""
  {
  }

  lemma Regroup(a: string, b: string, c: string)
    ensures ((a + (", " + b)) + ", ") + c == a + (", " + ((b + ", ") + c))
  {
  }

  /** Where the first range and the others stand in a list. */
  lemma ListStands(t: string, i: nat, a: string, rest: string)
    requires i <= |t| && t[i..] == a + (", " + rest)
    ensures var j := i + |a|; j + 2 <= |t| && t[i..j] == a && t[j] == ',' && t[j + 1] == ' ' && t[j + 2..] == rest
  {
    var j := i + |a|;
    assert t[i..j] == t[i..][..|a|];
    assert t[j] == t[i..][|a|] && t[j + 1] == t[i..][|a| + 1];
    assert t[j + 2..] == t[i..][|a| + 2..];
  }

  lemma {:induction false} ListRead(t: string, i: nat, ranges: seq<Range>)
    requires i <= |t| && t[i..] == ListText(ranges) && ranges != []
    requires forall k | 0 <= k < |ranges| :: 0 < ranges[k].first <= ranges[k].last
    ensures ReadList(t, i) == Some(ranges)
    decreases |ranges|
  {
    hide RangeText, ListText, ReadRange;
    var r, rest := ranges[0], ranges[1..];
    assert ranges == [r] + rest;
    ListTextCons(r, rest);
    if rest == [] {
      assert ranges == [r] && t[i..|t|] == RangeText(r);
      RangeRead(t, i, r);
    } else {
      ListStands(t, i, RangeText(r), ListText(rest));
      RangeRead(t, i, r);
      ListRead(t, i + |RangeText(r)| + 2, rest);
    }
  }

  /** A printed list reads back as its ranges, unless it starts with page 0, which prints as a
      dash. */
  lemma ReadsBackIff(ranges: seq<Range>)
    requires Maximal(ranges) && ranges != []
    ensures ReadList(ListText(ranges), 0) == Some(ranges) <==> ranges[0].first > 0
  {
    hide ListText, ReadList;
    var t := ListText(ranges);
    if ranges[0].first > 0 {
      assert forall k | 0 < k < |ranges| :: ranges[0].last + 1 < ranges[k].first;
      assert t[0..] == t;
      ListRead(t, 0, ranges);
    } else {
      DashUnread(ranges);
    }
  }

  lemma DashUnread(ranges: seq<Range>)
    requires ranges != [] && ranges[0].first == 0
    ensures ReadList(ListText(ranges), 0) == None
  {
    assert ranges == [ranges[0]] + ranges[1..];
    ListTextCons(ranges[0], ranges[1..]);
    assert ListText(ranges)[0] == '-';
    assert DigitsEnd(ListText(ranges), 0) == 0;
  }

  /** Two different sets of pages, {0} and {0, 1, 2}, print the same text. */
  lemma PageZeroHidesPages()
    ensures ListText([Range(0, 0)]) == ListText([Range(0, 2)]) == "-"
    ensures Maximal([Range(0, 0)]) && Maximal([Range(0, 2)])
    ensures !Covered([Range(0, 0)], 2) && Covered([Range(0, 2)], 2)
  {
    ListTextOne(Range(0, 0));
    ListTextOne(Range(0, 2));
    assert [Range(0, 2)][0].last == 2;
  }
}
