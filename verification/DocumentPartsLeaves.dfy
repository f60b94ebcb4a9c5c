/** Document parts by the page numbers of their description: which pages a part covers, and that
    these numbers come back. */
module DocumentPartsLeaves {
  import opened Optional
  import opened DocumentParts
  import opened DocumentPartsRoundTrip

  // ----- a description of a tree -----

  /** A JSON number denotes the page number that it reaches and does not exceed by one. */
  ghost predicate Denotes(x: real, p: nat) {
    p as real <= x < p as real + 1.0
  }

  /** `j` describes the tree `t`: the same metadata and parts, and the numbers of the ranges; the end
      of a range may be missing where it is its start. */
  ghost predicate Describes(j: Json, t: Tree)
    decreases t
  {
    match t
    case Inner(metadata, parts) =>
      && j.metadata == metadata && j.parts.Listing? && |j.parts.kids| == |parts|
      && forall i | 0 <= i < |parts| :: Describes(j.parts.kids[i], parts[i])
    case Range(metadata, start, end) =>
      && j.metadata == metadata && j.parts.NoListing? && j.start.Some? && start.Some? && end.Some?
      && Denotes(j.start.value, start.value)
      && (if j.end.Some? then Denotes(j.end.value, end.value) else end == start)
  }

  /** Ranges within `n` pages, and no node below level 64. */
  predicate Fits(t: Tree, n: nat, depth: nat)
    decreases t
  {
    depth <= 64 &&
    match t
    case Inner(_, parts) => forall i | 0 <= i < |parts| :: Fits(parts[i], n, depth + 1)
    case Range(_, start, end) => start.Some? && end.Some? && 1 <= start.value <= end.value <= n
  }

  /** A list of parts stands at level 64. */
  predicate ListAtLevel64(t: Tree, depth: nat)
    decreases t
  {
    t.Inner? && (depth == 64 || exists i | 0 <= i < |t.parts| :: ListAtLevel64(t.parts[i], depth + 1))
  }

  /** Some range of the tree covers page `p`. */
  predicate CoversPage(t: Tree, p: int)
    decreases t
  {
    match t
    case Inner(_, parts) => exists i | 0 <= i < |parts| :: CoversPage(parts[i], p)
    case Range(_, start, end) => start.Some? && end.Some? && start.value <= p <= end.value
  }

  /** Dropping the fraction: the whole number between 0 and `x` that is nearest to `x`. */
  lemma TruncNearest(x: real, k: int)
    ensures x >= 0.0 ==> 0.0 <= Trunc(x) as real <= x && (k as real <= x ==> k <= Trunc(x))
    ensures x <= 0.0 ==> x <= Trunc(x) as real <= 0.0 && (x <= k as real ==> Trunc(x) <= k)
  {
    if x >= 0.0 {
      assert x.Floor as real <= x < x.Floor as real + 1.0;
      assert k as real <= x ==> (k as real) < (x.Floor + 1) as real;
    } else {
      var y := -x;
      assert y.Floor as real <= y < y.Floor as real + 1.0;
      assert x <= k as real ==> (-k) as real <= y;
      assert x <= k as real ==> ((-k) as real) < (y.Floor + 1) as real;
    }
  }

  lemma TruncDenotes(x: real, p: nat)
    requires Denotes(x, p)
    ensures Trunc(x) == p
  {
    TruncNearest(x, p);
    assert (Trunc(x) as real) < (p + 1) as real;
  }

  lemma {:induction false} DescribesFits(j: Json, t: Tree, n: nat, depth: nat)
    requires Describes(j, t)
    ensures Valid(j, n, depth) <==> Fits(t, n, depth)
    decreases t
  {
    match t
    case Inner(_, parts) =>
      forall i | 0 <= i < |parts|
        ensures Valid(j.parts.kids[i], n, depth + 1) <==> Fits(parts[i], n, depth + 1)
      {
        DescribesFits(j.parts.kids[i], parts[i], n, depth + 1);
      }
    case Range(_, start, end) =>
      TruncDenotes(j.start.value, start.value);
      if j.end.Some? {
        TruncDenotes(j.end.value, end.value);
      }
  }

  lemma {:induction false} DescribesTree(j: Json, t: Tree, n: nat, depth: nat)
    requires Describes(j, t) && Fits(t, n, depth)
    ensures TreeOf(j) == t && (ListsAtLimit(j, depth) <==> ListAtLevel64(t, depth))
    decreases t
  {
    match t
    case Inner(_, parts) =>
      forall i | 0 <= i < |parts|
        ensures TreeOf(j.parts.kids[i]) == parts[i]
        ensures ListsAtLimit(j.parts.kids[i], depth + 1) <==> ListAtLevel64(parts[i], depth + 1)
      {
        DescribesTree(j.parts.kids[i], parts[i], n, depth + 1);
      }
      assert TreeOf(j).parts == parts;
    case Range(_, start, end) =>
      TruncDenotes(j.start.value, start.value);
      if j.end.Some? {
        TruncDenotes(j.end.value, end.value);
      }
  }

  /** A tree is written exactly when its ranges lie within the pages and no node is below level 64,
      and reads back as it was described exactly when no list of parts stands at level 64. */
  lemma DescribedRoundTripIff(objs: Objects, next: Id, j: Json, t: Tree, pages: seq<Id>)
    requires PagesBelow(pages, next) && Describes(j, t)
    ensures var out := Written(objs, next, j, pages);
            && (out.Built? <==> Fits(t, |pages|, 0))
            && (out.Built? ==> (Read(out.objs, next + 1, pages, 0) == t <==> !ListAtLevel64(t, 0)))
  {
    hide Written, Read, Valid, Fits, ListAtLevel64, ListsAtLimit, TreeOf;
    DescribesFits(j, t, |pages|, 0);
    DocumentWritten(objs, next, j, pages);
    if Fits(t, |pages|, 0) {
      DescribesTree(j, t, |pages|, 0);
      RoundTripIff(objs, next, j, pages);
    }
  }

  // ----- pages -----

  lemma {:induction false} LeavesCover(j: Json, t: Tree, n: nat, depth: nat, node: Id, next: Id, p: int)
    requires Describes(j, t) && Fits(t, n, depth)
    ensures Uncovered(Leaves(j, node, next), p) <==> !CoversPage(t, p)
    decreases t, 0
  {
    match t
    case Inner(_, parts) =>
      KidLeavesCover(j.parts.kids, parts, |parts|, n, depth + 1, next, p, t);
    case Range(_, start, end) =>
      TruncDenotes(j.start.value, start.value);
      if j.end.Some? {
        TruncDenotes(j.end.value, end.value);
      }
      assert Leaves(j, node, next)[0] == Leaf(node, start.value, end.value);
  }

  lemma {:induction false} KidLeavesCover(kids: seq<Json>, parts: seq<Tree>, i: nat, n: nat, depth: nat, next: Id,
      p: int, whole: Tree)
    requires whole.Inner? && whole.parts == parts
    requires i <= |kids| == |parts| && forall k | 0 <= k < |parts| :: Describes(kids[k], parts[k])
    requires forall k | 0 <= k < |parts| :: Fits(parts[k], n, depth)
    ensures Uncovered(LeavesUpTo(kids, i, next), p) <==> forall k | 0 <= k < i :: !CoversPage(parts[k], p)
    decreases whole, 0, i
  {
    if i > 0 {
      KidLeavesCover(kids, parts, i - 1, n, depth, next, p, whole);
      var kid := next + SizeUpTo(kids, i - 1);
      LeavesCover(kids[i - 1], parts[i - 1], n, depth, kid, kid + 1, p);
      UncoveredAppend(LeavesUpTo(kids, i - 1, next), Leaves(kids[i - 1], kid, kid + 1), p);
    }
  }

  lemma UncoveredAppend(a: seq<Leaf>, b: seq<Leaf>, p: int)
    ensures Uncovered(a + b, p) <==> Uncovered(a, p) && Uncovered(b, p)
  {
    var all := a + b;
    assert forall k | 0 <= k < |a| :: all[k] == a[k];
    assert forall k | 0 <= k < |b| :: all[|a| + k] == b[k];
  }

  /** A page points at a part if and only if a range of the description covers it, and the part it
      points at reads as a range that contains the page. */
  lemma PagesInTheirParts(objs: Objects, next: Id, j: Json, t: Tree, pages: seq<Id>, a: nat)
    requires PagesBelow(pages, next) && Describes(j, t) && Fits(t, |pages|, 0) && a < |pages|
    ensures var out := Written(objs, next, j, pages);
            && out.Built?
            && (Get(out.objs, pages[a]).dpart.Some? <==> CoversPage(t, a + 1))
            && (Get(out.objs, pages[a]).dpart.Some? ==>
                  var part := Read(out.objs, Get(out.objs, pages[a]).dpart.value, pages, 0);
                  part.Range? && CoversPage(part, a + 1))
  {
    hide Written, Leaves, Holds, Owner, Read, Fits, Valid, CoversPage;
    DescribesFits(j, t, |pages|, 0);
    DocumentWritten(objs, next, j, pages);
    var out, leaves := Written(objs, next, j, pages), Leaves(j, next + 1, next + 2);
    NoOwnerIff(leaves, a + 1);
    LeavesCover(j, t, |pages|, 0, next + 1, next + 2, a + 1);
    if Owner(leaves, a + 1, None).Some? {
      var k := OwnerIsLast(leaves, a + 1);
      LeavesHeld(out.objs, j, next + 1, Some(next), next + 2, pages, leaves[k]);
      LeafReads(out.objs, leaves[k], pages, a + 1);
    }
  }

  lemma LeafReads(objs: Objects, l: Leaf, pages: seq<Id>, p: int)
    requires LeafNode(objs, l, pages) && DocumentPartsRoundTrip.Distinct(pages) && Covers(l, p)
    ensures Read(objs, l.id, pages, 0).Range? && CoversPage(Read(objs, l.id, pages, 0), p)
  {
    SearchFinds(pages, 0, l.start - 1);
    SearchFinds(pages, 0, l.end - 1);
  }

  // ----- a single part -----

  /** One range of pages as the whole description: it is written as node `next + 1`, reads back with
      its page numbers, and exactly its pages point at that node. */
  lemma SingleRange(objs: Objects, next: Id, metadata: Option<string>, s: nat, e: nat, end: Option<real>,
      pages: seq<Id>, a: nat)
    requires PagesBelow(pages, next) && 1 <= s <= e <= |pages| && a < |pages|
    requires end == Some(e as real) || (end == None && e == s)
    ensures var out := Written(objs, next, Json(metadata, NoListing, Some(s as real), end), pages);
            && out.Built? && out.count == 1
            && Read(out.objs, next + 1, pages, 0) == Range(metadata, Some(s), Some(e))
            && Get(out.objs, pages[a]).dpart == if s <= a + 1 <= e then Some(next + 1) else None
  {
    hide Written, Read, Owner, Valid;
    var j, t := Json(metadata, NoListing, Some(s as real), end), Range(metadata, Some(s), Some(e));
    DescribedRoundTripIff(objs, next, j, t, pages);
    DocumentWritten(objs, next, j, pages);
    TruncDenotes(s as real, s);
    TruncDenotes(e as real, e);
    OwnerOne(Leaf(next + 1, s, e), a + 1, None);
  }

  /** A range that does not start at a page, ends before its start or beyond the last page, or has
      no start at all, is refused with its numbers. */
  lemma RangeRefused(objs: Objects, next: Id, metadata: Option<string>, s: int, e: int, start: Option<real>,
      end: Option<real>, pages: seq<Id>)
    requires PagesBelow(pages, next) && !(1 <= s <= e <= |pages|)
    requires start == Some(s as real) || (start == None && s == 0)
    requires end == Some(e as real) || (end == None && e == s)
    ensures Written(objs, next, Json(metadata, NoListing, start, end), pages) == Refused(BadRange(s, e))
  {
    WholeTrunc(s);
    WholeTrunc(e);
  }

  lemma WholeTrunc(n: int)
    ensures Trunc(n as real) == n
  {
    TruncNearest(n as real, n);
  }

  /** Sixty-four nested lists around a page are written, one more is not. */
  function Wrapped(k: nat): Json {
    if k == 0 then Json(None, NoListing, Some(1.0), None) else Json(None, Listing([Wrapped(k - 1)]), None, None)
  }

  lemma {:induction false} WrappedFits(k: nat, n: nat, depth: nat)
    requires n >= 1
    ensures Valid(Wrapped(k), n, depth) <==> depth + k <= 64
  {
    WholeTrunc(1);
    if k > 0 {
      assert Wrapped(k).parts.kids[0] == Wrapped(k - 1);
      WrappedFits(k - 1, n, depth + 1);
    }
  }

  lemma NestingLimit(objs: Objects, next: Id, k: nat, pages: seq<Id>)
    requires PagesBelow(pages, next) && pages != []
    ensures Written(objs, next, Wrapped(k), pages).Built? <==> k <= 64
  {
    hide Written, Valid;
    WrappedFits(k, |pages|, 0);
    DocumentWritten(objs, next, Wrapped(k), pages);
  }
}
