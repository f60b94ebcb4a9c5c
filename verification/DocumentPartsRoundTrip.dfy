/** What a written tree of document parts looks like, and that it reads back as written. */
module DocumentPartsRoundTrip {
  import opened Optional
  import opened DocumentParts

  // ----- the description itself -----

  /** The number of nodes of a description. */
  function Size(j: Json): (n: nat)
    ensures n >= 1
    decreases j
  {
    if j.parts.Listing? then 1 + SizeUpTo(j.parts.kids, |j.parts.kids|) else 1
  }

  function SizeUpTo(kids: seq<Json>, i: nat): nat
    requires i <= |kids|
    decreases kids, i
  {
    if i == 0 then 0 else SizeUpTo(kids, i - 1) + Size(kids[i - 1])
  }

  /** No node is deeper than 64 levels, and every node without parts is a range of the pages. */
  predicate Valid(j: Json, n: nat, depth: nat)
    decreases j
  {
    depth <= MAX_DEPTH &&
    if j.parts.Listing? then forall i | 0 <= i < |j.parts.kids| :: Valid(j.parts.kids[i], n, depth + 1)
    else RangeOk(j, n)
  }

  /** A leaf of the description with the node it becomes. */
  datatype Leaf = Leaf(id: Id, start: int, end: int)

  predicate Covers(l: Leaf, p: int) {
    l.start <= p <= l.end
  }

  /** The leaves in the order of the description. Nodes are numbered in that order too: the node
      itself is `node`, those below it follow from `next`. */
  function Leaves(j: Json, node: Id, next: Id): seq<Leaf>
    decreases j
  {
    if j.parts.Listing? then LeavesUpTo(j.parts.kids, |j.parts.kids|, next)
    else [Leaf(node, StartOf(j), EndOf(j))]
  }

  function LeavesUpTo(kids: seq<Json>, i: nat, next: Id): seq<Leaf>
    requires i <= |kids|
    decreases kids, i
  {
    if i == 0 then []
    else
      var kid := next + SizeUpTo(kids, i - 1);
      LeavesUpTo(kids, i - 1, next) + Leaves(kids[i - 1], kid, kid + 1)
  }

  /** The last leaf that covers page `p`, or `default`. */
  function Owner(leaves: seq<Leaf>, p: int, default: Option<Id>): Option<Id> {
    if leaves == [] then default
    else if Covers(leaves[|leaves| - 1], p) then Some(leaves[|leaves| - 1].id)
    else Owner(leaves[..|leaves| - 1], p, default)
  }

  lemma {:induction false} OwnerAppend(a: seq<Leaf>, b: seq<Leaf>, p: int, default: Option<Id>)
    ensures Owner(a + b, p, default) == Owner(b, p, Owner(a, p, default))
  {
    if b == [] {
      assert a + b == a;
    } else {
      OwnerAppend(a, b[..|b| - 1], p, default);
      assert (a + b)[..|a + b| - 1] == a + b[..|b| - 1];
    }
  }

  lemma OwnerOne(leaf: Leaf, p: int, default: Option<Id>)
    ensures Owner([leaf], p, default) == if Covers(leaf, p) then Some(leaf.id) else default
  {
    assert [leaf][..0] == [];
  }

  // ----- the written tree -----

  ghost predicate Distinct(pages: seq<Id>) {
    forall a, b | 0 <= a < b < |pages| :: pages[a] != pages[b]
  }

  /** The pages are distinct objects among those numbered below `next`. */
  ghost predicate PagesBelow(pages: seq<Id>, next: Id) {
    Distinct(pages) && forall a | 0 <= a < |pages| :: pages[a] < next
  }

  /** The dictionary of a node, by its description. */
  function NodeDict(j: Json, parent: Option<Id>, next: Id, pages: seq<Id>): Dict
    requires !j.parts.Listing? ==> RangeOk(j, |pages|)
  {
    var d := EMPTY.(isPart := true, metadata := j.metadata, parent := parent);
    if j.parts.Listing? then d.(parts := Some([KidIds(j.parts.kids, |j.parts.kids|, next)]))
    else d.(start := Some(pages[StartOf(j) - 1]),
            end := if EndOf(j) != StartOf(j) then Some(pages[EndOf(j) - 1]) else None)
  }

  function KidIds(kids: seq<Json>, i: nat, next: Id): (ids: seq<Id>)
    requires i <= |kids|
    ensures |ids| == i
    ensures forall k | 0 <= k < i :: ids[k] == next + SizeUpTo(kids, k)
  {
    if i == 0 then [] else KidIds(kids, i - 1, next) + [next + SizeUpTo(kids, i - 1)]
  }

  /** The objects `node` and those from `next` on hold the tree `j`, each child pointing back at
      its parent. */
  ghost predicate Holds(objs: Objects, j: Json, node: Id, parent: Option<Id>, next: Id, pages: seq<Id>)
    decreases j
  {
    (!j.parts.Listing? ==> RangeOk(j, |pages|)) &&
    Get(objs, node) == NodeDict(j, parent, next, pages) &&
    (j.parts.Listing? ==> HoldsKids(objs, j.parts.kids, |j.parts.kids|, node, next, pages))
  }

  ghost predicate HoldsKids(objs: Objects, kids: seq<Json>, i: nat, node: Id, next: Id, pages: seq<Id>)
    requires i <= |kids|
    decreases kids, i
  {
    i == 0 ||
    var kid := next + SizeUpTo(kids, i - 1);
    HoldsKids(objs, kids, i - 1, node, next, pages) &&
    Holds(objs, kids[i - 1], kid, Some(node), kid + 1, pages)
  }

  /** Nothing but the objects of the tree matters. */
  lemma {:induction false} HoldsFrame(objs: Objects, other: Objects, j: Json, node: Id, parent: Option<Id>, next: Id,
      pages: seq<Id>)
    requires Holds(objs, j, node, parent, next, pages)
    requires Get(other, node) == Get(objs, node)
    requires forall id | next <= id < next + Size(j) - 1 :: Get(other, id) == Get(objs, id)
    ensures Holds(other, j, node, parent, next, pages)
    decreases j
  {
    if j.parts.Listing? {
      KidsFrame(objs, other, j.parts.kids, |j.parts.kids|, node, next, pages);
    }
  }

  lemma {:induction false} KidsFrame(objs: Objects, other: Objects, kids: seq<Json>, i: nat, node: Id, next: Id,
      pages: seq<Id>)
    requires i <= |kids| && HoldsKids(objs, kids, i, node, next, pages)
    requires forall id | next <= id < next + SizeUpTo(kids, i) :: Get(other, id) == Get(objs, id)
    ensures HoldsKids(other, kids, i, node, next, pages)
    decreases kids, i
  {
    if i > 0 {
      KidsFrame(objs, other, kids, i - 1, node, next, pages);
      var kid := next + SizeUpTo(kids, i - 1);
      HoldsFrame(objs, other, kids[i - 1], kid, Some(node), kid + 1, pages);
    }
  }

  // ----- building -----

  /** How the objects below `next` other than `node` may have changed: only the pages, and those
      only by pointing at the leaf that owns them. */
  ghost predicate Moved(objs: Objects, after: Objects, leaves: seq<Leaf>, node: Id, next: Id, pages: seq<Id>) {
    (forall id: Id | id < next && id != node && id !in pages :: Get(after, id) == Get(objs, id)) &&
    forall a | 0 <= a < |pages| ::
      Get(after, pages[a]) == Get(objs, pages[a]).(dpart := Owner(leaves, a + 1, Get(objs, pages[a]).dpart))
  }

  lemma {:induction false} StampedAt(objs: Objects, pages: seq<Id>, first: nat, last: nat, node: Id)
    requires 1 <= first <= last + 1 <= |pages| + 1 && Distinct(pages)
    ensures forall id: Id | id !in pages :: Get(Stamped(objs, pages, first, last, node), id) == Get(objs, id)
    ensures forall a | 0 <= a < |pages| :: Get(Stamped(objs, pages, first, last, node), pages[a]) ==
              if first <= a + 1 <= last then Get(objs, pages[a]).(dpart := Some(node)) else Get(objs, pages[a])
    decreases last
  {
    if first <= last {
      StampedAt(objs, pages, first, last - 1, node);
    }
  }

  lemma LeafMoves(objs: Objects, next: Id, j: Json, node: Id, parent: Option<Id>, pages: seq<Id>)
    requires PagesBelow(pages, next) && node < next && node !in pages
    requires Get(objs, node) == EMPTY.(parent := parent)
    requires !j.parts.Listing? && RangeOk(j, |pages|)
    ensures var ranged := Ranged(Typed(objs, j, node), pages, StartOf(j), EndOf(j), node);
            var after := Stamped(ranged, pages, StartOf(j), EndOf(j), node);
            Holds(after, j, node, parent, next, pages) && Moved(objs, after, Leaves(j, node, next), node, next, pages)
  {
    hide StartOf, EndOf, Owner, Stamped;
    var ranged := Ranged(Typed(objs, j, node), pages, StartOf(j), EndOf(j), node);
    StampedAt(ranged, pages, StartOf(j), EndOf(j), node);
    forall a | 0 <= a < |pages| {
      OwnerOne(Leaf(node, StartOf(j), EndOf(j)), a + 1, Get(objs, pages[a]).dpart);
    }
  }

  lemma JustMade(objs: Objects, id: Id, d: Dict)
    ensures Get(objs[id := d], id) == d
  {
  }

  lemma MovedNot(objs: Objects, node: Id, next: Id, pages: seq<Id>)
    ensures Moved(objs, objs, [], node, next, pages)
  {
  }

  lemma MovedThen(objs: Objects, middle: Objects, after: Objects, a: seq<Leaf>, b: seq<Leaf>, node: Id, next: Id,
      kid: Id, pages: seq<Id>)
    requires Moved(objs, middle, a, node, next, pages) && next <= kid && PagesBelow(pages, next)
    requires Moved(middle[kid := EMPTY.(parent := Some(node))], after, b, kid, kid + 1, pages)
    ensures Moved(objs, after, a + b, node, next, pages)
    ensures forall id: Id | id < kid && id !in pages :: Get(after, id) == Get(middle, id)
  {
    forall i | 0 <= i < |pages|
      ensures Get(after, pages[i]) == Get(objs, pages[i]).(dpart := Owner(a + b, i + 1, Get(objs, pages[i]).dpart))
    {
      OwnerAppend(a, b, i + 1, Get(objs, pages[i]).dpart);
      assert Get(middle[kid := EMPTY.(parent := Some(node))], pages[i]) == Get(middle, pages[i]);
    }
  }

  /** Building succeeds exactly for valid descriptions. */
  lemma {:induction false} BuildsIff(objs: Objects, next: Id, j: Json, node: Id, pages: seq<Id>, depth: nat)
    ensures Build(objs, next, j, node, pages, depth).Built? <==> Valid(j, |pages|, depth)
    decreases j
  {
    hide Typed, Ranged, Stamped, Adopted;
    if j.parts.Listing? {
      KidsBuildIff(Typed(objs, j, node), next, j.parts.kids, |j.parts.kids|, node, pages, depth + 1);
    }
  }

  lemma {:induction false} KidsBuildIff(objs: Objects, next: Id, kids: seq<Json>, i: nat, node: Id, pages: seq<Id>,
      depth: nat)
    requires i <= |kids|
    ensures BuildKids(objs, next, kids, i, node, pages, depth).Built? <==>
            forall k | 0 <= k < i :: Valid(kids[k], |pages|, depth)
    decreases kids, i
  {
    hide Build, Valid, EMPTY;
    if i > 0 {
      KidsBuildIff(objs, next, kids, i - 1, node, pages, depth);
      var before := BuildKids(objs, next, kids, i - 1, node, pages, depth);
      if before.Built? {
        BuildsIff(before.objs[before.next := EMPTY.(parent := Some(node))], before.next + 1, kids[i - 1], before.next,
            pages, depth);
      }
    }
  }

  /** `out` made one node per node of `j`, numbered in order, and its objects hold the tree. */
  ghost predicate Wrote(objs: Objects, next: Id, j: Json, node: Id, parent: Option<Id>, pages: seq<Id>, out: Outcome)
    requires out.Built?
  {
    && out.count == Size(j)
    && out.next == next + Size(j) - 1
    && Holds(out.objs, j, node, parent, next, pages)
    && Moved(objs, out.objs, Leaves(j, node, next), node, next, pages)
  }

  ghost predicate WroteKids(objs: Objects, next: Id, kids: seq<Json>, i: nat, node: Id, pages: seq<Id>, out: Outcome)
    requires out.Built? && i <= |kids|
  {
    && out.count == SizeUpTo(kids, i)
    && out.next == next + SizeUpTo(kids, i)
    && out.ids == KidIds(kids, i, next)
    && HoldsKids(out.objs, kids, i, node, next, pages)
    && Get(out.objs, node) == Get(objs, node)
    && Moved(objs, out.objs, LeavesUpTo(kids, i, next), node, next, pages)
  }

  lemma KidAdded(objs: Objects, next: Id, kids: seq<Json>, i: nat, node: Id, pages: seq<Id>, before: Outcome,
      out: Outcome)
    requires 0 < i <= |kids| && PagesBelow(pages, next) && node < next && node !in pages
    requires before.Built? && WroteKids(objs, next, kids, i - 1, node, pages, before)
    requires var kid := before.next;
             out.Built? && Wrote(before.objs[kid := EMPTY.(parent := Some(node))], kid + 1, kids[i - 1], kid,
                 Some(node), pages, out)
    ensures WroteKids(objs, next, kids, i, node, pages,
                      Built(out.objs, out.next, before.ids + [before.next], before.count + out.count))
  {
    hide Holds, Leaves, Size, Owner, Moved, Get, EMPTY;
    var kid := before.next;
    MovedThen(objs, before.objs, out.objs, LeavesUpTo(kids, i - 1, next), Leaves(kids[i - 1], kid, kid + 1), node,
        next, kid, pages);
    KidsFrame(before.objs, out.objs, kids, i - 1, node, next, pages);
  }

  lemma NodeClosed(objs: Objects, next: Id, j: Json, node: Id, parent: Option<Id>, pages: seq<Id>, inner: Outcome)
    requires j.parts.Listing? && node < next && node !in pages
    requires Get(objs, node) == EMPTY.(parent := parent)
    requires inner.Built? && WroteKids(Typed(objs, j, node), next, j.parts.kids, |j.parts.kids|, node, pages, inner)
    ensures Wrote(objs, next, j, node, parent, pages,
                  Built(Adopted(inner.objs, node, inner.ids), inner.next, [], 1 + inner.count))
  {
    hide HoldsKids, LeavesUpTo, SizeUpTo, Owner;
    var kids, after := j.parts.kids, Adopted(inner.objs, node, inner.ids);
    KidsFrame(inner.objs, after, kids, |kids|, node, next, pages);
  }

  lemma {:induction false} Builds(objs: Objects, next: Id, j: Json, node: Id, parent: Option<Id>, pages: seq<Id>,
      depth: nat)
    requires PagesBelow(pages, next) && node < next && node !in pages
    requires Get(objs, node) == EMPTY.(parent := parent)
    requires Build(objs, next, j, node, pages, depth).Built?
    ensures Wrote(objs, next, j, node, parent, pages, Build(objs, next, j, node, pages, depth))
    decreases j
  {
    hide Get, Stamped, Ranged, Moved, Holds, Typed, Adopted;
    if j.parts.Listing? {
      KidsBuild(Typed(objs, j, node), next, j.parts.kids, |j.parts.kids|, node, pages, depth + 1);
      NodeClosed(objs, next, j, node, parent, pages,
        BuildKids(Typed(objs, j, node), next, j.parts.kids, |j.parts.kids|, node, pages, depth + 1));
    } else {
      LeafMoves(objs, next, j, node, parent, pages);
    }
  }

  lemma {:induction false} KidsBuild(objs: Objects, next: Id, kids: seq<Json>, i: nat, node: Id, pages: seq<Id>,
      depth: nat)
    requires i <= |kids| && PagesBelow(pages, next) && node < next && node !in pages
    requires BuildKids(objs, next, kids, i, node, pages, depth).Built?
    ensures WroteKids(objs, next, kids, i, node, pages, BuildKids(objs, next, kids, i, node, pages, depth))
    decreases kids, i
  {
    hide Build, Wrote;
    if i == 0 {
      MovedNot(objs, node, next, pages);
    } else {
      KidsBuild(objs, next, kids, i - 1, node, pages, depth);
      var before := BuildKids(objs, next, kids, i - 1, node, pages, depth);
      KidsAdvance(objs, next, kids, i - 1, node, pages, before);
      hide WroteKids, Get, EMPTY;
      var kid, d := before.next, EMPTY.(parent := Some(node));
      JustMade(before.objs, kid, d);
      Builds(before.objs[kid := d], kid + 1, kids[i - 1], kid, Some(node), pages, depth);
      KidAdded(objs, next, kids, i, node, pages, before,
               Build(before.objs[kid := d], kid + 1, kids[i - 1], kid, pages, depth));
    }
  }

  lemma KidsAdvance(objs: Objects, next: Id, kids: seq<Json>, i: nat, node: Id, pages: seq<Id>, out: Outcome)
    requires out.Built? && i <= |kids| && WroteKids(objs, next, kids, i, node, pages, out)
    requires PagesBelow(pages, next)
    ensures out.next >= next && PagesBelow(pages, out.next + 1) && out.next !in pages
  {
  }

  // ----- reading back -----

  /** The tree a description means. */
  function TreeOf(j: Json): Tree
    decreases j
  {
    if j.parts.Listing? then
      Inner(j.metadata, seq(|j.parts.kids|, i requires 0 <= i < |j.parts.kids| => TreeOf(j.parts.kids[i])))
    else Range(j.metadata, AsPage(StartOf(j)), AsPage(EndOf(j)))
  }

  function AsPage(p: int): Option<nat> {
    if p >= 1 then Some(p) else None
  }

  /** Some node at level 64 has a list of parts, which is empty if the description is valid. */
  predicate ListsAtLimit(j: Json, depth: nat)
    decreases j
  {
    j.parts.Listing? &&
    (depth == MAX_DEPTH || exists i | 0 <= i < |j.parts.kids| :: ListsAtLimit(j.parts.kids[i], depth + 1))
  }

  lemma {:induction false} SearchFinds(pages: seq<Id>, i: nat, a: nat)
    requires Distinct(pages) && i <= a < |pages|
    ensures Search(pages, i, pages[a]) == Some(a + 1)
    decreases a - i
  {
    if i < a {
      SearchFinds(pages, i + 1, a);
    }
  }

  lemma {:induction false} KidHeld(objs: Objects, kids: seq<Json>, i: nat, k: nat, node: Id, next: Id, pages: seq<Id>)
    requires k < i <= |kids| && HoldsKids(objs, kids, i, node, next, pages)
    ensures var kid := next + SizeUpTo(kids, k); Holds(objs, kids[k], kid, Some(node), kid + 1, pages)
  {
    if k < i - 1 {
      KidHeld(objs, kids, i - 1, k, node, next, pages);
    }
  }

  lemma RangeReads(objs: Objects, j: Json, node: Id, parent: Option<Id>, next: Id, pages: seq<Id>, depth: nat)
    requires Holds(objs, j, node, parent, next, pages) && Distinct(pages) && depth <= MAX_DEPTH && !j.parts.Listing?
    ensures Read(objs, node, pages, depth) == TreeOf(j)
  {
    hide StartOf, EndOf;
    SearchFinds(pages, 0, StartOf(j) - 1);
    SearchFinds(pages, 0, EndOf(j) - 1);
  }

  lemma FlatOne(ids: seq<Id>)
    ensures Flat([ids], 1) == ids
  {
    assert Flat([ids], 0) + ids == ids;
  }

  /** Below the limit a node reads as the list of what its children read as. */
  lemma ListReads(objs: Objects, j: Json, node: Id, parent: Option<Id>, next: Id, pages: seq<Id>, depth: nat)
    requires Holds(objs, j, node, parent, next, pages) && depth < MAX_DEPTH && j.parts.Listing?
    ensures var t, kids := Read(objs, node, pages, depth), j.parts.kids;
            && t.Inner? && t.metadata == j.metadata && |t.parts| == |kids|
            && forall k | 0 <= k < |kids| :: t.parts[k] == Read(objs, next + SizeUpTo(kids, k), pages, depth + 1)
  {
    hide HoldsKids, SizeUpTo, Flat;
    var ids := KidIds(j.parts.kids, |j.parts.kids|, next);
    assert Get(objs, node).parts == Some([ids]);
    FlatOne(ids);
  }

  /** A held tree reads back as its description, unless a list of parts sits at the limit. */
  lemma {:induction false} ReadsBackIff(objs: Objects, j: Json, node: Id, parent: Option<Id>, next: Id,
      pages: seq<Id>, depth: nat)
    requires Holds(objs, j, node, parent, next, pages) && Distinct(pages) && depth <= MAX_DEPTH
    ensures Read(objs, node, pages, depth) == TreeOf(j) <==> !ListsAtLimit(j, depth)
    decreases j
  {
    hide Get, SizeUpTo, NodeDict;
    if !j.parts.Listing? {
      RangeReads(objs, j, node, parent, next, pages, depth);
    } else if depth < MAX_DEPTH {
      var kids := j.parts.kids;
      ListReads(objs, j, node, parent, next, pages, depth);
      var t := Read(objs, node, pages, depth);
      forall k | 0 <= k < |kids|
        ensures t.parts[k] == TreeOf(kids[k]) <==> !ListsAtLimit(kids[k], depth + 1)
      {
        KidHeld(objs, kids, |kids|, k, node, next, pages);
        var kid := next + SizeUpTo(kids, k);
        ReadsBackIff(objs, kids[k], kid, Some(node), kid + 1, pages, depth + 1);
      }
      assert TreeOf(j).metadata == t.metadata && |TreeOf(j).parts| == |t.parts|;
      assert t == TreeOf(j) <==> forall k | 0 <= k < |kids| :: t.parts[k] == TreeOf(j).parts[k];
    }
  }

  // ----- owners of pages -----

  /** The node of a leaf holds its range. */
  ghost predicate LeafNode(objs: Objects, l: Leaf, pages: seq<Id>) {
    var d := Get(objs, l.id);
    && 1 <= l.start <= l.end <= |pages|
    && d.isPart && d.parts.None?
    && d.start == Some(pages[l.start - 1])
    && d.end == if l.end != l.start then Some(pages[l.end - 1]) else None
  }

  lemma {:induction false} LeavesHeld(objs: Objects, j: Json, node: Id, parent: Option<Id>, next: Id, pages: seq<Id>,
      l: Leaf)
    requires Holds(objs, j, node, parent, next, pages) && l in Leaves(j, node, next)
    ensures LeafNode(objs, l, pages)
    decreases j
  {
    if j.parts.Listing? {
      KidLeavesHeld(objs, j.parts.kids, |j.parts.kids|, node, next, pages, l);
    }
  }

  lemma {:induction false} KidLeavesHeld(objs: Objects, kids: seq<Json>, i: nat, node: Id, next: Id, pages: seq<Id>,
      l: Leaf)
    requires i <= |kids| && HoldsKids(objs, kids, i, node, next, pages) && l in LeavesUpTo(kids, i, next)
    ensures LeafNode(objs, l, pages)
    decreases kids, i
  {
    if l in LeavesUpTo(kids, i - 1, next) {
      KidLeavesHeld(objs, kids, i - 1, node, next, pages, l);
    } else {
      var kid := next + SizeUpTo(kids, i - 1);
      LeavesHeld(objs, kids[i - 1], kid, Some(node), kid + 1, pages, l);
    }
  }

  ghost predicate Disjoint(leaves: seq<Leaf>) {
    forall a, b, p: int | 0 <= a < b < |leaves| && Covers(leaves[a], p) :: !Covers(leaves[b], p)
  }

  ghost predicate Uncovered(leaves: seq<Leaf>, p: int) {
    forall k | 0 <= k < |leaves| :: !Covers(leaves[k], p)
  }

  /** A page has no owner if and only if no leaf covers it. */
  lemma {:induction false} NoOwnerIff(leaves: seq<Leaf>, p: int)
    ensures Owner(leaves, p, None).None? <==> Uncovered(leaves, p)
  {
    hide Covers;
    if leaves != [] {
      var n := |leaves| - 1;
      NoOwnerIff(leaves[..n], p);
      assert forall k | 0 <= k < n :: leaves[..n][k] == leaves[k];
    }
  }

  /** The owner is the last leaf that covers the page. */
  lemma {:induction false} OwnerIsLast(leaves: seq<Leaf>, p: int) returns (k: nat)
    requires Owner(leaves, p, None).Some?
    ensures k < |leaves| && Covers(leaves[k], p) && Owner(leaves, p, None) == Some(leaves[k].id)
    ensures forall m | k < m < |leaves| :: !Covers(leaves[m], p)
  {
    hide Covers;
    var n := |leaves| - 1;
    if Covers(leaves[n], p) {
      k := n;
    } else {
      k := OwnerIsLast(leaves[..n], p);
      assert forall m | 0 <= m < n :: leaves[..n][m] == leaves[m];
    }
  }

  /** If no two leaves overlap, the owner is the one leaf that covers the page. */
  lemma OwnerIsOnly(leaves: seq<Leaf>, p: int, k: nat)
    requires Disjoint(leaves) && k < |leaves| && Covers(leaves[k], p)
    ensures Owner(leaves, p, None) == Some(leaves[k].id)
  {
    hide Covers, Owner;
    NoOwnerIff(leaves, p);
    var m := OwnerIsLast(leaves, p);
    assert m == k;
  }

  /** Every child points back at the node that lists it. */
  ghost predicate LinkedAt(objs: Objects, id: Id) {
    var d := Get(objs, id);
    d.parts.Some? ==> forall a, b | 0 <= a < |d.parts.value| && 0 <= b < |d.parts.value[a]| ::
      Get(objs, d.parts.value[a][b]).parent == Some(id)
  }

  lemma {:induction false} Linked(objs: Objects, j: Json, node: Id, parent: Option<Id>, next: Id, pages: seq<Id>,
      id: Id)
    requires Holds(objs, j, node, parent, next, pages) && (id == node || next <= id < next + Size(j) - 1)
    ensures LinkedAt(objs, id)
    decreases j
  {
    if j.parts.Listing? {
      var kids := j.parts.kids;
      if id == node {
        forall k | 0 <= k < |kids|
          ensures Get(objs, next + SizeUpTo(kids, k)).parent == Some(node)
        {
          KidHeld(objs, kids, |kids|, k, node, next, pages);
        }
      } else {
        KidLinked(objs, kids, |kids|, node, next, pages, id);
      }
    }
  }

  lemma {:induction false} KidLinked(objs: Objects, kids: seq<Json>, i: nat, node: Id, next: Id, pages: seq<Id>, id: Id)
    requires i <= |kids| && HoldsKids(objs, kids, i, node, next, pages) && next <= id < next + SizeUpTo(kids, i)
    ensures LinkedAt(objs, id)
    decreases kids, i
  {
    var kid := next + SizeUpTo(kids, i - 1);
    if id < kid {
      KidLinked(objs, kids, i - 1, node, next, pages, id);
    } else {
      Linked(objs, kids[i - 1], kid, Some(node), kid + 1, pages, id);
    }
  }

  // ----- whole documents -----

  lemma {:induction false} Cleared(objs: Objects, pages: seq<Id>, i: nat)
    requires i <= |pages| && Distinct(pages)
    ensures forall id: Id | id !in pages :: Get(WithoutDpart(objs, pages, i), id) == Get(objs, id)
    ensures forall a | 0 <= a < |pages| :: Get(WithoutDpart(objs, pages, i), pages[a]) ==
              if a < i then Get(objs, pages[a]).(dpart := None) else Get(objs, pages[a])
  {
    if i > 0 {
      Cleared(objs, pages, i - 1);
    }
  }

  /** The tree is written exactly when its description is valid; then the count is the number of
      its nodes, the new objects hold it, no other object than a page changes, and every page
      points at the last leaf that covers it. */
  lemma DocumentWritten(objs: Objects, next: Id, j: Json, pages: seq<Id>)
    requires PagesBelow(pages, next)
    ensures var out := Written(objs, next, j, pages);
            && (out.Built? <==> Valid(j, |pages|, 0))
            && (out.Built? ==>
                  && out.count == Size(j)
                  && Get(out.objs, next).root == Some(next + 1)
                  && Holds(out.objs, j, next + 1, Some(next), next + 2, pages)
                  && (forall id: Id | id < next && id !in pages :: Get(out.objs, id) == Get(objs, id))
                  && forall a | 0 <= a < |pages| :: Get(out.objs, pages[a]) ==
                       Get(objs, pages[a]).(dpart := Owner(Leaves(j, next + 1, next + 2), a + 1, None)))
  {
    hide Build, Holds, Leaves, Owner, Valid, WithoutDpart;
    var cleared := WithoutDpart(objs, pages, |pages|);
    Cleared(objs, pages, |pages|);
    var roots: Objects := cleared[next := EMPTY][next + 1 := EMPTY.(parent := Some(next))];
    BuildsIff(roots, next + 2, j, next + 1, pages, 0);
    var out := Build(roots, next + 2, j, next + 1, pages, 0);
    if out.Built? {
      Builds(roots, next + 2, j, next + 1, Some(next), pages, 0);
      HoldsFrame(out.objs, out.objs[next := Get(out.objs, next).(root := Some(next + 1))], j, next + 1, Some(next),
          next + 2, pages);
    }
  }

  /** Reading the document back gives the description's tree, if and only if no list of parts
      sits at level 64. */
  lemma RoundTripIff(objs: Objects, next: Id, j: Json, pages: seq<Id>)
    requires PagesBelow(pages, next) && Valid(j, |pages|, 0)
    ensures var out := Written(objs, next, j, pages);
            out.Built? && (Read(out.objs, next + 1, pages, 0) == TreeOf(j) <==> !ListsAtLimit(j, 0))
  {
    DocumentWritten(objs, next, j, pages);
    ReadsBackIff(Written(objs, next, j, pages).objs, j, next + 1, Some(next), next + 2, pages, 0);
  }

  /** If the leaves do not overlap, each page points at the leaf that covers it, a node that
      holds that range, and an uncovered page points at nothing. */
  lemma PagesOwned(objs: Objects, next: Id, j: Json, pages: seq<Id>, a: nat)
    requires PagesBelow(pages, next) && Valid(j, |pages|, 0) && a < |pages|
    ensures var out, leaves := Written(objs, next, j, pages), Leaves(j, next + 1, next + 2);
            && out.Built?
            && (Get(out.objs, pages[a]).dpart.None? <==> Uncovered(leaves, a + 1))
            && (Disjoint(leaves) ==> forall k | 0 <= k < |leaves| && Covers(leaves[k], a + 1) ::
                  Get(out.objs, pages[a]).dpart == Some(leaves[k].id) && LeafNode(out.objs, leaves[k], pages))
  {
    hide Written, Leaves, Holds, Owner, Valid, PagesBelow, LeafNode, Uncovered, Disjoint, Covers;
    DocumentWritten(objs, next, j, pages);
    var out, leaves := Written(objs, next, j, pages), Leaves(j, next + 1, next + 2);
    NoOwnerIff(leaves, a + 1);
    forall k | 0 <= k < |leaves| && Disjoint(leaves) && Covers(leaves[k], a + 1)
      ensures Owner(leaves, a + 1, None) == Some(leaves[k].id)
    {
      OwnerIsOnly(leaves, a + 1, k);
    }
    assert Get(out.objs, pages[a]).dpart == Owner(leaves, a + 1, None);
    forall k | 0 <= k < |leaves|
      ensures LeafNode(out.objs, leaves[k], pages)
    {
      LeavesHeld(out.objs, j, next + 1, Some(next), next + 2, pages, leaves[k]);
    }
  }

  /** Every node of the tree that lists children is the parent those children name. */
  lemma ParentsLinked(objs: Objects, next: Id, j: Json, pages: seq<Id>, id: Id)
    requires PagesBelow(pages, next) && Valid(j, |pages|, 0) && next < id <= next + Size(j)
    ensures var out := Written(objs, next, j, pages);
            out.Built? && Get(out.objs, next + 1).parent == Some(next) && LinkedAt(out.objs, id)
  {
    DocumentWritten(objs, next, j, pages);
    Linked(Written(objs, next, j, pages).objs, j, next + 1, Some(next), next + 2, pages, id);
  }

  /** `k` nested lists of one part around an empty list. */
  function Nested(k: nat): Json {
    Json(None, Listing(if k == 0 then [] else [Nested(k - 1)]), None, None)
  }

  lemma {:induction false} NestedReachesLimit(k: nat, n: nat)
    requires k <= MAX_DEPTH
    ensures Valid(Nested(k), n, MAX_DEPTH - k) && ListsAtLimit(Nested(k), MAX_DEPTH - k)
  {
    if k > 0 {
      NestedReachesLimit(k - 1, n);
      assert Nested(k).parts.kids[0] == Nested(k - 1);
    }
  }

  /** A description that is written without complaint and reads back as something else. */
  lemma EmptyListAtLimitIsLost(objs: Objects, next: Id, pages: seq<Id>)
    requires PagesBelow(pages, next)
    ensures var out := Written(objs, next, Nested(MAX_DEPTH), pages);
            out.Built? && Read(out.objs, next + 1, pages, 0) != TreeOf(Nested(MAX_DEPTH))
  {
    hide Nested, Valid, Written, Read, TreeOf, ListsAtLimit;
    NestedReachesLimit(MAX_DEPTH, |pages|);
    RoundTripIff(objs, next, Nested(MAX_DEPTH), pages);
  }
}
