/** When the certified byte stream survives rewriting and renumbering of the document. */
module DigestInvariance {
  import opened Digest
  import opened Concatenation
  import Decimal

  type Renaming = Ref -> Ref

  // ----- the same object under a renaming -----

  /** The two values hash alike as far as their own structure goes: references correspond under
      `pi`, and entries that the digest skips may differ freely. */
  ghost predicate Same(pi: Renaming, v: Value, w: Value)
    decreases v
  {
    match v
    case Indirect(r) => w == Indirect(pi(r))
    case Direct(o) => w.Direct? && SameObject(pi, o, w.obj)
  }

  ghost predicate SameObject(pi: Renaming, o: Object, p: Object)
    decreases o
  {
    match o
    case Scalar(text) => p == o
    case Array(items) =>
      p.Array? && |items| == |p.items| && forall i | 0 <= i < |items| :: Same(pi, items[i], p.items[i])
    case Dict(entries) => p.Dict? && SameEntries(pi, entries, p.entries, DICT_SKIPPED)
    case Stream(entries, data) => p.Stream? && p.data == data && SameEntries(pi, entries, p.entries, STREAM_SKIPPED)
  }

  ghost predicate SameEntries(pi: Renaming, es: seq<Entry>, fs: seq<Entry>, skipped: set<string>)
    decreases es
  {
    var f := Kept(fs, skipped);
    if es == [] then f == []
    else if es[0].key in skipped then SameEntries(pi, es[1..], fs, skipped)
    else
      && f != [] && es[0].key == f[0].key && Same(pi, es[0].value, f[0].value)
      && SameEntries(pi, es[1..], f[1..], skipped)
  }

  ghost predicate SameParts(pi: Renaming, ps: seq<Entry>, qs: seq<Entry>) {
    |ps| == |qs| && forall i | 0 <= i < |ps| :: ps[i].key == qs[i].key && Same(pi, ps[i].value, qs[i].value)
  }

  /** No entry of `f` is skipped. */
  ghost predicate AllKept(f: seq<Entry>, skipped: set<string>) {
    forall k | 0 <= k < |f| :: f[k].key !in skipped
  }

  lemma {:induction false} KeptAllKept(fs: seq<Entry>, skipped: set<string>)
    ensures AllKept(Kept(fs, skipped), skipped)
  {
    if fs != [] {
      KeptAllKept(fs[1..], skipped);
    }
  }

  lemma {:induction false} KeptIdentity(f: seq<Entry>, skipped: set<string>)
    requires AllKept(f, skipped)
    ensures Kept(f, skipped) == f
  {
    if f != [] {
      KeptIdentity(f[1..], skipped);
    }
  }

  lemma KeptSuffix(fs: seq<Entry>, skipped: set<string>)
    requires Kept(fs, skipped) != []
    ensures var f := Kept(fs, skipped); Kept(f[1..], skipped) == f[1..]
  {
    KeptAllKept(fs, skipped);
    KeptIdentity(Kept(fs, skipped)[1..], skipped);
  }

  lemma PartsCons(pi: Renaming, e: Entry, ps: seq<Entry>, f: Entry, qs: seq<Entry>)
    requires e.key == f.key && Same(pi, e.value, f.value) && SameParts(pi, ps, qs)
    ensures SameParts(pi, [e] + ps, [f] + qs)
  {
  }

  lemma {:induction false} SameEntriesParts(pi: Renaming, es: seq<Entry>, fs: seq<Entry>, skipped: set<string>)
    requires SameEntries(pi, es, fs, skipped)
    ensures SameParts(pi, Kept(es, skipped), Kept(fs, skipped))
    decreases es
  {
    hide Same;
    if es != [] {
      if es[0].key in skipped {
        SameEntriesParts(pi, es[1..], fs, skipped);
      } else {
        var f := Kept(fs, skipped);
        assert f != [] && es[0].key == f[0].key && Same(pi, es[0].value, f[0].value) &&
               SameEntries(pi, es[1..], f[1..], skipped);
        SameEntriesParts(pi, es[1..], f[1..], skipped);
        KeptSuffix(fs, skipped);
        PartsCons(pi, es[0], Kept(es[1..], skipped), f[0], f[1..]);
        assert f == [f[0]] + f[1..] && Kept(es, skipped) == [es[0]] + Kept(es[1..], skipped);
      }
    }
  }

  lemma SameObjectParts(pi: Renaming, o: Object, p: Object)
    requires SameObject(pi, o, p)
    ensures SameParts(pi, Parts(o), Parts(p)) && Opening(o) == Opening(p) && Closing(o) == Closing(p)
    ensures o.Scalar? == p.Scalar?
  {
    match o
    case Dict(entries) => SameEntriesParts(pi, entries, p.entries, DICT_SKIPPED);
    case Stream(entries, _) => SameEntriesParts(pi, entries, p.entries, STREAM_SKIPPED);
    case _ =>
  }

  // ----- texts that diverge -----

  /** The strings differ at a place that both have. */
  ghost predicate Diverge(a: string, b: string) {
    exists i :: 0 <= i < |a| && i < |b| && a[i] != b[i]
  }

  lemma DivergeExtend(a: string, b: string, x: string, y: string)
    requires Diverge(a, b)
    ensures Diverge(a + x, b + y) && a + x != b + y
  {
    var i :| 0 <= i < |a| && i < |b| && a[i] != b[i];
    assert (a + x)[i] != (b + y)[i];
  }

  lemma DivergePrefix(p: string, a: string, b: string)
    requires Diverge(a, b)
    ensures Diverge(p + a, p + b)
  {
    var i :| 0 <= i < |a| && i < |b| && a[i] != b[i];
    assert (p + a)[|p| + i] != (p + b)[|p| + i];
  }

  /** Different digit strings, each followed by a blank, diverge. */
  lemma {:induction false} NumeralsDiverge(a: string, b: string)
    requires Decimal.AllDigits(a) && Decimal.AllDigits(b) && a != b
    ensures Diverge(a + " ", b + " ")
  {
    var x, y := a + " ", b + " ";
    if a == [] || b == [] || a[0] != b[0] {
      assert x[0] != y[0];
    } else {
      assert a[1..] != b[1..] by {
        assert a == [a[0]] + a[1..] && b == [b[0]] + b[1..];
      }
      NumeralsDiverge(a[1..], b[1..]);
      DivergePrefix([a[0]], a[1..] + " ", b[1..] + " ");
      assert [a[0]] + (a[1..] + " ") == x && [b[0]] + (b[1..] + " ") == y;
    }
  }

  /** References to different objects print texts that differ at a place that both have. */
  lemma RefTextsDiverge(r: Ref, s: Ref)
    requires r != s
    ensures Diverge(RefText(r), RefText(s))
  {
    var ri, rg, si, sg := Decimal.Text(r.id), Decimal.Text(r.gen), Decimal.Text(s.id), Decimal.Text(s.gen);
    assert RefText(r) == (ri + " ") + (rg + " R") && RefText(s) == (si + " ") + (sg + " R");
    if ri != si {
      NumeralsDiverge(ri, si);
      DivergeExtend(ri + " ", si + " ", rg + " R", sg + " R");
    } else {
      assert r.id == Decimal.Value(ri) && s.id == Decimal.Value(si);
      assert rg != sg by {
        assert r.gen == Decimal.Value(rg) && s.gen == Decimal.Value(sg);
      }
      NumeralsDiverge(rg, sg);
      DivergeExtend(rg + " ", sg + " ", "R", "R");
      assert rg + " R" == (rg + " ") + "R" && sg + " R" == (sg + " ") + "R";
      DivergePrefix(ri + " ", rg + " R", sg + " R");
    }
  }

  // ----- lockstep -----

  /** Every indirect scalar among `refs` keeps its number. */
  ghost predicate ScalarsFixed(g: Graph, pi: Renaming, refs: seq<Ref>) {
    forall i | 0 <= i < |refs| :: Lookup(g, refs[i]).Scalar? ==> pi(refs[i]) == refs[i]
  }

  function Image(pi: Renaming, s: set<Ref>): set<Ref> {
    set r | r in s :: pi(r)
  }

  /** `pi` is one-to-one on `visited` and carries every visited object to its counterpart. */
  ghost predicate Carries(g: Graph, h: Graph, pi: Renaming, visited: set<Ref>) {
    && (forall r <- visited, s <- visited :: pi(r) == pi(s) ==> r == s)
    && forall r <- visited :: SameObject(pi, Lookup(g, r), Lookup(h, pi(r)))
  }

  /** The outcome of a traversal and of its counterpart: equal as long as the indirect scalars keep
      their numbers, and diverging as soon as one does not. */
  ghost predicate Lockstep(g: Graph, pi: Renaming, out: Fed, out': Fed) {
    if ScalarsFixed(g, pi, out.bodies) then out'.bytes == out.bytes && out'.seen == Image(pi, out.seen)
    else Diverge(out.bytes, out'.bytes)
  }

  lemma LockstepThen(g: Graph, pi: Renaming, key: string, first: Fed, first': Fed, rest: Fed, rest': Fed)
    requires Lockstep(g, pi, first, first')
    requires ScalarsFixed(g, pi, first.bodies) ==> Lockstep(g, pi, rest, rest')
    ensures Lockstep(g, pi, Fed(key + (first.bytes + rest.bytes), rest.seen, first.bodies + rest.bodies),
                            Fed(key + (first'.bytes + rest'.bytes), rest'.seen, first'.bodies + rest'.bodies))
  {
    var all := first.bodies + rest.bodies;
    if ScalarsFixed(g, pi, first.bodies) {
      FixedAppend(g, pi, first.bodies, rest.bodies);
      if !ScalarsFixed(g, pi, rest.bodies) {
        DivergePrefix(first.bytes, rest.bytes, rest'.bytes);
        DivergePrefix(key, first.bytes + rest.bytes, first'.bytes + rest'.bytes);
      }
    } else {
      FixedAppend(g, pi, first.bodies, rest.bodies);
      DivergeExtend(first.bytes, first'.bytes, rest.bytes, rest'.bytes);
      DivergePrefix(key, first.bytes + rest.bytes, first'.bytes + rest'.bytes);
    }
  }

  lemma FixedAppend(g: Graph, pi: Renaming, a: seq<Ref>, b: seq<Ref>)
    ensures ScalarsFixed(g, pi, a + b) <==> ScalarsFixed(g, pi, a) && ScalarsFixed(g, pi, b)
  {
    var all := a + b;
    assert forall i | 0 <= i < |a| :: a[i] == all[i];
    assert forall i | 0 <= i < |b| :: b[i] == all[|a| + i];
  }

  lemma ImageMember(pi: Renaming, g: Graph, h: Graph, visited: set<Ref>, seen: set<Ref>, r: Ref)
    requires Carries(g, h, pi, visited) && seen <= visited && r in visited
    ensures pi(r) in Image(pi, seen) <==> r in seen
    ensures Image(pi, seen + {r}) == Image(pi, seen) + {pi(r)}
  {
  }

  lemma {:induction false} ValueLockstep(g: Graph, h: Graph, pi: Renaming, visited: set<Ref>, v: Value, w: Value,
      seen: set<Ref>, depth: nat)
    requires depth <= MAX_DEPTH + 1 && Same(pi, v, w)
    requires Carries(g, h, pi, visited) && HashValue(g, v, seen, depth).seen <= visited
    ensures Lockstep(g, pi, HashValue(g, v, seen, depth), HashValue(h, w, Image(pi, seen), depth))
    decreases MAX_DEPTH + 1 - depth, 1
  {
    ValueOnce(g, v, seen, depth);
    if depth <= MAX_DEPTH {
      if v.Indirect? {
        assert v.ref in HashValue(g, v, seen, depth).seen;
        ImageMember(pi, g, h, visited, seen, v.ref);
      }
      if !(v.Indirect? && v.ref in seen) {
        assert Unseen(pi, v, w, seen);
        assert SameObject(pi, Target(g, v), Target(h, w));
        if Target(g, v).Scalar? {
          ScalarLockstep(g, h, pi, v, w, seen, depth);
        } else {
          ContainerLockstep(g, h, pi, visited, v, w, seen, depth);
        }
      }
    }
  }

  lemma {:induction false} ContainerLockstep(g: Graph, h: Graph, pi: Renaming, visited: set<Ref>, v: Value, w: Value,
      seen: set<Ref>, depth: nat)
    requires depth <= MAX_DEPTH && Unseen(pi, v, w, seen)
    requires SameObject(pi, Target(g, v), Target(h, w)) && !Target(g, v).Scalar?
    requires Carries(g, h, pi, visited) && HashValue(g, v, seen, depth).seen <= visited
    ensures Lockstep(g, pi, HashValue(g, v, seen, depth), HashValue(h, w, Image(pi, seen), depth))
    decreases MAX_DEPTH + 1 - depth, 0
  {
    hide HashValue, HashParts, Lockstep, ScalarsFixed, Carries, SameObject, SameParts, Image;
    var o, p := Target(g, v), Target(h, w);
    SameObjectParts(pi, o, p);
    HashContainer(g, v, seen, depth);
    HashContainer(h, w, Image(pi, seen), depth);
    OwnIsContainer(g, pi, v);
    PartsLockstep(g, h, pi, visited, Parts(o), Parts(p), Entered(v, seen), depth + 1);
    var inner := HashParts(g, Parts(o), Entered(v, seen), depth + 1);
    var inner' := HashParts(h, Parts(p), Entered(w, Image(pi, seen)), depth + 1);
    LockstepWrap(g, pi, Own(v), Own(w), Opening(o), inner, inner', Closing(o));
  }

  lemma OwnIsContainer(g: Graph, pi: Renaming, v: Value)
    requires !Target(g, v).Scalar?
    ensures ScalarsFixed(g, pi, Own(v))
  {
  }

  function Own(v: Value): seq<Ref> {
    if v.Indirect? then [v.ref] else []
  }

  function Entered(v: Value, seen: set<Ref>): set<Ref> {
    if v.Indirect? then seen + {v.ref} else seen
  }

  /** Corresponding values that neither traversal has seen. */
  ghost predicate Unseen(pi: Renaming, v: Value, w: Value, seen: set<Ref>) {
    && v.Indirect? == w.Indirect?
    && (v.Indirect? ==> w.ref == pi(v.ref) && v.ref !in seen && w.ref !in Image(pi, seen))
    && Image(pi, Entered(v, seen)) == Entered(w, Image(pi, seen))
  }

  lemma HashContainer(g: Graph, v: Value, seen: set<Ref>, depth: nat)
    requires depth <= MAX_DEPTH && (v.Indirect? ==> v.ref !in seen) && !Target(g, v).Scalar?
    ensures var o := Target(g, v);
            var inner := HashParts(g, Parts(o), Entered(v, seen), depth + 1);
            HashValue(g, v, seen, depth) ==
            Fed(Opening(o) + (inner.bytes + Closing(o)), inner.seen, Own(v) + inner.bodies)
  {
  }

  lemma ScalarLockstep(g: Graph, h: Graph, pi: Renaming, v: Value, w: Value, seen: set<Ref>, depth: nat)
    requires depth <= MAX_DEPTH && Unseen(pi, v, w, seen) && Target(g, v).Scalar? && Target(h, w) == Target(g, v)
    ensures Lockstep(g, pi, HashValue(g, v, seen, depth), HashValue(h, w, Image(pi, seen), depth))
  {
    if v.Indirect? && pi(v.ref) != v.ref {
      RefTextsDiverge(v.ref, pi(v.ref));
      DivergeExtend(RefText(v.ref), RefText(pi(v.ref)), " ", " ");
      assert !ScalarsFixed(g, pi, [v.ref]) by {
        assert [v.ref][0] == v.ref;
      }
    }
  }

  lemma LockstepWrap(g: Graph, pi: Renaming, own: seq<Ref>, own': seq<Ref>, open: string, inner: Fed, inner': Fed,
      close: string)
    requires Lockstep(g, pi, inner, inner') && ScalarsFixed(g, pi, own)
    ensures Lockstep(g, pi, Fed(open + (inner.bytes + close), inner.seen, own + inner.bodies),
                            Fed(open + (inner'.bytes + close), inner'.seen, own' + inner'.bodies))
  {
    FixedAppend(g, pi, own, inner.bodies);
    if !ScalarsFixed(g, pi, inner.bodies) {
      DivergeExtend(inner.bytes, inner'.bytes, close, close);
      DivergePrefix(open, inner.bytes + close, inner'.bytes + close);
    }
  }

  lemma {:induction false} PartsLockstep(g: Graph, h: Graph, pi: Renaming, visited: set<Ref>, ps: seq<Entry>,
      qs: seq<Entry>, seen: set<Ref>, depth: nat)
    requires depth <= MAX_DEPTH + 1 && SameParts(pi, ps, qs)
    requires Carries(g, h, pi, visited) && HashParts(g, ps, seen, depth).seen <= visited
    ensures Lockstep(g, pi, HashParts(g, ps, seen, depth), HashParts(h, qs, Image(pi, seen), depth))
    decreases MAX_DEPTH + 1 - depth, |ps| + 2
  {
    if ps != [] {
      var first, first' := HashValue(g, ps[0].value, seen, depth), HashValue(h, qs[0].value, Image(pi, seen), depth);
      var rest, rest' := HashParts(g, ps[1..], first.seen, depth), HashParts(h, qs[1..], first'.seen, depth);
      PartsOnce(g, ps[1..], first.seen, depth);
      ValueLockstep(g, h, pi, visited, ps[0].value, qs[0].value, seen, depth);
      if ScalarsFixed(g, pi, first.bodies) {
        PartsLockstep(g, h, pi, visited, ps[1..], qs[1..], first.seen, depth);
      }
      LockstepThen(g, pi, ps[0].key, first, first', rest, rest');
    }
  }

  // ----- page attributes -----

  /** The object with every reference in it renamed. */
  function Renamed(pi: Renaming, o: Object): Object
    decreases o
  {
    match o
    case Scalar(_) => o
    case Array(items) => Array(RenamedItems(pi, items))
    case Dict(entries) => Dict(RenamedEntries(pi, entries))
    case Stream(entries, data) => Stream(RenamedEntries(pi, entries), data)
  }

  function RenamedValue(pi: Renaming, v: Value): Value
    decreases v
  {
    match v
    case Indirect(r) => Indirect(pi(r))
    case Direct(o) => Direct(Renamed(pi, o))
  }

  function RenamedItems(pi: Renaming, items: seq<Value>): seq<Value>
    decreases items
  {
    if items == [] then [] else [RenamedValue(pi, items[0])] + RenamedItems(pi, items[1..])
  }

  function RenamedEntries(pi: Renaming, entries: seq<Entry>): seq<Entry>
    decreases entries
  {
    if entries == [] then []
    else [Entry(entries[0].key, RenamedValue(pi, entries[0].value))] + RenamedEntries(pi, entries[1..])
  }

  /** The references that an object prints. */
  function Printed(o: Object): set<Ref>
    decreases o
  {
    match o
    case Scalar(_) => {}
    case Array(items) => PrintedItems(items)
    case Dict(entries) => PrintedEntries(entries)
    case Stream(entries, _) => PrintedEntries(entries)
  }

  function PrintedValue(v: Value): set<Ref>
    decreases v
  {
    if v.Indirect? then {v.ref} else Printed(v.obj)
  }

  function PrintedItems(items: seq<Value>): set<Ref>
    decreases items
  {
    if items == [] then {} else PrintedValue(items[0]) + PrintedItems(items[1..])
  }

  function PrintedEntries(entries: seq<Entry>): set<Ref>
    decreases entries
  {
    if entries == [] then {} else PrintedValue(entries[0].value) + PrintedEntries(entries[1..])
  }

  ghost predicate Fixed(pi: Renaming, refs: set<Ref>) {
    forall r <- refs :: pi(r) == r
  }

  /** Equal texts if `fixed`, diverging ones if not. */
  ghost predicate InStep(fixed: bool, a: string, b: string) {
    if fixed then a == b else Diverge(a, b)
  }

  lemma StepThen(f: bool, a: string, b: string, f': bool, x: string, y: string)
    requires InStep(f, a, b) && (f ==> InStep(f', x, y))
    ensures InStep(f && f', a + x, b + y)
  {
    if !f {
      DivergeExtend(a, b, x, y);
    } else if !f' {
      DivergePrefix(a, x, y);
    }
  }

  lemma FixedUnion(pi: Renaming, a: set<Ref>, b: set<Ref>)
    ensures Fixed(pi, a + b) <==> Fixed(pi, a) && Fixed(pi, b)
  {
  }

  /** Texts of an object before and after a renaming. */
  lemma {:induction false} PrintsInStep(pi: Renaming, o: Object)
    ensures InStep(Fixed(pi, Printed(o)), UnparseResolved(o), UnparseResolved(Renamed(pi, o)))
    decreases o
  {
    match o
    case Scalar(_) =>
    case Array(items) =>
      ItemsInStep(pi, items);
      Bracketed(Fixed(pi, Printed(o)), "[ ", UnparseItems(items), UnparseItems(RenamedItems(pi, items)), "]");
    case Dict(entries) =>
      EntriesInStep(pi, entries);
      var after := UnparseEntries(RenamedEntries(pi, entries));
      Bracketed(Fixed(pi, Printed(o)), "<< ", UnparseEntries(entries), after, ">>");
    case Stream(entries, _) =>
      EntriesInStep(pi, entries);
      var after := UnparseEntries(RenamedEntries(pi, entries));
      Bracketed(Fixed(pi, Printed(o)), "<< ", UnparseEntries(entries), after, ">>");
  }

  lemma Bracketed(f: bool, open: string, a: string, b: string, close: string)
    requires InStep(f, a, b)
    ensures InStep(f, open + a + close, open + b + close)
  {
    StepThen(true, open, open, f, a, b);
    StepThen(f, open + a, open + b, true, close, close);
  }

  lemma {:induction false} ValueInStep(pi: Renaming, v: Value)
    ensures InStep(Fixed(pi, PrintedValue(v)), Unparse(v), Unparse(RenamedValue(pi, v)))
    decreases v
  {
    if v.Direct? {
      PrintsInStep(pi, v.obj);
    } else if pi(v.ref) != v.ref {
      RefTextsDiverge(v.ref, pi(v.ref));
      assert v.ref in PrintedValue(v);
    }
  }

  lemma {:induction false} ItemsInStep(pi: Renaming, items: seq<Value>)
    ensures InStep(Fixed(pi, PrintedItems(items)), UnparseItems(items), UnparseItems(RenamedItems(pi, items)))
    decreases items
  {
    if items != [] {
      var v, tail := items[0], items[1..];
      ValueInStep(pi, v);
      ItemsInStep(pi, tail);
      var w := RenamedValue(pi, v);
      RenamedItemsCons(pi, items);
      var f := Fixed(pi, PrintedValue(v));
      StepThen(f, Unparse(v), Unparse(w), true, " ", " ");
      StepThen(f, Unparse(v) + " ", Unparse(w) + " ", Fixed(pi, PrintedItems(tail)),
               UnparseItems(tail), UnparseItems(RenamedItems(pi, tail)));
      FixedUnion(pi, PrintedValue(v), PrintedItems(tail));
    }
  }

  lemma RenamedItemsCons(pi: Renaming, items: seq<Value>)
    requires items != []
    ensures UnparseItems(RenamedItems(pi, items)) ==
            Unparse(RenamedValue(pi, items[0])) + " " + UnparseItems(RenamedItems(pi, items[1..]))
  {
    var all := RenamedItems(pi, items);
    assert all[0] == RenamedValue(pi, items[0]) && all[1..] == RenamedItems(pi, items[1..]);
  }

  lemma {:induction false} EntriesInStep(pi: Renaming, entries: seq<Entry>)
    ensures InStep(Fixed(pi, PrintedEntries(entries)),
                   UnparseEntries(entries), UnparseEntries(RenamedEntries(pi, entries)))
    decreases entries
  {
    if entries != [] {
      var key, v, tail := entries[0].key + " ", entries[0].value, entries[1..];
      ValueInStep(pi, v);
      EntriesInStep(pi, tail);
      var w := RenamedValue(pi, v);
      RenamedEntriesCons(pi, entries);
      var f := Fixed(pi, PrintedValue(v));
      Bracketed(f, key, Unparse(v), Unparse(w), " ");
      StepThen(f, key + Unparse(v) + " ", key + Unparse(w) + " ", Fixed(pi, PrintedEntries(tail)),
               UnparseEntries(tail), UnparseEntries(RenamedEntries(pi, tail)));
      FixedUnion(pi, PrintedValue(v), PrintedEntries(tail));
    }
  }

  lemma RenamedEntriesCons(pi: Renaming, entries: seq<Entry>)
    requires entries != []
    ensures UnparseEntries(RenamedEntries(pi, entries)) ==
            entries[0].key + " " + Unparse(RenamedValue(pi, entries[0].value)) + " " +
            UnparseEntries(RenamedEntries(pi, entries[1..]))
  {
    var all := RenamedEntries(pi, entries);
    assert all[0].value == RenamedValue(pi, entries[0].value) && all[1..] == RenamedEntries(pi, entries[1..]);
  }

  /** The references that an attribute of a page prints. */
  function BoxRefs(g: Graph, v: Value): set<Ref> {
    if v.Indirect? && Target(g, v).Stream? then {v.ref} else Printed(Target(g, v))
  }

  /** The attribute after rewriting: the same object with its references renamed. */
  ghost predicate SameBox(g: Graph, h: Graph, pi: Renaming, v: Value, w: Value) {
    && Target(h, w) == Renamed(pi, Target(g, v))
    && (Target(g, v).Stream? ==> w == RenamedValue(pi, v))
  }

  lemma BoxInStep(g: Graph, h: Graph, pi: Renaming, v: Value, w: Value)
    requires SameBox(g, h, pi, v, w)
    ensures InStep(Fixed(pi, BoxRefs(g, v)), BoxText(g, v), BoxText(h, w))
  {
    if v.Indirect? && Target(g, v).Stream? {
      ValueInStep(pi, v);
    } else {
      PrintsInStep(pi, Target(g, v));
    }
  }

  // ----- documents -----

  /** Every reference that the attributes of a page print keeps its number. */
  ghost predicate BoxesFixed(g: Graph, pi: Renaming, p: Page) {
    Fixed(pi, BoxRefs(g, p.mediaBox)) && Fixed(pi, BoxRefs(g, p.cropBox)) && Fixed(pi, BoxRefs(g, p.rotate))
  }

  ghost predicate AllBoxesFixed(g: Graph, pi: Renaming, pages: seq<Page>) {
    forall k | 0 <= k < |pages| :: BoxesFixed(g, pi, pages[k])
  }

  ghost predicate SamePage(g: Graph, h: Graph, pi: Renaming, p: Page, q: Page) {
    && p.content == q.content && Same(pi, p.resources, q.resources)
    && SameBox(g, h, pi, p.mediaBox, q.mediaBox)
    && SameBox(g, h, pi, p.cropBox, q.cropBox)
    && SameBox(g, h, pi, p.rotate, q.rotate)
  }

  /** `doc'` is `doc` after its objects were renumbered by `pi` and rewritten: content is the same,
      attributes are the same up to renaming, every visited object has its counterpart, and nothing
      is said about the others. */
  ghost predicate Rewritten(doc: Document, doc': Document, pi: Renaming) {
    && |doc.pages| == |doc'.pages|
    && Carries(doc.g, doc'.g, pi, AsSet(Visited(doc)))
    && forall k | 0 <= k < |doc.pages| :: SamePage(doc.g, doc'.g, pi, doc.pages[k], doc'.pages[k])
  }

  lemma HeaderInStep(g: Graph, h: Graph, pi: Renaming, p: Page, q: Page)
    requires SamePage(g, h, pi, p, q)
    ensures InStep(BoxesFixed(g, pi, p), PageHeader(g, p), PageHeader(h, q))
  {
    hide InStep, BoxText, BoxRefs, Fixed, SameBox;
    BoxInStep(g, h, pi, p.mediaBox, q.mediaBox);
    BoxInStep(g, h, pi, p.cropBox, q.cropBox);
    BoxInStep(g, h, pi, p.rotate, q.rotate);
    var head := "page:" + Decimal.Text(|p.content|) + "\n" + p.content;
    var a, a', b, b', c, c' := BoxText(g, p.mediaBox), BoxText(h, q.mediaBox), BoxText(g, p.cropBox),
      BoxText(h, q.cropBox), BoxText(g, p.rotate), BoxText(h, q.rotate);
    var x, x' := "/Rotate" + c, "/Rotate" + c';
    var y, y' := "/CropBox" + (b + x), "/CropBox" + (b' + x');
    var fa, fb, fc := Fixed(pi, BoxRefs(g, p.mediaBox)), Fixed(pi, BoxRefs(g, p.cropBox)),
        Fixed(pi, BoxRefs(g, p.rotate));
    KeyThen("/Rotate", fc, c, c');
    StepThen(fb, b, b', fc, x, x');
    KeyThen("/CropBox", fb && fc, b + x, b' + x');
    StepThen(fa, a, a', fb && fc, y, y');
    KeyThen("/MediaBox", fa && fb && fc, a + y, a' + y');
    KeyThen(head, fa && fb && fc, BoxBytes(g, p), BoxBytes(h, q));
  }

  lemma KeyThen(key: string, f: bool, a: string, b: string)
    requires InStep(f, a, b)
    ensures InStep(f, key + a, key + b)
  {
    StepThen(true, key, key, f, a, b);
  }

  /** What the digest of pages depends on beside their structure. */
  ghost predicate NumbersFixed(g: Graph, pi: Renaming, pages: seq<Page>, refs: seq<Ref>) {
    ScalarsFixed(g, pi, refs) && AllBoxesFixed(g, pi, pages)
  }

  lemma FirstPage(g: Graph, pi: Renaming, pages: seq<Page>)
    requires pages != []
    ensures AllBoxesFixed(g, pi, pages) <==> BoxesFixed(g, pi, pages[0]) && AllBoxesFixed(g, pi, pages[1..])
  {
    hide BoxesFixed;
    var tail := pages[1..];
    assert forall k | 0 <= k < |tail| :: tail[k] == pages[k + 1];
    assert forall k | 0 < k < |pages| :: pages[k] == tail[k - 1];
  }

  lemma {:induction false} PagesLockstep(g: Graph, h: Graph, pi: Renaming, visited: set<Ref>, ps: seq<Page>,
      qs: seq<Page>, seen: set<Ref>)
    requires |ps| == |qs| && forall k | 0 <= k < |ps| :: SamePage(g, h, pi, ps[k], qs[k])
    requires Carries(g, h, pi, visited) && HashPages(g, ps, seen).seen <= visited
    ensures var out, out' := HashPages(g, ps, seen), HashPages(h, qs, Image(pi, seen));
            && InStep(NumbersFixed(g, pi, ps, out.bodies), out.bytes, out'.bytes)
            && (NumbersFixed(g, pi, ps, out.bodies) ==> out'.seen == Image(pi, out.seen))
    decreases |ps|
  {
    hide HashValue, PageHeader, SamePage, Carries, Lockstep, BoxesFixed, AllBoxesFixed, Image, ScalarsFixed;
    if ps == [] {
      NothingToFix(g, pi);
    } else {
      var first, first' := HashValue(g, ps[0].resources, seen, 0), HashValue(h, qs[0].resources, Image(pi, seen), 0);
      var rest, rest' := HashPages(g, ps[1..], first.seen), HashPages(h, qs[1..], first'.seen);
      PagesOnce(g, ps[1..], first.seen);
      SeenGrows(first.seen, rest);
      HeaderInStep(g, h, pi, ps[0], qs[0]);
      ResourcesInStep(g, h, pi, visited, ps[0], qs[0], seen);
      var fixed, scalars := BoxesFixed(g, pi, ps[0]), ScalarsFixed(g, pi, first.bodies);
      if scalars {
        PagesLockstep(g, h, pi, visited, ps[1..], qs[1..], first.seen);
      }
      var later := NumbersFixed(g, pi, ps[1..], rest.bodies);
      StepThen(scalars, first.bytes, first'.bytes, later, rest.bytes, rest'.bytes);
      StepThen(fixed, PageHeader(g, ps[0]), PageHeader(h, qs[0]), scalars && later,
               first.bytes + rest.bytes, first'.bytes + rest'.bytes);
      FixedAppend(g, pi, first.bodies, rest.bodies);
      FirstPage(g, pi, ps);
    }
  }

  lemma NothingToFix(g: Graph, pi: Renaming)
    ensures ScalarsFixed(g, pi, []) && AllBoxesFixed(g, pi, [])
  {
  }

  lemma SeenGrows(seen: set<Ref>, out: Fed)
    requires OnceFrom(seen, out)
    ensures seen <= out.seen
  {
  }

  lemma ResourcesInStep(g: Graph, h: Graph, pi: Renaming, visited: set<Ref>, p: Page, q: Page, seen: set<Ref>)
    requires SamePage(g, h, pi, p, q) && Carries(g, h, pi, visited)
    requires HashValue(g, p.resources, seen, 0).seen <= visited
    ensures var out, out' := HashValue(g, p.resources, seen, 0), HashValue(h, q.resources, Image(pi, seen), 0);
            && InStep(ScalarsFixed(g, pi, out.bodies), out.bytes, out'.bytes)
            && (ScalarsFixed(g, pi, out.bodies) ==> out'.seen == Image(pi, out.seen))
  {
    hide HashValue, Carries;
    ValueLockstep(g, h, pi, visited, p.resources, q.resources, seen, 0);
  }

  /** For every document and every rewriting of it, the certified bytes are unchanged if and only if
      each visited indirect scalar keeps its object number, and so does each reference printed in an
      attribute of a page. */
  lemma DigestSurvivesIff(doc: Document, doc': Document, pi: Renaming)
    requires Rewritten(doc, doc', pi)
    ensures ContentBytes(doc') == ContentBytes(doc) <==>
            ScalarsFixed(doc.g, pi, Visited(doc)) && AllBoxesFixed(doc.g, pi, doc.pages)
    ensures ContentBytes(doc') == ContentBytes(doc) ==> AsSet(Visited(doc')) == Image(pi, AsSet(Visited(doc)))
  {
    var out, out' := HashPages(doc.g, doc.pages, {}), HashPages(doc'.g, doc'.pages, {});
    PagesOnce(doc.g, doc.pages, {});
    PagesOnce(doc'.g, doc'.pages, {});
    assert out.seen == AsSet(Visited(doc)) && out'.seen == AsSet(Visited(doc'));
    hide HashPages, ScalarsFixed, AllBoxesFixed, SamePage;
    PagesLockstep(doc.g, doc'.g, pi, out.seen, doc.pages, doc'.pages, {});
    assert Image(pi, {}) == {};
    var head := "pages:" + Decimal.Text(|doc.pages|) + "\n";
    KeyThen(head, NumbersFixed(doc.g, pi, doc.pages, out.bodies), out.bytes, out'.bytes);
  }

  /** The case the certificate relies on: all visited indirect objects are containers and no
      attribute of a page holds a reference. */
  lemma DigestSurvivesRenumbering(doc: Document, doc': Document, pi: Renaming)
    requires Rewritten(doc, doc', pi)
    requires forall r <- Visited(doc) :: !Lookup(doc.g, r).Scalar?
    requires forall p <- doc.pages ::
               BoxRefs(doc.g, p.mediaBox) + BoxRefs(doc.g, p.cropBox) + BoxRefs(doc.g, p.rotate) == {}
    ensures ContentBytes(doc') == ContentBytes(doc)
  {
    hide BoxRefs;
    DigestSurvivesIff(doc, doc', pi);
    forall k | 0 <= k < |doc.pages|
      ensures BoxesFixed(doc.g, pi, doc.pages[k])
    {
      assert doc.pages[k] in doc.pages;
      NoRefs(pi, BoxRefs(doc.g, doc.pages[k].mediaBox), BoxRefs(doc.g, doc.pages[k].cropBox),
             BoxRefs(doc.g, doc.pages[k].rotate));
    }
  }

  lemma NoRefs(pi: Renaming, a: set<Ref>, b: set<Ref>, c: set<Ref>)
    requires a + b + c == {}
    ensures Fixed(pi, a) && Fixed(pi, b) && Fixed(pi, c)
  {
    FixedUnion(pi, a + b, c);
    FixedUnion(pi, a, b);
  }

  // ----- certifying -----

  /** The document after `certify` has put its data into the new object `private` and its entry into
      `holder`: the catalog, or the /PieceInfo dictionary where that is an object of its own. */
  function Certified(doc: Document, holder: Ref, entry: Object, private: Ref, data: Object): Document {
    Document(doc.g[holder := entry][private := data], doc.pages)
  }

  function Attributes(p: Page): set<Value> {
    {p.mediaBox, p.cropBox, p.rotate}
  }

  /** The digest depends neither on the object that changes nor on the new one. */
  ghost predicate Untouched(doc: Document, holder: Ref, private: Ref) {
    && holder !in Visited(doc) && private !in Visited(doc)
    && forall p <- doc.pages :: Indirect(holder) !in Attributes(p) && Indirect(private) !in Attributes(p)
  }

  lemma {:induction false} RenamedSame(pi: Renaming, o: Object)
    requires forall r :: pi(r) == r
    ensures Renamed(pi, o) == o
    decreases o
  {
    match o
    case Scalar(_) =>
    case Array(items) => RenamedItemsSame(pi, items);
    case Dict(entries) => RenamedEntriesSame(pi, entries);
    case Stream(entries, _) => RenamedEntriesSame(pi, entries);
  }

  lemma {:induction false} RenamedValueSame(pi: Renaming, v: Value)
    requires forall r :: pi(r) == r
    ensures RenamedValue(pi, v) == v
    decreases v
  {
    if v.Direct? {
      RenamedSame(pi, v.obj);
    }
  }

  lemma {:induction false} RenamedItemsSame(pi: Renaming, items: seq<Value>)
    requires forall r :: pi(r) == r
    ensures RenamedItems(pi, items) == items
    decreases items
  {
    if items != [] {
      RenamedValueSame(pi, items[0]);
      RenamedItemsSame(pi, items[1..]);
    }
  }

  lemma {:induction false} RenamedEntriesSame(pi: Renaming, entries: seq<Entry>)
    requires forall r :: pi(r) == r
    ensures RenamedEntries(pi, entries) == entries
    decreases entries
  {
    if entries != [] {
      RenamedValueSame(pi, entries[0].value);
      RenamedEntriesSame(pi, entries[1..]);
    }
  }

  lemma {:induction false} SameReflexive(pi: Renaming, v: Value)
    requires forall r :: pi(r) == r
    ensures Same(pi, v, v)
    decreases v, 0
  {
    if v.Direct? {
      SameObjectReflexive(pi, v.obj);
    }
  }

  lemma {:induction false} SameObjectReflexive(pi: Renaming, o: Object)
    requires forall r :: pi(r) == r
    ensures SameObject(pi, o, o)
    decreases o, 1
  {
    match o
    case Scalar(_) =>
    case Array(items) =>
      forall i | 0 <= i < |items|
        ensures Same(pi, items[i], items[i])
      {
        SameReflexive(pi, items[i]);
      }
    case Dict(entries) => SameEntriesReflexive(pi, entries, entries, DICT_SKIPPED);
    case Stream(entries, _) => SameEntriesReflexive(pi, entries, entries, STREAM_SKIPPED);
  }

  lemma {:induction false} SameEntriesReflexive(pi: Renaming, es: seq<Entry>, fs: seq<Entry>, skipped: set<string>)
    requires forall r :: pi(r) == r
    requires Kept(es, skipped) == Kept(fs, skipped)
    ensures SameEntries(pi, es, fs, skipped)
    decreases es
  {
    if es != [] {
      if es[0].key in skipped {
        SameEntriesReflexive(pi, es[1..], fs, skipped);
      } else {
        var f := Kept(fs, skipped);
        KeptSuffix(fs, skipped);
        assert f == [es[0]] + Kept(es[1..], skipped);
        SameReflexive(pi, es[0].value);
        SameEntriesReflexive(pi, es[1..], f[1..], skipped);
      }
    }
  }

  lemma BoxUntouched(g: Graph, h: Graph, pi: Renaming, v: Value)
    requires (forall r :: pi(r) == r) && Target(h, v) == Target(g, v)
    ensures SameBox(g, h, pi, v, v)
  {
    RenamedSame(pi, Target(g, v));
    RenamedValueSame(pi, v);
  }

  /** Certifying does not disturb the digest, whatever is written into the holder. */
  lemma CertifyingKeepsDigest(doc: Document, holder: Ref, entry: Object, private: Ref, data: Object)
    requires Untouched(doc, holder, private)
    ensures ContentBytes(Certified(doc, holder, entry, private, data)) == ContentBytes(doc)
    ensures AsSet(Visited(Certified(doc, holder, entry, private, data))) == AsSet(Visited(doc))
  {
    hide Visited, ContentBytes, Same, SameObject, SameBox, Target;
    var doc', pi := Certified(doc, holder, entry, private, data), (r: Ref) => r;
    forall r | r in Visited(doc)
      ensures SameObject(pi, Lookup(doc.g, r), Lookup(doc'.g, pi(r)))
    {
      SameObjectReflexive(pi, Lookup(doc.g, r));
    }
    forall k | 0 <= k < |doc.pages|
      ensures SamePage(doc.g, doc'.g, pi, doc.pages[k], doc'.pages[k])
    {
      var p := doc.pages[k];
      assert p in doc.pages;
      SameReflexive(pi, p.resources);
      TargetKept(doc, holder, entry, private, data, p.mediaBox);
      TargetKept(doc, holder, entry, private, data, p.cropBox);
      TargetKept(doc, holder, entry, private, data, p.rotate);
      BoxUntouched(doc.g, doc'.g, pi, p.mediaBox);
      BoxUntouched(doc.g, doc'.g, pi, p.cropBox);
      BoxUntouched(doc.g, doc'.g, pi, p.rotate);
    }
    DigestSurvivesIff(doc, doc', pi);
    assert Image(pi, AsSet(Visited(doc))) == AsSet(Visited(doc));
  }

  lemma CertifiedScalars(doc: Document, certified: Document, holder: Ref, entry: Object, private: Ref, data: Object,
      pi: Renaming)
    requires Untouched(doc, holder, private) && certified == Certified(doc, holder, entry, private, data)
    requires AsSet(Visited(certified)) == AsSet(Visited(doc))
    ensures ScalarsFixed(certified.g, pi, Visited(certified)) <==> ScalarsFixed(doc.g, pi, Visited(doc))
  {
    hide Visited;
    var a, b := Visited(doc), Visited(certified);
    forall r | r in a || r in b
      ensures r in a && r in b && Lookup(certified.g, r) == Lookup(doc.g, r)
    {
      assert r in AsSet(a) && r in AsSet(b);
    }
    if ScalarsFixed(doc.g, pi, a) {
      assert forall i | 0 <= i < |b| :: b[i] in a;
    }
    if ScalarsFixed(certified.g, pi, b) {
      assert forall i | 0 <= i < |a| :: a[i] in b;
    }
  }

  lemma TargetKept(doc: Document, holder: Ref, entry: Object, private: Ref, data: Object, v: Value)
    requires v != Indirect(holder) && v != Indirect(private)
    ensures Target(Certified(doc, holder, entry, private, data).g, v) == Target(doc.g, v)
  {
  }

  lemma CertifiedBoxes(doc: Document, certified: Document, holder: Ref, entry: Object, private: Ref, data: Object,
      pi: Renaming)
    requires Untouched(doc, holder, private) && certified == Certified(doc, holder, entry, private, data)
    ensures AllBoxesFixed(certified.g, pi, certified.pages) <==> AllBoxesFixed(doc.g, pi, doc.pages)
  {
    hide Printed, Target, Fixed, Visited;
    forall k | 0 <= k < |doc.pages|
      ensures BoxesFixed(certified.g, pi, doc.pages[k]) <==> BoxesFixed(doc.g, pi, doc.pages[k])
    {
      var p := doc.pages[k];
      assert p in doc.pages;
      TargetKept(doc, holder, entry, private, data, p.mediaBox);
      TargetKept(doc, holder, entry, private, data, p.cropBox);
      TargetKept(doc, holder, entry, private, data, p.rotate);
    }
  }

  /** `certify` followed by `verify-cert`, through the new entry and the renumbering by the writer:
      the digest stored is the digest found if and only if the visited scalars and the references
      printed in page attributes kept their numbers. */
  lemma CertifiedVerifiesIff(doc: Document, holder: Ref, entry: Object, private: Ref, data: Object, written: Document,
      pi: Renaming)
    requires Untouched(doc, holder, private)
    requires Rewritten(Certified(doc, holder, entry, private, data), written, pi)
    ensures ContentBytes(written) == ContentBytes(doc) <==>
            ScalarsFixed(doc.g, pi, Visited(doc)) && AllBoxesFixed(doc.g, pi, doc.pages)
  {
    hide Visited, ContentBytes, ScalarsFixed, AllBoxesFixed, Rewritten, Untouched;
    var certified := Certified(doc, holder, entry, private, data);
    CertifyingKeepsDigest(doc, holder, entry, private, data);
    CertifiedScalars(doc, certified, holder, entry, private, data, pi);
    CertifiedBoxes(doc, certified, holder, entry, private, data, pi);
    DigestSurvivesIff(certified, written, pi);
  }

  // ----- documents whose digest does not survive -----

  const NOTHING: Value := Direct(Scalar("null"))

  /** One page with this media box and these resources. */
  function OnePage(g: Graph, mediaBox: Value, resources: Value): Document {
    Document(g, [Page("", mediaBox, NOTHING, NOTHING, resources)])
  }

  function FirstToSecond(r: Ref): Ref {
    if r == Ref(1, 0) then Ref(2, 0) else r
  }

  lemma NothingSame(g: Graph, h: Graph, pi: Renaming)
    ensures SameBox(g, h, pi, NOTHING, NOTHING)
  {
  }

  lemma OneReference(g: Graph, r: Ref)
    requires Lookup(g, r).Scalar?
    ensures Visited(OnePage(g, NOTHING, Direct(Array([Indirect(r)])))) == [r]
  {
    var o := Array([Indirect(r)]);
    var parts := Parts(o);
    assert parts == [Entry("", Indirect(r))] && parts[1..] == [];
    assert HashValue(g, Indirect(r), {}, 1).bodies == [r];
    assert HashParts(g, parts, {}, 1).bodies == [r];
    assert HashValue(g, Direct(o), {}, 0).bodies == [r];
    OnlyPage(g, NOTHING, Direct(o));
  }

  lemma OnlyPage(g: Graph, mediaBox: Value, resources: Value)
    ensures Visited(OnePage(g, mediaBox, resources)) == HashValue(g, resources, {}, 0).bodies
  {
    hide HashValue;
    var pages, first := OnePage(g, mediaBox, resources).pages, HashValue(g, resources, {}, 0);
    assert pages[1..] == [];
    assert HashPages(g, pages[1..], first.seen).bodies == [] && first.bodies + [] == first.bodies;
  }

  /** Resources that hold a reference to a number: rewriting the document with that number as
      another object changes the digest. */
  lemma RenumberedScalarChangesDigest()
    ensures var doc := OnePage(map[Ref(1, 0) := Scalar("5")], NOTHING, Direct(Array([Indirect(Ref(1, 0))])));
            var doc' := OnePage(map[Ref(2, 0) := Scalar("5")], NOTHING, Direct(Array([Indirect(Ref(2, 0))])));
            Rewritten(doc, doc', FirstToSecond) && ContentBytes(doc') != ContentBytes(doc)
  {
    var g, h: Graph := map[Ref(1, 0) := Scalar("5")], map[Ref(2, 0) := Scalar("5")];
    var doc := OnePage(g, NOTHING, Direct(Array([Indirect(Ref(1, 0))])));
    var doc' := OnePage(h, NOTHING, Direct(Array([Indirect(Ref(2, 0))])));
    OneReference(g, Ref(1, 0));
    NothingSame(g, h, FirstToSecond);
    hide Visited, ContentBytes;
    assert Visited(doc)[0] == Ref(1, 0);
    DigestSurvivesIff(doc, doc', FirstToSecond);
  }

  /** A media box that holds a reference: the same, although the digest visits nothing. */
  lemma RenumberedBoxChangesDigest()
    ensures var doc := OnePage(map[], Direct(Array([Indirect(Ref(1, 0))])), NOTHING);
            var doc' := OnePage(map[], Direct(Array([Indirect(Ref(2, 0))])), NOTHING);
            && Rewritten(doc, doc', FirstToSecond) && Visited(doc) == []
            && ContentBytes(doc') != ContentBytes(doc)
  {
    var box, box' := Direct(Array([Indirect(Ref(1, 0))])), Direct(Array([Indirect(Ref(2, 0))]));
    var doc, doc' := OnePage(map[], box, NOTHING), OnePage(map[], box', NOTHING);
    OnlyPage(map[], box, NOTHING);
    NothingSame(map[], map[], FirstToSecond);
    RenamedItemsCons(FirstToSecond, [Indirect(Ref(1, 0))]);
    assert Renamed(FirstToSecond, box.obj) == box'.obj;
    assert Ref(1, 0) in BoxRefs(map[], box);
    assert !BoxesFixed(map[], FirstToSecond, doc.pages[0]);
    hide ContentBytes, Visited;
    DigestSurvivesIff(doc, doc', FirstToSecond);
  }
}
