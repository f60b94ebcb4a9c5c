/** What the certified byte stream notices: a change of one stream's data, of one scalar or of one
    page's content, and exactly when it reaches the hash. */
module DigestSensitive {
  import opened Digest
  import opened DigestInvariance
  import opened Concatenation
  import Decimal

  // ----- texts that diverge -----

  /** Different scalar texts that cannot be mistaken for each other before a blank. */
  ghost predicate Apart(a: string, b: string) {
    a != b && (|a| == |b| || (' ' !in a && ' ' !in b))
  }

  lemma SameLengthDiverge(a: string, b: string)
    requires |a| == |b| && a != b
    ensures Diverge(a, b)
  {
  }

  /** Different strings diverge before a character that occurs in neither. */
  lemma {:induction false} EndedDiverge(a: string, b: string, end: char)
    requires a != b && end !in a && end !in b
    ensures Diverge(a + [end], b + [end])
  {
    var x, y := a + [end], b + [end];
    if a == [] {
      assert x[0] == end && y[0] == b[0];
    } else if b == [] {
      assert y[0] == end && x[0] == a[0];
    } else if a[0] != b[0] {
      assert x[0] == a[0] && y[0] == b[0];
    } else {
      assert a == [a[0]] + a[1..] && b == [b[0]] + b[1..];
      EndedDiverge(a[1..], b[1..], end);
      DivergePrefix([a[0]], a[1..] + [end], b[1..] + [end]);
      assert [a[0]] + (a[1..] + [end]) == x && [b[0]] + (b[1..] + [end]) == y;
    }
  }

  lemma ApartDiverge(a: string, b: string)
    requires Apart(a, b)
    ensures Diverge(a + " ", b + " ")
  {
    if |a| == |b| {
      SameLengthDiverge(a, b);
      DivergeExtend(a, b, " ", " ");
    } else {
      EndedDiverge(a, b, ' ');
    }
  }

  /** Two strings behind their sizes: no one is a beginning of the other. */
  lemma SizedDiverge(a: string, b: string, end: char)
    requires a != b && !Decimal.IsDigit(end)
    ensures Diverge(Decimal.Text(|a|) + [end] + a, Decimal.Text(|b|) + [end] + b)
  {
    var m, n := Decimal.Text(|a|), Decimal.Text(|b|);
    if |a| == |b| {
      SameLengthDiverge(a, b);
      DivergePrefix(m + [end], a, b);
    } else {
      assert Decimal.Value(m) != Decimal.Value(n);
      EndedDiverge(m, n, end);
      DivergeExtend(m + [end], n + [end], a, b);
    }
  }

  // ----- one change in an object -----

  /** `p` is `o` with one change, `h` containers deep in its direct structure: the text of a scalar,
      or the data of a stream. A change under a key that is not hashed does not count. */
  ghost predicate Altered(o: Object, p: Object, h: nat)
    decreases o
  {
    match o
    case Scalar(a) => p.Scalar? && h == 0 && Apart(a, p.text)
    case Array(items) =>
      p.Array? && h > 0 && |p.items| == |items| && exists k | 0 <= k < |items| ::
        p.items == items[k := p.items[k]] && AlteredValue(items[k], p.items[k], h - 1)
    case Dict(entries) => p.Dict? && h > 0 && AlteredEntry(entries, p.entries, {"/Parent", "/P"}, h - 1)
    case Stream(entries, data) =>
      p.Stream? && if h == 0 then p.entries == entries && p.data != data
                   else p.data == data && AlteredEntry(entries, p.entries,
                     {"/Parent", "/P", "/Length", "/Filter", "/DecodeParms"}, h - 1)
  }

  ghost predicate AlteredValue(v: Value, w: Value, h: nat)
    decreases v
  {
    v.Direct? && w.Direct? && Altered(v.obj, w.obj, h)
  }

  ghost predicate AlteredEntry(es: seq<Entry>, fs: seq<Entry>, skipped: set<string>, h: nat)
    decreases es
  {
    |fs| == |es| && exists k | 0 <= k < |es| ::
      && fs == es[k := fs[k]] && fs[k].key == es[k].key && es[k].key !in skipped
      && AlteredValue(es[k].value, fs[k].value, h)
  }

  /** The same of the parts that are hashed. */
  ghost predicate AlteredPart(ps: seq<Entry>, qs: seq<Entry>, h: nat) {
    |qs| == |ps| && exists k | 0 <= k < |ps| ::
      qs == ps[k := qs[k]] && qs[k].key == ps[k].key && AlteredValue(ps[k].value, qs[k].value, h)
  }

  lemma {:induction false} KeptAltered(es: seq<Entry>, fs: seq<Entry>, skipped: set<string>, h: nat)
    requires AlteredEntry(es, fs, skipped, h)
    ensures AlteredPart(Kept(es, skipped), Kept(fs, skipped), h)
    decreases |es|
  {
    hide AlteredValue;
    var k :| 0 <= k < |es| && fs == es[k := fs[k]] && fs[k].key == es[k].key && es[k].key !in skipped &&
             AlteredValue(es[k].value, fs[k].value, h);
    var ps, qs := Kept(es[1..], skipped), Kept(fs[1..], skipped);
    if k == 0 {
      assert fs[1..] == es[1..];
      assert Kept(es, skipped) == [es[0]] + ps && Kept(fs, skipped) == [fs[0]] + ps;
      FirstAltered(es[0], fs[0], ps, h);
    } else {
      assert fs[0] == es[0] && fs[1..] == es[1..][k - 1 := fs[1..][k - 1]];
      KeptAltered(es[1..], fs[1..], skipped, h);
      if es[0].key !in skipped {
        ConsAltered(es[0], ps, qs, h);
      }
    }
  }

  lemma FirstAltered(e: Entry, f: Entry, ps: seq<Entry>, h: nat)
    requires f.key == e.key && AlteredValue(e.value, f.value, h)
    ensures AlteredPart([e] + ps, [f] + ps, h)
  {
    hide AlteredValue;
    var all, all' := [e] + ps, [f] + ps;
    assert all[0] == e && all'[0] == f;
    assert all' == all[0 := all'[0]];
  }

  lemma ConsAltered(e: Entry, ps: seq<Entry>, qs: seq<Entry>, h: nat)
    requires AlteredPart(ps, qs, h)
    ensures AlteredPart([e] + ps, [e] + qs, h)
  {
    hide AlteredValue;
    var k :| 0 <= k < |ps| && qs == ps[k := qs[k]] && qs[k].key == ps[k].key &&
             AlteredValue(ps[k].value, qs[k].value, h);
    var all, all' := [e] + ps, [e] + qs;
    assert all[k + 1] == ps[k] && all'[k + 1] == qs[k];
    assert all' == all[k + 1 := all'[k + 1]];
  }

  lemma AlteredParts(o: Object, p: Object, h: nat)
    requires Altered(o, p, h) && h > 0
    ensures !o.Scalar? && !p.Scalar? && Opening(p) == Opening(o) && Closing(p) == Closing(o)
    ensures AlteredPart(Parts(o), Parts(p), h - 1)
  {
    hide AlteredValue;
    match o
    case Array(items) =>
      var k :| 0 <= k < |items| && p.items == items[k := p.items[k]] && AlteredValue(items[k], p.items[k], h - 1);
      var ps, qs := Parts(o), Parts(p);
      assert ps[k].value == items[k] && qs[k].value == p.items[k];
      assert qs == ps[k := qs[k]];
    case Dict(entries) =>
      hide AlteredEntry;
      assert DICT_SKIPPED == {"/Parent", "/P"};
      KeptAltered(entries, p.entries, DICT_SKIPPED, h - 1);
    case Stream(entries, _) =>
      hide AlteredEntry;
      assert STREAM_SKIPPED == {"/Parent", "/P", "/Length", "/Filter", "/DecodeParms"};
      KeptAltered(entries, p.entries, STREAM_SKIPPED, h - 1);
  }

  // ----- where a change is noticed -----

  /** Hashing `v` enters the object `r` for the first time, at a level below `limit`. */
  ghost predicate Reached(g: Graph, v: Value, seen: set<Ref>, depth: nat, r: Ref, limit: int)
    requires depth <= MAX_DEPTH + 1
    decreases MAX_DEPTH + 1 - depth, 0
  {
    if depth > MAX_DEPTH || (v.Indirect? && v.ref in seen) then false
    else if v == Indirect(r) then depth < limit
    else !Target(g, v).Scalar? && PartsReached(g, Parts(Target(g, v)), Entered(v, seen), depth + 1, r, limit)
  }

  ghost predicate PartsReached(g: Graph, parts: seq<Entry>, seen: set<Ref>, depth: nat, r: Ref, limit: int)
    requires depth <= MAX_DEPTH + 1
    decreases MAX_DEPTH + 1 - depth, |parts| + 1
  {
    parts != [] &&
    (Reached(g, parts[0].value, seen, depth, r, limit) ||
     PartsReached(g, parts[1..], HashValue(g, parts[0].value, seen, depth).seen, depth, r, limit))
  }

  ghost predicate PagesReached(g: Graph, pages: seq<Page>, seen: set<Ref>, r: Ref, limit: int) {
    pages != [] &&
    (Reached(g, pages[0].resources, seen, 0, r, limit) ||
     PagesReached(g, pages[1..], HashValue(g, pages[0].resources, seen, 0).seen, r, limit))
  }

  /** The graphs agree but for `r`. */
  ghost predicate Beside(g: Graph, h: Graph, r: Ref) {
    forall s: Ref | s != r :: Lookup(g, s) == Lookup(h, s)
  }

  /** Two traversals that meet the same objects; their bytes diverge if the change is noticed. */
  ghost predicate Forks(noticed: bool, a: Fed, b: Fed) {
    a.seen == b.seen && a.bodies == b.bodies && InStep(!noticed, a.bytes, b.bytes)
  }

  /** How the two traversals of `r` itself go, wherever it is entered. */
  ghost predicate ForksAt(g: Graph, h: Graph, r: Ref, limit: int) {
    forall seen: set<Ref>, depth: nat | depth <= MAX_DEPTH && r !in seen ::
      Forks(depth < limit, HashValue(g, Indirect(r), seen, depth), HashValue(h, Indirect(r), seen, depth))
  }

  lemma ForksThen(key: string, n: bool, a: Fed, a': Fed, m: bool, b: Fed, b': Fed)
    requires Forks(n, a, a') && Forks(m, b, b')
    ensures Forks(n || m, Fed(key + (a.bytes + b.bytes), b.seen, a.bodies + b.bodies),
                          Fed(key + (a'.bytes + b'.bytes), b'.seen, a'.bodies + b'.bodies))
  {
    hide InStep;
    StepThen(!n, a.bytes, a'.bytes, !m, b.bytes, b'.bytes);
    KeyThen(key, !n && !m, a.bytes + b.bytes, a'.bytes + b'.bytes);
  }

  lemma ForksWrap(own: seq<Ref>, open: string, n: bool, a: Fed, a': Fed, close: string)
    requires Forks(n, a, a')
    ensures Forks(n, Fed(open + (a.bytes + close), a.seen, own + a.bodies),
                     Fed(open + (a'.bytes + close), a'.seen, own + a'.bodies))
  {
    hide InStep;
    InStepSame(close);
    StepThen(!n, a.bytes, a'.bytes, true, close, close);
    KeyThen(open, !n, a.bytes + close, a'.bytes + close);
  }

  lemma InStepSame(a: string)
    ensures InStep(true, a, a)
  {
  }

  /** A change of `r` passes through every traversal: noticed exactly where `r` is reached. */
  lemma {:induction false} ValueForks(g: Graph, h: Graph, r: Ref, limit: int, v: Value, seen: set<Ref>, depth: nat)
    requires depth <= MAX_DEPTH + 1 && Beside(g, h, r) && (r in seen || ForksAt(g, h, r, limit))
    ensures Forks(Reached(g, v, seen, depth, r, limit), HashValue(g, v, seen, depth), HashValue(h, v, seen, depth))
    decreases MAX_DEPTH + 1 - depth, 0
  {
    hide HashValue, HashParts, Reached, PartsReached, Forks, ForksAt, Target, Parts, Beside;
    if depth > MAX_DEPTH || (v.Indirect? && v.ref in seen) {
      NothingFork(g, h, r, limit, v, seen, depth);
    } else if v == Indirect(r) {
      EntryForks(g, h, r, limit, seen, depth);
    } else if Target(g, v).Scalar? {
      ScalarForks(g, h, r, limit, v, seen, depth);
    } else {
      PartsFork(g, h, r, limit, Parts(Target(g, v)), Entered(v, seen), depth + 1);
      WholeForks(g, h, r, limit, v, seen, depth);
    }
  }

  lemma NothingFork(g: Graph, h: Graph, r: Ref, limit: int, v: Value, seen: set<Ref>, depth: nat)
    requires depth <= MAX_DEPTH + 1 && (depth > MAX_DEPTH || (v.Indirect? && v.ref in seen))
    ensures Forks(Reached(g, v, seen, depth, r, limit), HashValue(g, v, seen, depth), HashValue(h, v, seen, depth))
  {
    hide HashParts, PartsReached;
  }

  lemma EntryForks(g: Graph, h: Graph, r: Ref, limit: int, seen: set<Ref>, depth: nat)
    requires depth <= MAX_DEPTH && r !in seen && ForksAt(g, h, r, limit)
    ensures var v := Indirect(r);
            Forks(Reached(g, v, seen, depth, r, limit), HashValue(g, v, seen, depth), HashValue(h, v, seen, depth))
  {
    hide HashValue, PartsReached, Forks;
  }

  lemma ScalarForks(g: Graph, h: Graph, r: Ref, limit: int, v: Value, seen: set<Ref>, depth: nat)
    requires depth <= MAX_DEPTH && !(v.Indirect? && v.ref in seen) && v != Indirect(r)
    requires Beside(g, h, r) && Target(g, v).Scalar?
    ensures Forks(Reached(g, v, seen, depth, r, limit), HashValue(g, v, seen, depth), HashValue(h, v, seen, depth))
  {
    hide HashParts, PartsReached;
    assert Target(g, v) == Target(h, v);
  }

  lemma WholeForks(g: Graph, h: Graph, r: Ref, limit: int, v: Value, seen: set<Ref>, depth: nat)
    requires depth <= MAX_DEPTH && !(v.Indirect? && v.ref in seen) && v != Indirect(r)
    requires Beside(g, h, r) && !Target(g, v).Scalar?
    requires var parts, seen' := Parts(Target(g, v)), Entered(v, seen);
             Forks(PartsReached(g, parts, seen', depth + 1, r, limit),
                   HashParts(g, parts, seen', depth + 1), HashParts(h, parts, seen', depth + 1))
    ensures Forks(Reached(g, v, seen, depth, r, limit), HashValue(g, v, seen, depth), HashValue(h, v, seen, depth))
  {
    assert Target(g, v) == Target(h, v);
    hide HashValue, HashParts, PartsReached, Forks, Parts, Opening, Closing, Beside, Target;
    var o, seen' := Target(g, v), Entered(v, seen);
    HashContainer(g, v, seen, depth);
    HashContainer(h, v, seen, depth);
    ForksWrap(Own(v), Opening(o), PartsReached(g, Parts(o), seen', depth + 1, r, limit),
              HashParts(g, Parts(o), seen', depth + 1), HashParts(h, Parts(o), seen', depth + 1), Closing(o));
  }

  lemma {:induction false} PartsFork(g: Graph, h: Graph, r: Ref, limit: int, parts: seq<Entry>, seen: set<Ref>,
      depth: nat)
    requires depth <= MAX_DEPTH + 1 && Beside(g, h, r) && (r in seen || ForksAt(g, h, r, limit))
    ensures Forks(PartsReached(g, parts, seen, depth, r, limit),
                  HashParts(g, parts, seen, depth), HashParts(h, parts, seen, depth))
    decreases MAX_DEPTH + 1 - depth, |parts| + 1
  {
    if parts != [] {
      hide HashValue, Reached, ForksAt, Once, InStep;
      var v := parts[0].value;
      var first, first' := HashValue(g, v, seen, depth), HashValue(h, v, seen, depth);
      ValueForks(g, h, r, limit, v, seen, depth);
      ValueOnce(g, v, seen, depth);
      SeenGrows(seen, first);
      PartsFork(g, h, r, limit, parts[1..], first.seen, depth);
      ForksThen(parts[0].key, Reached(g, v, seen, depth, r, limit), first, first',
                PartsReached(g, parts[1..], first.seen, depth, r, limit),
                HashParts(g, parts[1..], first.seen, depth), HashParts(h, parts[1..], first'.seen, depth));
    }
  }

  /** An object that was entered before is not reached. */
  lemma {:induction false} SeenNotReached(g: Graph, v: Value, seen: set<Ref>, depth: nat, r: Ref, limit: int)
    requires depth <= MAX_DEPTH + 1 && r in seen
    ensures !Reached(g, v, seen, depth, r, limit)
    decreases MAX_DEPTH + 1 - depth, 0
  {
    hide Parts, Target, PartsReached;
    if depth <= MAX_DEPTH && !Target(g, v).Scalar? {
      SeenPartsNotReached(g, Parts(Target(g, v)), Entered(v, seen), depth + 1, r, limit);
    }
  }

  lemma {:induction false} SeenPartsNotReached(g: Graph, parts: seq<Entry>, seen: set<Ref>, depth: nat, r: Ref,
      limit: int)
    requires depth <= MAX_DEPTH + 1 && r in seen
    ensures !PartsReached(g, parts, seen, depth, r, limit)
    decreases MAX_DEPTH + 1 - depth, |parts| + 1
  {
    if parts != [] {
      hide HashValue, Once;
      SeenNotReached(g, parts[0].value, seen, depth, r, limit);
      var first := HashValue(g, parts[0].value, seen, depth);
      ValueOnce(g, parts[0].value, seen, depth);
      SeenGrows(seen, first);
      SeenPartsNotReached(g, parts[1..], first.seen, depth, r, limit);
    }
  }

  // ----- the object that changes -----

  /** Away from the change the traversals of the two graphs do the same. */
  ghost predicate Agree(g: Graph, h: Graph, r: Ref, seen: set<Ref>) {
    g == h || (Beside(g, h, r) && r in seen)
  }

  lemma ValueAgrees(g: Graph, h: Graph, r: Ref, v: Value, seen: set<Ref>, depth: nat)
    requires depth <= MAX_DEPTH + 1 && Agree(g, h, r, seen)
    ensures Forks(false, HashValue(g, v, seen, depth), HashValue(h, v, seen, depth))
  {
    if g != h {
      hide HashValue, Reached, Forks;
      ValueForks(g, h, r, 0, v, seen, depth);
      SeenNotReached(g, v, seen, depth, r, 0);
    }
  }

  lemma PartsAgree(g: Graph, h: Graph, r: Ref, parts: seq<Entry>, seen: set<Ref>, depth: nat)
    requires depth <= MAX_DEPTH + 1 && Agree(g, h, r, seen)
    ensures Forks(false, HashParts(g, parts, seen, depth), HashParts(h, parts, seen, depth))
  {
    if g != h {
      hide HashParts, PartsReached, Forks;
      PartsFork(g, h, r, 0, parts, seen, depth);
      SeenPartsNotReached(g, parts, seen, depth, r, 0);
    }
  }

  /** A change `l` containers below a value at level `depth` is noticed up to level 64. */
  lemma {:induction false} AlteredForks(g: Graph, h: Graph, r: Ref, v: Value, w: Value, l: nat, seen: set<Ref>,
      depth: nat)
    requires depth <= MAX_DEPTH + 1 && Agree(g, h, r, seen) && AlteredValue(v, w, l)
    ensures Forks(depth + l <= 64, HashValue(g, v, seen, depth), HashValue(h, w, seen, depth))
    decreases MAX_DEPTH + 1 - depth, 1
  {
    if depth <= MAX_DEPTH {
      if v.obj.Scalar? {
        ApartDiverge(v.obj.text, w.obj.text);
      } else {
        ContainerForks(g, h, r, v, w, l, seen, depth);
      }
    }
  }

  lemma {:induction false} ContainerForks(g: Graph, h: Graph, r: Ref, v: Value, w: Value, l: nat, seen: set<Ref>,
      depth: nat)
    requires depth <= MAX_DEPTH && ((v.Direct? && w.Direct?) || (v == w == Indirect(r) && r !in seen))
    requires Agree(g, h, r, Entered(v, seen)) && !Target(g, v).Scalar? && Altered(Target(g, v), Target(h, w), l)
    ensures Forks(depth + l <= 64, HashValue(g, v, seen, depth), HashValue(h, w, seen, depth))
    decreases MAX_DEPTH + 1 - depth, 0
  {
    hide HashValue, HashParts, Forks, Agree, Altered, Parts, Opening, Closing, Target, Diverge;
    AlteredContainer(Target(g, v), Target(h, w), l);
    var o, p, seen' := Target(g, v), Target(h, w), Entered(v, seen);
    HashContainer(g, v, seen, depth);
    HashContainer(h, w, seen, depth);
    var inner, inner' := HashParts(g, Parts(o), seen', depth + 1), HashParts(h, Parts(p), seen', depth + 1);
    if l == 0 {
      DataAltered(o, p);
      PartsAgree(g, h, r, Parts(o), seen', depth + 1);
      ForksClosing(Own(v), Opening(o), inner, inner', Closing(o), Closing(p));
    } else {
      AlteredParts(o, p, l);
      AlteredPartsFork(g, h, r, Parts(o), Parts(p), l - 1, seen', depth + 1);
      ForksWrap(Own(v), Opening(o), depth + l <= 64, inner, inner', Closing(o));
    }
  }

  lemma AlteredContainer(o: Object, p: Object, l: nat)
    requires Altered(o, p, l)
    ensures o.Scalar? == p.Scalar?
  {
  }

  lemma DataAltered(o: Object, p: Object)
    requires Altered(o, p, 0) && !o.Scalar?
    ensures Parts(p) == Parts(o) && Opening(p) == Opening(o) && Diverge(Closing(o), Closing(p))
  {
    SizedDiverge(o.data, p.data, '>');
  }

  lemma ForksClosing(own: seq<Ref>, open: string, a: Fed, a': Fed, close: string, close': string)
    requires Forks(false, a, a') && Diverge(close, close')
    ensures Forks(true, Fed(open + (a.bytes + close), a.seen, own + a.bodies),
                        Fed(open + (a'.bytes + close'), a'.seen, own + a'.bodies))
  {
    StepThen(true, a.bytes, a'.bytes, false, close, close');
    KeyThen(open, false, a.bytes + close, a'.bytes + close');
  }

  lemma {:induction false} AlteredPartsFork(g: Graph, h: Graph, r: Ref, ps: seq<Entry>, qs: seq<Entry>, l: nat,
      seen: set<Ref>, depth: nat)
    requires depth <= MAX_DEPTH + 1 && Agree(g, h, r, seen) && AlteredPart(ps, qs, l)
    ensures Forks(depth + l <= 64, HashParts(g, ps, seen, depth), HashParts(h, qs, seen, depth))
    decreases MAX_DEPTH + 1 - depth, |ps| + 2
  {
    hide HashValue, InStep, AlteredValue, Beside;
    var k :| 0 <= k < |ps| && qs == ps[k := qs[k]] && qs[k].key == ps[k].key &&
             AlteredValue(ps[k].value, qs[k].value, l);
    var first := HashValue(g, ps[0].value, seen, depth);
    var first' := HashValue(h, qs[0].value, seen, depth);
    ValueOnce(g, ps[0].value, seen, depth);
    SeenGrows(seen, first);
    if k == 0 {
      assert qs[1..] == ps[1..];
      AlteredForks(g, h, r, ps[0].value, qs[0].value, l, seen, depth);
      PartsAgree(g, h, r, ps[1..], first.seen, depth);
      ForksThen(ps[0].key, depth + l <= 64, first, first', false,
                HashParts(g, ps[1..], first.seen, depth), HashParts(h, qs[1..], first'.seen, depth));
    } else {
      assert qs[0] == ps[0] && qs[1..] == ps[1..][k - 1 := qs[1..][k - 1]];
      ValueAgrees(g, h, r, ps[0].value, seen, depth);
      AlteredPartsFork(g, h, r, ps[1..], qs[1..], l, first.seen, depth);
      ForksThen(ps[0].key, false, first, first', depth + l <= 64,
                HashParts(g, ps[1..], first.seen, depth), HashParts(h, qs[1..], first'.seen, depth));
    }
  }

  lemma ObjectForks(g: Graph, h: Graph, r: Ref, l: nat)
    requires Beside(g, h, r) && !Lookup(g, r).Scalar? && Altered(Lookup(g, r), Lookup(h, r), l)
    ensures ForksAt(g, h, r, 65 - l)
  {
    hide HashValue, Altered, Forks, Beside;
    forall seen: set<Ref>, depth: nat | depth <= MAX_DEPTH && r !in seen
      ensures Forks(depth < 65 - l, HashValue(g, Indirect(r), seen, depth), HashValue(h, Indirect(r), seen, depth))
    {
      ContainerForks(g, h, r, Indirect(r), Indirect(r), l, seen, depth);
    }
  }

  // ----- documents -----

  /** No attribute of a page prints the object `r`; a stream is printed as its reference. */
  ghost predicate AttributesKept(doc: Document, r: Ref, p: Object) {
    || (Lookup(doc.g, r).Stream? && p.Stream?)
    || forall page <- doc.pages :: Indirect(r) !in Attributes(page)
  }

  function Replaced(doc: Document, r: Ref, p: Object): Document {
    Document(doc.g[r := p], doc.pages)
  }

  lemma HeaderKept(doc: Document, r: Ref, p: Object, page: Page)
    requires AttributesKept(doc, r, p) && page in doc.pages
    ensures PageHeader(doc.g[r := p], page) == PageHeader(doc.g, page)
  {
    BoxKept(doc.g, r, p, page.mediaBox);
    BoxKept(doc.g, r, p, page.cropBox);
    BoxKept(doc.g, r, p, page.rotate);
  }

  lemma BoxKept(g: Graph, r: Ref, p: Object, v: Value)
    requires v != Indirect(r) || (Lookup(g, r).Stream? && p.Stream?)
    ensures BoxText(g[r := p], v) == BoxText(g, v)
  {
  }

  lemma {:induction false} PagesFork(g: Graph, h: Graph, r: Ref, limit: int, pages: seq<Page>, seen: set<Ref>)
    requires Beside(g, h, r) && (r in seen || ForksAt(g, h, r, limit))
    requires forall k | 0 <= k < |pages| :: PageHeader(h, pages[k]) == PageHeader(g, pages[k])
    ensures Forks(PagesReached(g, pages, seen, r, limit), HashPages(g, pages, seen), HashPages(h, pages, seen))
    decreases |pages|
  {
    if pages != [] {
      hide HashValue, Reached, ForksAt, Beside, Once, InStep, PageHeader;
      var v := pages[0].resources;
      var first, first' := HashValue(g, v, seen, 0), HashValue(h, v, seen, 0);
      ValueForks(g, h, r, limit, v, seen, 0);
      ValueOnce(g, v, seen, 0);
      SeenGrows(seen, first);
      PagesFork(g, h, r, limit, pages[1..], first.seen);
      ForksThen(PageHeader(g, pages[0]), Reached(g, v, seen, 0, r, limit), first, first',
                PagesReached(g, pages[1..], first.seen, r, limit),
                HashPages(g, pages[1..], first.seen), HashPages(h, pages[1..], first'.seen));
    }
  }

  /** The bytes of two documents with as many pages. */
  lemma BytesFork(doc: Document, doc': Document, noticed: bool)
    requires |doc.pages| == |doc'.pages|
    requires Forks(noticed, HashPages(doc.g, doc.pages, {}), HashPages(doc'.g, doc'.pages, {}))
    ensures ContentBytes(doc') != ContentBytes(doc) <==> noticed
    ensures Visited(doc') == Visited(doc)
  {
    KeyThen("pages:" + Decimal.Text(|doc.pages|) + "\n", !noticed, HashPages(doc.g, doc.pages, {}).bytes,
            HashPages(doc'.g, doc'.pages, {}).bytes);
  }

  lemma ReplacedForks(doc: Document, r: Ref, p: Object, limit: int)
    requires ForksAt(doc.g, doc.g[r := p], r, limit) && AttributesKept(doc, r, p)
    ensures ContentBytes(Replaced(doc, r, p)) != ContentBytes(doc) <==> PagesReached(doc.g, doc.pages, {}, r, limit)
    ensures Visited(Replaced(doc, r, p)) == Visited(doc)
  {
    hide ForksAt, HashPages, PagesReached, ContentBytes, Visited, PageHeader, AttributesKept;
    var h := doc.g[r := p];
    forall k | 0 <= k < |doc.pages|
      ensures PageHeader(h, doc.pages[k]) == PageHeader(doc.g, doc.pages[k])
    {
      HeaderKept(doc, r, p, doc.pages[k]);
    }
    PagesFork(doc.g, h, r, limit, doc.pages, {});
    BytesFork(doc, Replaced(doc, r, p), PagesReached(doc.g, doc.pages, {}, r, limit));
  }

  /** One change in an object of the document, `l` containers deep, changes the bytes if and only if
      the object is entered at a level that leaves room for it: the change is then at level 64 or
      above. */
  lemma ChangeNoticedIff(doc: Document, r: Ref, p: Object, l: nat)
    requires !Lookup(doc.g, r).Scalar? && Altered(Lookup(doc.g, r), p, l) && AttributesKept(doc, r, p)
    ensures ContentBytes(Replaced(doc, r, p)) != ContentBytes(doc) <==> PagesReached(doc.g, doc.pages, {}, r, 65 - l)
    ensures Visited(Replaced(doc, r, p)) == Visited(doc)
  {
    hide Altered, AttributesKept, ContentBytes, Visited, PagesReached, ForksAt;
    ObjectForks(doc.g, doc.g[r := p], r, l);
    ReplacedForks(doc, r, p, 65 - l);
  }

  lemma {:induction false} ReachedIff(g: Graph, v: Value, seen: set<Ref>, depth: nat, r: Ref)
    requires depth <= MAX_DEPTH + 1
    ensures Reached(g, v, seen, depth, r, 65) <==> r in HashValue(g, v, seen, depth).bodies
    decreases MAX_DEPTH + 1 - depth, 0
  {
    hide Parts, Target, PartsReached, HashParts;
    if depth <= MAX_DEPTH && !(v.Indirect? && v.ref in seen) && !Target(g, v).Scalar? {
      HashContainer(g, v, seen, depth);
      PartsReachedIff(g, Parts(Target(g, v)), Entered(v, seen), depth + 1, r);
      if v == Indirect(r) {
        assert Own(v)[0] == r;
      }
    }
  }

  lemma {:induction false} PartsReachedIff(g: Graph, parts: seq<Entry>, seen: set<Ref>, depth: nat, r: Ref)
    requires depth <= MAX_DEPTH + 1
    ensures PartsReached(g, parts, seen, depth, r, 65) <==> r in HashParts(g, parts, seen, depth).bodies
    decreases MAX_DEPTH + 1 - depth, |parts| + 1
  {
    hide HashValue, Reached;
    if parts != [] {
      var first := HashValue(g, parts[0].value, seen, depth);
      ReachedIff(g, parts[0].value, seen, depth, r);
      PartsReachedIff(g, parts[1..], first.seen, depth, r);
    }
  }

  lemma {:induction false} PagesReachedIff(g: Graph, pages: seq<Page>, seen: set<Ref>, r: Ref)
    ensures PagesReached(g, pages, seen, r, 65) <==> r in HashPages(g, pages, seen).bodies
    decreases |pages|
  {
    hide HashValue, Reached, PageHeader;
    if pages != [] {
      var first := HashValue(g, pages[0].resources, seen, 0);
      ReachedIff(g, pages[0].resources, seen, 0, r);
      PagesReachedIff(g, pages[1..], first.seen, r);
    }
  }

  /** Other data in a stream changes the bytes if and only if the stream is visited. */
  lemma StreamDataNoticedIff(doc: Document, r: Ref, data: string)
    requires Lookup(doc.g, r).Stream? && Lookup(doc.g, r).data != data
    ensures var doc' := Replaced(doc, r, Stream(Lookup(doc.g, r).entries, data));
            ContentBytes(doc') != ContentBytes(doc) <==> r in Visited(doc)
  {
    hide ContentBytes, PagesReached, HashPages;
    ChangeNoticedIff(doc, r, Stream(Lookup(doc.g, r).entries, data), 0);
    PagesReachedIff(doc.g, doc.pages, {}, r);
  }

  // ----- what is not noticed -----

  lemma UnnoticedObject(doc: Document, r: Ref, p: Object)
    requires var o := Lookup(doc.g, r);
             && o.Scalar? == p.Scalar? && Parts(p) == Parts(o) && Opening(p) == Opening(o) && Closing(p) == Closing(o)
    requires AttributesKept(doc, r, p)
    ensures ContentBytes(Replaced(doc, r, p)) == ContentBytes(doc)
  {
    hide AttributesKept, ContentBytes, PagesReached, Parts, Opening, Closing;
    var g, h := doc.g, doc.g[r := p];
    forall seen: set<Ref>, depth: nat | depth <= MAX_DEPTH && r !in seen
      ensures Forks(false, HashValue(g, Indirect(r), seen, depth), HashValue(h, Indirect(r), seen, depth))
    {
      var o := Lookup(g, r);
      if !o.Scalar? {
        hide HashValue, HashParts, Forks;
        HashContainer(g, Indirect(r), seen, depth);
        HashContainer(h, Indirect(r), seen, depth);
        PartsAgree(g, h, r, Parts(o), seen + {r}, depth + 1);
        ForksWrap([r], Opening(o), false, HashParts(g, Parts(o), seen + {r}, depth + 1),
                  HashParts(h, Parts(o), seen + {r}, depth + 1), Closing(o));
      }
    }
    NeverReached(doc.g, doc.pages, {}, r);
    ReplacedForks(doc, r, p, 0);
  }

  lemma {:induction false} NeverReached(g: Graph, pages: seq<Page>, seen: set<Ref>, r: Ref)
    ensures !PagesReached(g, pages, seen, r, 0)
    decreases |pages|
  {
    hide HashValue, Reached;
    if pages != [] {
      ValueNeverReached(g, pages[0].resources, seen, 0, r);
      NeverReached(g, pages[1..], HashValue(g, pages[0].resources, seen, 0).seen, r);
    }
  }

  lemma {:induction false} ValueNeverReached(g: Graph, v: Value, seen: set<Ref>, depth: nat, r: Ref)
    requires depth <= MAX_DEPTH + 1
    ensures !Reached(g, v, seen, depth, r, 0)
    decreases MAX_DEPTH + 1 - depth, 0
  {
    hide Parts, Target, PartsReached;
    if depth <= MAX_DEPTH && !Target(g, v).Scalar? {
      PartsNeverReached(g, Parts(Target(g, v)), Entered(v, seen), depth + 1, r);
    }
  }

  lemma {:induction false} PartsNeverReached(g: Graph, parts: seq<Entry>, seen: set<Ref>, depth: nat, r: Ref)
    requires depth <= MAX_DEPTH + 1
    ensures !PartsReached(g, parts, seen, depth, r, 0)
    decreases MAX_DEPTH + 1 - depth, |parts| + 1
  {
    hide HashValue, Reached;
    if parts != [] {
      ValueNeverReached(g, parts[0].value, seen, depth, r);
      PartsNeverReached(g, parts[1..], HashValue(g, parts[0].value, seen, depth).seen, depth, r);
    }
  }

  /** An indirect scalar is hashed by its number: its text can be any other. */
  lemma IndirectScalarUnnoticed(doc: Document, r: Ref, text: string)
    requires Lookup(doc.g, r).Scalar? && forall page <- doc.pages :: Indirect(r) !in Attributes(page)
    ensures ContentBytes(Replaced(doc, r, Scalar(text))) == ContentBytes(doc)
  {
    hide ContentBytes;
    UnnoticedObject(doc, r, Scalar(text));
  }

  lemma {:induction false} KeptAppend(a: seq<Entry>, b: seq<Entry>, skipped: set<string>)
    ensures Kept(a + b, skipped) == Kept(a, skipped) + Kept(b, skipped)
  {
    if a == [] {
      assert a + b == b;
    } else {
      assert (a + b)[1..] == a[1..] + b;
      KeptAppend(a[1..], b, skipped);
    }
  }

  lemma KeptWithout(before: seq<Entry>, e: Entry, after: seq<Entry>, skipped: set<string>)
    requires e.key in skipped
    ensures Kept(before + ([e] + after), skipped) == Kept(before + after, skipped)
  {
    KeptAppend(before, [e] + after, skipped);
    KeptAppend(before, after, skipped);
    assert ([e] + after)[1..] == after;
  }

  /** Entries under the keys that are not hashed come and go without a trace. */
  lemma SkippedEntryUnnoticed(doc: Document, r: Ref, before: seq<Entry>, e: Entry, after: seq<Entry>)
    requires Lookup(doc.g, r) == Dict(before + ([e] + after)) && e.key in {"/Parent", "/P"}
    requires forall page <- doc.pages :: Indirect(r) !in Attributes(page)
    ensures ContentBytes(Replaced(doc, r, Dict(before + after))) == ContentBytes(doc)
  {
    hide ContentBytes;
    KeptWithout(before, e, after, DICT_SKIPPED);
    UnnoticedObject(doc, r, Dict(before + after));
  }

  lemma SkippedStreamEntryUnnoticed(doc: Document, r: Ref, before: seq<Entry>, e: Entry, after: seq<Entry>,
      data: string)
    requires Lookup(doc.g, r) == Stream(before + ([e] + after), data)
    requires e.key in {"/Length", "/Filter", "/DecodeParms", "/Parent", "/P"}
    ensures ContentBytes(Replaced(doc, r, Stream(before + after, data))) == ContentBytes(doc)
  {
    hide ContentBytes;
    KeptWithout(before, e, after, STREAM_SKIPPED);
    UnnoticedObject(doc, r, Stream(before + after, data));
  }

  // ----- a page that changes -----

  /** What one page feeds: its header and its resources. */
  function PageFed(g: Graph, page: Page, seen: set<Ref>): Fed {
    var first := HashValue(g, page.resources, seen, 0);
    Fed(PageHeader(g, page) + first.bytes, first.seen, first.bodies)
  }

  ghost predicate PageForks(g: Graph, page: Page, page': Page, noticed: bool) {
    forall seen: set<Ref> :: Forks(noticed, PageFed(g, page, seen), PageFed(g, page', seen))
  }

  lemma PagesCons(g: Graph, pages: seq<Page>, seen: set<Ref>)
    requires pages != []
    ensures var first := PageFed(g, pages[0], seen);
            var rest := HashPages(g, pages[1..], first.seen);
            HashPages(g, pages, seen) == Fed("" + (first.bytes + rest.bytes), rest.seen, first.bodies + rest.bodies)
  {
    hide HashValue, PageHeader;
    var first := HashValue(g, pages[0].resources, seen, 0);
    Assoc(PageHeader(g, pages[0]), first.bytes, HashPages(g, pages[1..], first.seen).bytes);
  }

  lemma SameForks(a: Fed)
    ensures Forks(false, a, a)
  {
  }

  lemma {:induction false} OnePageForks(g: Graph, pages: seq<Page>, k: nat, page': Page, noticed: bool, seen: set<Ref>)
    requires k < |pages| && PageForks(g, pages[k], page', noticed)
    ensures Forks(noticed, HashPages(g, pages, seen), HashPages(g, pages[k := page'], seen))
    decreases k
  {
    hide HashPages, PageFed, Forks;
    var pages' := pages[k := page'];
    var first, first' := PageFed(g, pages[0], seen), PageFed(g, pages'[0], seen);
    PagesCons(g, pages, seen);
    PagesCons(g, pages', seen);
    var rest, rest' := HashPages(g, pages[1..], first.seen), HashPages(g, pages'[1..], first'.seen);
    if k == 0 {
      assert pages'[1..] == pages[1..];
      assert Forks(noticed, first, first');
      SeenEqual(noticed, first, first');
      SameForks(rest);
      ForksThen("", noticed, first, first', false, rest, rest');
    } else {
      assert pages'[1..] == pages[1..][k - 1 := page'];
      OnePageForks(g, pages[1..], k - 1, page', noticed, first.seen);
      SameForks(first);
      ForksThen("", false, first, first', noticed, rest, rest');
    }
  }

  lemma SeenEqual(noticed: bool, a: Fed, b: Fed)
    requires Forks(noticed, a, b)
    ensures a.seen == b.seen
  {
  }

  lemma PageNoticedIff(doc: Document, k: nat, page': Page, noticed: bool)
    requires k < |doc.pages| && PageForks(doc.g, doc.pages[k], page', noticed)
    ensures ContentBytes(Document(doc.g, doc.pages[k := page'])) != ContentBytes(doc) <==> noticed
  {
    hide PageForks, HashPages, ContentBytes;
    OnePageForks(doc.g, doc.pages, k, page', noticed, {});
    BytesFork(doc, Document(doc.g, doc.pages[k := page']), noticed);
  }

  lemma HeaderForks(g: Graph, page: Page, page': Page)
    requires page'.resources == page.resources && Diverge(PageHeader(g, page), PageHeader(g, page'))
    ensures PageForks(g, page, page', true)
  {
    hide PageHeader, HashValue, Diverge;
    forall seen: set<Ref>
      ensures Forks(true, PageFed(g, page, seen), PageFed(g, page', seen))
    {
      var bytes := HashValue(g, page.resources, seen, 0).bytes;
      DivergeExtend(PageHeader(g, page), PageHeader(g, page'), bytes, bytes);
    }
  }

  /** Any other content of a page changes the bytes. */
  lemma PageContentNoticed(doc: Document, k: nat, content: string)
    requires k < |doc.pages| && doc.pages[k].content != content
    ensures ContentBytes(Document(doc.g, doc.pages[k := doc.pages[k].(content := content)])) != ContentBytes(doc)
  {
    hide ContentBytes, BoxBytes;
    var page := doc.pages[k];
    var page' := page.(content := content);
    var boxes, boxes' := BoxBytes(doc.g, page), BoxBytes(doc.g, page');
    var sized := Decimal.Text(|page.content|) + "\n" + page.content;
    var sized' := Decimal.Text(|content|) + "\n" + content;
    SizedDiverge(page.content, content, '\n');
    DivergePrefix("page:", sized, sized');
    DivergeExtend("page:" + sized, "page:" + sized', boxes, boxes');
    PageLabel(page.content);
    PageLabel(content);
    HeaderForks(doc.g, page, page');
    PageNoticedIff(doc, k, page', true);
  }

  lemma PageLabel(content: string)
    ensures "page:" + (Decimal.Text(|content|) + "\n" + content) == "page:" + Decimal.Text(|content|) + "\n" + content
  {
    var n := Decimal.Text(|content|);
    Assoc("page:", n + "\n", content);
    Assoc("page:", n, "\n");
  }

  /** A change in the direct structure of a page's resources is noticed up to level 64. */
  lemma ResourcesNoticedIff(doc: Document, k: nat, w: Value, l: nat)
    requires k < |doc.pages| && AlteredValue(doc.pages[k].resources, w, l)
    ensures var pages := doc.pages[k := doc.pages[k].(resources := w)];
            ContentBytes(Document(doc.g, pages)) != ContentBytes(doc) <==> l <= 64
  {
    hide ContentBytes, HashValue, AlteredValue;
    var page := doc.pages[k];
    var page' := page.(resources := w);
    forall seen: set<Ref>
      ensures Forks(l <= 64, PageFed(doc.g, page, seen), PageFed(doc.g, page', seen))
    {
      var a, b := HashValue(doc.g, page.resources, seen, 0), HashValue(doc.g, w, seen, 0);
      AlteredForks(doc.g, doc.g, Ref(0, 0), page.resources, w, l, seen, 0);
      KeyThen(PageHeader(doc.g, page), l > 64, a.bytes, b.bytes);
    }
    PageNoticedIff(doc, k, page', l <= 64);
  }

  // ----- the attributes of a page -----

  lemma ScalarPrints(text: string)
    ensures Unparse(Direct(Scalar(text))) == text
  {
    assert UnparseResolved(Scalar(text)) == text;
  }

  /** Arrays that differ in one scalar print texts that diverge. */
  lemma {:induction false} ItemTextsDiverge(items: seq<Value>, k: nat, a: string, b: string)
    requires k < |items| && items[k] == Direct(Scalar(a)) && Apart(a, b)
    ensures Diverge(UnparseItems(items), UnparseItems(items[k := Direct(Scalar(b))]))
    decreases k
  {
    hide Diverge, Unparse;
    var items' := items[k := Direct(Scalar(b))];
    if k == 0 {
      ApartDiverge(a, b);
      ScalarPrints(a);
      ScalarPrints(b);
      assert items'[0] == Direct(Scalar(b));
      assert items'[1..] == items[1..];
      DivergeExtend(a + " ", b + " ", UnparseItems(items[1..]), UnparseItems(items[1..]));
    } else {
      assert items'[1..] == items[1..][k - 1 := Direct(Scalar(b))];
      ItemTextsDiverge(items[1..], k - 1, a, b);
      DivergePrefix(Unparse(items[0]) + " ", UnparseItems(items[1..]), UnparseItems(items'[1..]));
    }
  }

  lemma BoxTextsDiverge(g: Graph, items: seq<Value>, k: nat, a: string, b: string)
    requires k < |items| && items[k] == Direct(Scalar(a)) && Apart(a, b)
    ensures Diverge(BoxText(g, Direct(Array(items))), BoxText(g, Direct(Array(items[k := Direct(Scalar(b))]))))
  {
    hide UnparseItems, Diverge;
    var x, y := UnparseItems(items), UnparseItems(items[k := Direct(Scalar(b))]);
    ItemTextsDiverge(items, k, a, b);
    DivergePrefix("[ ", x, y);
    DivergeExtend("[ " + x, "[ " + y, "]", "]");
  }

  /** An attribute whose printed text diverges from the old one changes the bytes: the media box, the
      crop box or the rotation. */
  lemma AttributeNoticed(doc: Document, k: nat, page': Page)
    requires k < |doc.pages| && page'.content == doc.pages[k].content && page'.resources == doc.pages[k].resources
    requires var page := doc.pages[k];
             || (page' == page.(mediaBox := page'.mediaBox) &&
                 Diverge(BoxText(doc.g, page.mediaBox), BoxText(doc.g, page'.mediaBox)))
             || (page' == page.(cropBox := page'.cropBox) &&
                 Diverge(BoxText(doc.g, page.cropBox), BoxText(doc.g, page'.cropBox)))
             || (page' == page.(rotate := page'.rotate) &&
                 Diverge(BoxText(doc.g, page.rotate), BoxText(doc.g, page'.rotate)))
    ensures ContentBytes(Document(doc.g, doc.pages[k := page'])) != ContentBytes(doc)
  {
    hide ContentBytes, BoxText;
    var page := doc.pages[k];
    BoxBytesDiverge(doc.g, page, page');
    DivergePrefix("page:" + Decimal.Text(|page.content|) + "\n" + page.content, BoxBytes(doc.g, page),
                  BoxBytes(doc.g, page'));
    HeaderForks(doc.g, page, page');
    PageNoticedIff(doc, k, page', true);
  }

  lemma BoxBytesDiverge(g: Graph, p: Page, q: Page)
    requires var m, c, t := InStep(true, BoxText(g, p.mediaBox), BoxText(g, q.mediaBox)),
                            InStep(true, BoxText(g, p.cropBox), BoxText(g, q.cropBox)),
                            InStep(true, BoxText(g, p.rotate), BoxText(g, q.rotate));
             && (m || Diverge(BoxText(g, p.mediaBox), BoxText(g, q.mediaBox)))
             && (c || Diverge(BoxText(g, p.cropBox), BoxText(g, q.cropBox)))
             && (t || Diverge(BoxText(g, p.rotate), BoxText(g, q.rotate)))
             && !(m && c && t)
    ensures Diverge(BoxBytes(g, p), BoxBytes(g, q))
  {
    var a, a', b, b', c, c' := BoxText(g, p.mediaBox), BoxText(g, q.mediaBox), BoxText(g, p.cropBox),
      BoxText(g, q.cropBox), BoxText(g, p.rotate), BoxText(g, q.rotate);
    var fa, fb, fc := a == a', b == b', c == c';
    assert InStep(fa, a, a') && InStep(fb, b, b') && InStep(fc, c, c');
    var x, x' := "/Rotate" + c, "/Rotate" + c';
    var y, y' := "/CropBox" + (b + x), "/CropBox" + (b' + x');
    hide BoxText, Diverge, InStep;
    KeyThen("/Rotate", fc, c, c');
    StepThen(fb, b, b', fc, x, x');
    KeyThen("/CropBox", fb && fc, b + x, b' + x');
    StepThen(fa, a, a', fb && fc, y, y');
    KeyThen("/MediaBox", fa && fb && fc, a + y, a' + y');
    StepMeans(fa && fb && fc, BoxBytes(g, p), BoxBytes(g, q));
  }

  lemma StepMeans(fixed: bool, a: string, b: string)
    requires InStep(fixed, a, b) && !fixed
    ensures Diverge(a, b)
  {
  }

  // ----- the bytes themselves -----

  lemma EmptyContainer(g: Graph, seen: set<Ref>, o: Object)
    requires !o.Scalar? && Parts(o) == []
    ensures HashValue(g, Direct(o), seen, 0).bytes == Opening(o) + Closing(o)
  {
    hide Opening, Closing, Parts;
    var none := HashParts(g, [], seen, 1);
    assert none.bytes + Closing(o) == Closing(o);
  }

  /** A stream without hashed entries: its size and its data. */
  lemma StreamBytes(g: Graph, seen: set<Ref>, data: string)
    ensures HashValue(g, Direct(Stream([], data)), seen, 0).bytes == "S<" + (Decimal.Text(|data|) + ">" + data)
  {
    hide HashValue;
    assert Closing(Stream([], data)) == Decimal.Text(|data|) + ">" + data;
    EmptyContainer(g, seen, Stream([], data));
  }

  lemma EmptyBrackets(g: Graph, seen: set<Ref>)
    ensures HashValue(g, Direct(Array([])), seen, 0).bytes == "[" + "]"
    ensures HashValue(g, Direct(Dict([])), seen, 0).bytes == "<<" + ">>"
  {
    hide HashValue;
    assert Parts(Array([])) == [];
    EmptyContainer(g, seen, Array([]));
    EmptyContainer(g, seen, Dict([]));
  }

  /** A reference seen before, a scalar at the last level, and anything below it. */
  lemma Marks(g: Graph, seen: set<Ref>, r: Ref, text: string, v: Value)
    ensures HashValue(g, Indirect(r), seen + {r}, 0).bytes == "R"
    ensures HashValue(g, Direct(Scalar(text)), seen, 64).bytes == text + " "
    ensures HashValue(g, v, seen, 65).bytes == "D"
  {
  }

  /** A dictionary of one entry under a key that is hashed. */
  lemma OneEntry(g: Graph, seen: set<Ref>, key: string, text: string)
    requires key !in {"/Parent", "/P"}
    ensures HashValue(g, Direct(Dict([Entry(key, Direct(Scalar(text)))])), seen, 0).bytes ==
            "<<" + ((key + (text + " ")) + ">>")
  {
    var e := Entry(key, Direct(Scalar(text)));
    assert [e][1..] == [];
    assert Kept([e], DICT_SKIPPED) == [e] + Kept([e][1..], DICT_SKIPPED) == [e];
    var inner := HashValue(g, e.value, seen, 1);
    assert HashParts(g, [e][1..], seen, 1).bytes == "" && inner.bytes + "" == inner.bytes;
    assert HashParts(g, [e], seen, 1).bytes == key + (text + " ");
  }

  /** A document of one page: the labels and their order. */
  lemma OnePageBytes(g: Graph, content: string, media: string, crop: string, turn: string, resources: Value)
    ensures var page := Page(content, Direct(Scalar(media)), Direct(Scalar(crop)), Direct(Scalar(turn)), resources);
            ContentBytes(Document(g, [page])) ==
            "pages:" + "1" + "\n" +
            ((("page:" + Decimal.Text(|content|) + "\n" + content) +
              ("/MediaBox" + (media + ("/CropBox" + (crop + ("/Rotate" + turn)))))) +
             HashValue(g, resources, {}, 0).bytes)
  {
    hide HashValue;
    var page := Page(content, Direct(Scalar(media)), Direct(Scalar(crop)), Direct(Scalar(turn)), resources);
    var first := HashValue(g, resources, {}, 0);
    assert [page][1..] == [];
    assert HashPages(g, [page][1..], first.seen).bytes == "" && first.bytes + "" == first.bytes;
    assert HashPages(g, [page], {}).bytes == PageHeader(g, page) + first.bytes;
    assert Decimal.Text(1) == "1";
  }

  /** A page attribute that refers to nothing prints as null, one that refers to a stream as the
      reference, and any other reference as the object itself. */
  lemma AttributePrinted(g: Graph, r: Ref, text: string)
    ensures r !in g ==> BoxText(g, Indirect(r)) == "null"
    ensures r in g && g[r].Stream? ==>
              BoxText(g, Indirect(r)) == Decimal.Text(r.id) + (" " + (Decimal.Text(r.gen) + " R"))
    ensures r in g && g[r] == Scalar(text) ==> BoxText(g, Indirect(r)) == text == BoxText(g, Direct(g[r]))
  {
  }
}
