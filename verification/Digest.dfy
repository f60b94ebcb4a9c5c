/** The byte stream that is hashed into a document certificate. */
module Digest {
  import Decimal
  import opened Concatenation

  datatype Ref = Ref(id: nat, gen: nat)

  datatype Value = Direct(obj: Object) | Indirect(ref: Ref)

  datatype Entry = Entry(key: string, value: Value)

  /** Entries are in the order in which the keys of a dictionary are listed; as in that listing, an
      entry whose value is null, or a reference to nothing, is not among them. `data` is what a
      stream decodes to. */
  datatype Object =
    | Scalar(text: string)
    | Array(items: seq<Value>)
    | Dict(entries: seq<Entry>)
    | Stream(entries: seq<Entry>, data: string)

  /** The indirect objects of a document; a reference may be dangling and the graph cyclic. */
  type Graph = map<Ref, Object>

  function Lookup(g: Graph, r: Ref): Object {
    if r in g then g[r] else Scalar("null")
  }

  function Target(g: Graph, v: Value): Object {
    match v
    case Direct(o) => o
    case Indirect(r) => Lookup(g, r)
  }

  function RefText(r: Ref): string {
    Decimal.Text(r.id) + (" " + (Decimal.Text(r.gen) + " R"))
  }

  const DICT_SKIPPED: set<string> := {"/Parent", "/P"}
  const STREAM_SKIPPED: set<string> := {"/Length", "/Filter", "/DecodeParms", "/Parent", "/P"}

  function Kept(entries: seq<Entry>, skipped: set<string>): (r: seq<Entry>)
    ensures forall i | 0 <= i < |r| :: r[i] in entries
  {
    if entries == [] then []
    else if entries[0].key in skipped then Kept(entries[1..], skipped)
    else [entries[0]] + Kept(entries[1..], skipped)
  }

  /** The parts of a container that are hashed, each behind its key (an array item has none). */
  function Parts(o: Object): seq<Entry> {
    match o
    case Scalar(_) => []
    case Array(items) => seq(|items|, i requires 0 <= i < |items| => Entry("", items[i]))
    case Dict(entries) => Kept(entries, DICT_SKIPPED)
    case Stream(entries, _) => Kept(entries, STREAM_SKIPPED)
  }

  function Opening(o: Object): string {
    match o
    case Scalar(_) => ""
    case Array(_) => "["
    case Dict(_) => "<<"
    case Stream(_, _) => "S<"
  }

  function Closing(o: Object): string {
    match o
    case Scalar(_) => ""
    case Array(_) => "]"
    case Dict(_) => ">>"
    case Stream(_, data) => Decimal.Text(|data|) + ">" + data
  }

  const MAX_DEPTH: nat := 64

  /** What a traversal feeds to the hash, the references seen afterwards, and the indirect objects
      whose bodies it hashed, in order. */
  datatype Fed = Fed(bytes: string, seen: set<Ref>, bodies: seq<Ref>)

  function ScalarText(v: Value, text: string): string {
    (if v.Indirect? then RefText(v.ref) else text) + " "
  }

  /** `hashObj`. */
  function HashValue(g: Graph, v: Value, seen: set<Ref>, depth: nat): Fed
    requires depth <= MAX_DEPTH + 1
    decreases MAX_DEPTH + 1 - depth, 0
  {
    if depth > MAX_DEPTH then Fed("D", seen, [])
    else if v.Indirect? && v.ref in seen then Fed("R", seen, [])
    else
      var seen' := if v.Indirect? then seen + {v.ref} else seen;
      var own := if v.Indirect? then [v.ref] else [];
      var o := Target(g, v);
      if o.Scalar? then Fed(ScalarText(v, o.text), seen', own)
      else
        var inner := HashParts(g, Parts(o), seen', depth + 1);
        Fed(Opening(o) + (inner.bytes + Closing(o)), inner.seen, own + inner.bodies)
  }

  function HashParts(g: Graph, parts: seq<Entry>, seen: set<Ref>, depth: nat): Fed
    requires depth <= MAX_DEPTH + 1
    decreases MAX_DEPTH + 1 - depth, |parts| + 1
  {
    if parts == [] then Fed("", seen, [])
    else
      var first := HashValue(g, parts[0].value, seen, depth);
      var rest := HashParts(g, parts[1..], first.seen, depth);
      Fed(parts[0].key + (first.bytes + rest.bytes), rest.seen, first.bodies + rest.bodies)
  }

  // ----- the whole document -----

  /** The attributes are values after inheritance; one that is missing is null. */
  datatype Page = Page(content: string, mediaBox: Value, cropBox: Value, rotate: Value, resources: Value)

  datatype Document = Document(g: Graph, pages: seq<Page>)

  function Unparse(v: Value): string {
    match v
    case Indirect(r) => RefText(r)
    case Direct(o) => UnparseResolved(o)
  }

  function UnparseResolved(o: Object): string {
    match o
    case Scalar(text) => text
    case Array(items) => "[ " + UnparseItems(items) + "]"
    case Dict(entries) => "<< " + UnparseEntries(entries) + ">>"
    case Stream(entries, _) => "<< " + UnparseEntries(entries) + ">>"
  }

  function UnparseItems(items: seq<Value>): string {
    if items == [] then "" else Unparse(items[0]) + " " + UnparseItems(items[1..])
  }

  function UnparseEntries(entries: seq<Entry>): string {
    if entries == [] then ""
    else entries[0].key + " " + Unparse(entries[0].value) + " " + UnparseEntries(entries[1..])
  }

  /** What an attribute of a page prints: the object it refers to, but a stream as its reference. */
  function BoxText(g: Graph, v: Value): string {
    if v.Indirect? && Target(g, v).Stream? then RefText(v.ref) else UnparseResolved(Target(g, v))
  }

  function BoxBytes(g: Graph, page: Page): string {
    "/MediaBox" + (BoxText(g, page.mediaBox) +
    ("/CropBox" + (BoxText(g, page.cropBox) + ("/Rotate" + BoxText(g, page.rotate)))))
  }

  function PageHeader(g: Graph, page: Page): string {
    ("page:" + Decimal.Text(|page.content|) + "\n" + page.content) + BoxBytes(g, page)
  }

  function HashPages(g: Graph, pages: seq<Page>, seen: set<Ref>): Fed {
    if pages == [] then Fed("", seen, [])
    else
      var first := HashValue(g, pages[0].resources, seen, 0);
      var rest := HashPages(g, pages[1..], first.seen);
      Fed(PageHeader(g, pages[0]) + (first.bytes + rest.bytes), rest.seen, first.bodies + rest.bodies)
  }

  /** `contentDigest`, up to the hash function. */
  function ContentBytes(doc: Document): string {
    "pages:" + Decimal.Text(|doc.pages|) + "\n" + HashPages(doc.g, doc.pages, {}).bytes
  }

  /** The indirect objects that the digest of a document depends on. */
  function Visited(doc: Document): seq<Ref> {
    HashPages(doc.g, doc.pages, {}).bodies
  }

  /** The hash state with the set of references already seen. */
  class Hasher {
    var fed: string
    var seen: set<Ref>

    constructor ()
      ensures fed == "" && seen == {}
    {
      fed, seen := "", {};
    }

    method Put(s: string)
      modifies this`fed
      ensures fed == old(fed) + s
    {
      fed := fed + s;
    }

    method HashObj(g: Graph, v: Value, depth: nat)
      requires depth <= MAX_DEPTH + 1
      modifies this
      ensures var out := HashValue(g, v, old(seen), depth);
              fed == old(fed) + out.bytes && seen == out.seen
      decreases MAX_DEPTH + 1 - depth, 0
    {
      if depth > MAX_DEPTH {
        Put("D");
        return;
      }
      if v.Indirect? {
        if v.ref in seen {
          Put("R");
          return;
        }
        seen := seen + {v.ref};
      }
      var o := Target(g, v);
      if o.Scalar? {
        Put(ScalarText(v, o.text));
      } else {
        ghost var inner := HashParts(g, Parts(o), seen, depth + 1);
        Put(Opening(o));
        HashEach(g, Parts(o), depth + 1);
        Put(Closing(o));
        Assoc4(old(fed), Opening(o), inner.bytes, Closing(o));
      }
    }

    /** The loop over the keys or items of a container. */
    method HashEach(g: Graph, parts: seq<Entry>, depth: nat)
      requires depth <= MAX_DEPTH + 1
      modifies this
      ensures var out := HashParts(g, parts, old(seen), depth);
              fed == old(fed) + out.bytes && seen == out.seen
      decreases MAX_DEPTH + 1 - depth, 1
    {
      ghost var all := HashParts(g, parts, seen, depth);
      ghost var total := fed + all.bytes;
      assert parts[0..] == parts;
      for i := 0 to |parts|
        invariant var rest := HashParts(g, parts[i..], seen, depth);
                  fed + rest.bytes == total && rest.seen == all.seen
      {
        PartsStep(g, parts, i, seen, depth, fed);
        Put(parts[i].key);
        HashObj(g, parts[i].value, depth);
      }
    }

    method HashPage(g: Graph, page: Page)
      modifies this
      ensures var out := HashValue(g, page.resources, old(seen), 0);
              fed == old(fed) + PageHeader(g, page) + out.bytes && seen == out.seen
    {
      Put(PageHeader(g, page));
      HashObj(g, page.resources, 0);
    }
  }

  lemma PartsStep(g: Graph, parts: seq<Entry>, i: nat, seen: set<Ref>, depth: nat, fed: string)
    requires i < |parts| && depth <= MAX_DEPTH + 1
    ensures var first := HashValue(g, parts[i].value, seen, depth);
            var rest := HashParts(g, parts[i + 1..], first.seen, depth);
            && fed + HashParts(g, parts[i..], seen, depth).bytes == ((fed + parts[i].key) + first.bytes) + rest.bytes
            && HashParts(g, parts[i..], seen, depth).seen == rest.seen
  {
    assert parts[i..][1..] == parts[i + 1..];
    var first := HashValue(g, parts[i].value, seen, depth);
    Assoc4(fed, parts[i].key, first.bytes, HashParts(g, parts[i + 1..], first.seen, depth).bytes);
  }

  lemma PagesStep(g: Graph, pages: seq<Page>, i: nat, seen: set<Ref>, fed: string)
    requires i < |pages|
    ensures var first := HashValue(g, pages[i].resources, seen, 0);
            fed + HashPages(g, pages[i..], seen).bytes ==
            ((fed + PageHeader(g, pages[i])) + first.bytes) + HashPages(g, pages[i + 1..], first.seen).bytes
  {
    assert pages[i..][1..] == pages[i + 1..];
    var first := HashValue(g, pages[i].resources, seen, 0);
    Assoc4(fed, PageHeader(g, pages[i]), first.bytes, HashPages(g, pages[i + 1..], first.seen).bytes);
  }

  /** `contentDigest`: the loop over the pages. */
  method FeedDocument(doc: Document) returns (bytes: string)
    ensures bytes == ContentBytes(doc)
  {
    var h := new Hasher();
    var head := "pages:" + Decimal.Text(|doc.pages|) + "\n";
    h.Put(head);
    ghost var total := head + HashPages(doc.g, doc.pages, {}).bytes;
    assert doc.pages[0..] == doc.pages && "" + head == head;
    for i := 0 to |doc.pages|
      invariant h.fed + HashPages(doc.g, doc.pages[i..], h.seen).bytes == total
    {
      PagesStep(doc.g, doc.pages, i, h.seen, h.fed);
      h.HashPage(doc.g, doc.pages[i]);
    }
    return h.fed;
  }

  // ----- every indirect body is hashed at most once -----

  ghost predicate Distinct(s: seq<Ref>) {
    forall i, j | 0 <= i < j < |s| :: s[i] != s[j]
  }

  function AsSet(s: seq<Ref>): set<Ref> {
    set r | r in s
  }

  /** What a traversal from `seen` may report: new references, each once. */
  ghost predicate Once(seen: set<Ref>, after: set<Ref>, bodies: seq<Ref>) {
    Distinct(bodies) && seen !! AsSet(bodies) && after == seen + AsSet(bodies)
  }

  ghost predicate OnceFrom(seen: set<Ref>, out: Fed) {
    Once(seen, out.seen, out.bodies)
  }

  lemma OnceThen(seen: set<Ref>, middle: set<Ref>, after: set<Ref>, a: seq<Ref>, b: seq<Ref>)
    requires Once(seen, middle, a) && Once(middle, after, b)
    ensures Once(seen, after, a + b)
  {
    var all := a + b;
    forall i, j | 0 <= i < j < |all|
      ensures all[i] != all[j]
    {
      if i < |a| <= j {
        assert all[i] in AsSet(a) && all[j] in AsSet(b);
      }
    }
    assert AsSet(all) == AsSet(a) + AsSet(b);
  }

  lemma {:induction false} ValueOnce(g: Graph, v: Value, seen: set<Ref>, depth: nat)
    requires depth <= MAX_DEPTH + 1
    ensures OnceFrom(seen, HashValue(g, v, seen, depth))
    decreases MAX_DEPTH + 1 - depth, 0
  {
    if depth <= MAX_DEPTH && !(v.Indirect? && v.ref in seen) {
      var seen' := if v.Indirect? then seen + {v.ref} else seen;
      var own := if v.Indirect? then [v.ref] else [];
      assert Once(seen, seen', own) by {
        assert AsSet(own) == if v.Indirect? then {v.ref} else {};
      }
      if !Target(g, v).Scalar? {
        var inner := HashParts(g, Parts(Target(g, v)), seen', depth + 1);
        PartsOnce(g, Parts(Target(g, v)), seen', depth + 1);
        OnceThen(seen, seen', inner.seen, own, inner.bodies);
      }
    } else {
      assert AsSet([]) == {};
    }
  }

  lemma {:induction false} PartsOnce(g: Graph, parts: seq<Entry>, seen: set<Ref>, depth: nat)
    requires depth <= MAX_DEPTH + 1
    ensures OnceFrom(seen, HashParts(g, parts, seen, depth))
    decreases MAX_DEPTH + 1 - depth, |parts| + 1
  {
    if parts == [] {
      assert AsSet([]) == {};
    } else {
      var first := HashValue(g, parts[0].value, seen, depth);
      var rest := HashParts(g, parts[1..], first.seen, depth);
      ValueOnce(g, parts[0].value, seen, depth);
      PartsOnce(g, parts[1..], first.seen, depth);
      OnceThen(seen, first.seen, rest.seen, first.bodies, rest.bodies);
    }
  }

  lemma {:induction false} PagesOnce(g: Graph, pages: seq<Page>, seen: set<Ref>)
    ensures OnceFrom(seen, HashPages(g, pages, seen))
  {
    if pages == [] {
      assert AsSet([]) == {};
    } else {
      var first := HashValue(g, pages[0].resources, seen, 0);
      var rest := HashPages(g, pages[1..], first.seen);
      ValueOnce(g, pages[0].resources, seen, 0);
      PagesOnce(g, pages[1..], first.seen);
      OnceThen(seen, first.seen, rest.seen, first.bodies, rest.bodies);
    }
  }

  /** However cyclic the graph, no indirect object is hashed twice. */
  lemma EachBodyOnce(doc: Document)
    ensures Distinct(Visited(doc))
  {
    PagesOnce(doc.g, doc.pages, {});
  }
}
