/** Writing a tree of document parts into a PDF and reading it back (section 14.12 of
    ISO 32000-2). */
module DocumentParts {
  import opened Optional

  /** One node of the description to be written. A JSON value that is not an object lacks every
      key. `metadata` stands for a JSON object. */
  datatype Json = Json(metadata: Option<string>, parts: Listing, start: Option<real>, end: Option<real>)

  datatype Listing = NoListing | Listing(kids: seq<Json>)

  type Id = nat

  /** A dictionary of the document, with the keys that matter here. */
  datatype Dict = Dict(
    isPart: bool,                   // /Type /DPart
    metadata: Option<string>,       // /DPM
    parent: Option<Id>,             // /Parent
    parts: Option<seq<seq<Id>>>,    // /DParts
    start: Option<Id>,              // /Start
    end: Option<Id>,                // /End
    dpart: Option<Id>,              // /DPart of a page
    root: Option<Id>)               // /DPartRootNode

  const EMPTY := Dict(false, None, None, None, None, None, None, None)

  type Objects = map<Id, Dict>

  function Get(objs: Objects, id: Id): Dict {
    if id in objs then objs[id] else EMPTY
  }

  datatype Error = TooDeep | BadRange(start: int, end: int)

  /** `ids` are the nodes made for the children that were asked for. */
  datatype Outcome = Refused(error: Error) | Built(objs: Objects, next: Id, ids: seq<Id>, count: nat)

  const MAX_DEPTH := 64

  /** Conversion of a floating-point number to an integer drops the fraction. */
  function Trunc(x: real): int {
    if x >= 0.0 then x.Floor else -((-x).Floor)
  }

  function StartOf(j: Json): int {
    if j.start.Some? then Trunc(j.start.value) else 0
  }

  function EndOf(j: Json): int {
    if j.end.Some? then Trunc(j.end.value) else StartOf(j)
  }

  predicate RangeOk(j: Json, n: nat) {
    1 <= StartOf(j) <= EndOf(j) <= n
  }

  /** The pages `first` to `last`, counted from one, point at `node`. */
  function Stamped(objs: Objects, pages: seq<Id>, first: nat, last: nat, node: Id): Objects
    requires 1 <= first <= last + 1 <= |pages| + 1
    decreases last
  {
    if last < first then objs
    else
      var before := Stamped(objs, pages, first, last - 1, node);
      before[pages[last - 1] := Get(before, pages[last - 1]).(dpart := Some(node))]
  }

  function Typed(objs: Objects, j: Json, node: Id): Objects {
    var d := Get(objs, node).(isPart := true);
    objs[node := if j.metadata.Some? then d.(metadata := j.metadata) else d]
  }

  function Ranged(objs: Objects, pages: seq<Id>, first: nat, last: nat, node: Id): Objects
    requires 1 <= first <= last <= |pages|
  {
    var d := Get(objs, node).(start := Some(pages[first - 1]));
    objs[node := if last != first then d.(end := Some(pages[last - 1])) else d]
  }

  function Adopted(objs: Objects, node: Id, ids: seq<Id>): Objects {
    objs[node := Get(objs, node).(parts := Some([ids]))]
  }

  /** `buildDpart` */
  function Build(objs: Objects, next: Id, j: Json, node: Id, pages: seq<Id>, depth: nat): Outcome
    decreases j
  {
    if depth > MAX_DEPTH then Refused(TooDeep)
    else match j.parts
      case Listing(kids) =>
        (match BuildKids(Typed(objs, j, node), next, kids, |kids|, node, pages, depth + 1)
         case Refused(e) => Refused(e)
         case Built(after, free, ids, count) => Built(Adopted(after, node, ids), free, [], 1 + count))
      case NoListing =>
        if RangeOk(j, |pages|) then
          var ranged := Ranged(Typed(objs, j, node), pages, StartOf(j), EndOf(j), node);
          Built(Stamped(ranged, pages, StartOf(j), EndOf(j), node), next, [], 1)
        else Refused(BadRange(StartOf(j), EndOf(j)))
  }

  /** The first `i` children of `node`. */
  function BuildKids(objs: Objects, next: Id, kids: seq<Json>, i: nat, node: Id, pages: seq<Id>, depth: nat): Outcome
    requires i <= |kids|
    decreases kids, i
  {
    if i == 0 then Built(objs, next, [], 0)
    else match BuildKids(objs, next, kids, i - 1, node, pages, depth)
      case Refused(e) => Refused(e)
      case Built(before, kid, ids, count) =>
        (match Build(before[kid := EMPTY.(parent := Some(node))], kid + 1, kids[i - 1], kid, pages, depth)
         case Refused(e) => Refused(e)
         case Built(after, free, _, n) => Built(after, free, ids + [kid], count + n))
  }

  lemma {:induction false} RefusalStays(objs: Objects, next: Id, kids: seq<Json>, i: nat, m: nat, node: Id,
      pages: seq<Id>, depth: nat)
    requires i <= m <= |kids| && BuildKids(objs, next, kids, i, node, pages, depth).Refused?
    ensures BuildKids(objs, next, kids, m, node, pages, depth) == BuildKids(objs, next, kids, i, node, pages, depth)
  {
    if i < m {
      RefusalStays(objs, next, kids, i, m - 1, node, pages, depth);
    }
  }

  datatype Result = Nodes(count: nat) | Failure(error: Error)

  ghost predicate Reports(r: Result, out: Outcome) {
    match out
    case Refused(e) => r == Failure(e)
    case Built(_, _, _, count) => r == Nodes(count)
  }

  function WithoutDpart(objs: Objects, pages: seq<Id>, i: nat): Objects
    requires i <= |pages|
  {
    if i == 0 then objs
    else
      var before := WithoutDpart(objs, pages, i - 1);
      before[pages[i - 1] := Get(before, pages[i - 1]).(dpart := None)]
  }

  /** `toolSetDparts`: the root dictionary is `next`, its node `next + 1`. */
  function Written(objs: Objects, next: Id, j: Json, pages: seq<Id>): Outcome {
    var cleared := WithoutDpart(objs, pages, |pages|);
    var roots := cleared[next := EMPTY][next + 1 := EMPTY.(parent := Some(next))];
    match Build(roots, next + 2, j, next + 1, pages, 0)
    case Refused(e) => Refused(e)
    case Built(after, free, ids, count) =>
      Built(after[next := Get(after, next).(root := Some(next + 1))], free, ids, count)
  }

  /** The objects of a document; `next` is the number of the next indirect object. After a
      failure the document is thrown away. */
  class Document {
    var objs: Objects
    var next: Id
    const pages: seq<Id>

    constructor (objs: Objects, next: Id, pages: seq<Id>)
      ensures this.objs == objs && this.next == next && this.pages == pages
    {
      this.objs, this.next, this.pages := objs, next, pages;
    }

    method MakeIndirect(d: Dict) returns (id: Id)
      modifies this
      ensures id == old(next) && next == id + 1 && objs == old(objs)[id := d]
    {
      id := next;
      objs := objs[id := d];
      next := next + 1;
    }

    method ReplaceKey(id: Id, d: Dict)
      modifies this`objs
      ensures objs == old(objs)[id := d]
    {
      objs := objs[id := d];
    }

    method StampPages(first: nat, last: nat, node: Id)
      requires 1 <= first <= last <= |pages|
      modifies this`objs
      ensures objs == Stamped(old(objs), pages, first, last, node)
    {
      for p := first to last + 1
        invariant objs == Stamped(old(objs), pages, first, p - 1, node)
      {
        ReplaceKey(pages[p - 1], Get(objs, pages[p - 1]).(dpart := Some(node)));
      }
    }

    method BuildDpart(j: Json, node: Id, depth: nat) returns (r: Result)
      modifies this
      ensures var out := Build(old(objs), old(next), j, node, pages, depth);
              Reports(r, out) && (out.Built? ==> objs == out.objs && next == out.next)
      decreases j
    {
      if depth > MAX_DEPTH {
        return Failure(TooDeep);
      }
      ReplaceKey(node, Get(objs, node).(isPart := true));
      if j.metadata.Some? {
        ReplaceKey(node, Get(objs, node).(metadata := j.metadata));
      }
      assert objs == Typed(old(objs), j, node);
      if j.parts.Listing? {
        r := BuildChildren(j.parts.kids, node, depth + 1);
        return;
      }
      var s, e := StartOf(j), EndOf(j);
      if s < 1 || e < s || e > |pages| {
        return Failure(BadRange(s, e));
      }
      ReplaceKey(node, Get(objs, node).(start := Some(pages[s - 1])));
      if e != s {
        ReplaceKey(node, Get(objs, node).(end := Some(pages[e - 1])));
      }
      assert objs == Ranged(Typed(old(objs), j, node), pages, s, e, node);
      StampPages(s, e, node);
      return Nodes(1);
    }

    /** The branch of `buildDpart` for a node with parts. */
    method BuildChildren(kids: seq<Json>, node: Id, depth: nat) returns (r: Result)
      modifies this
      ensures match BuildKids(old(objs), old(next), kids, |kids|, node, pages, depth)
              case Refused(e) => r == Failure(e)
              case Built(after, free, ids, count) =>
                r == Nodes(1 + count) && objs == Adopted(after, node, ids) && next == free
      decreases kids
    {
      hide Build, Typed, Ranged, Stamped;
      ghost var start, first := objs, next;
      var n, ids := 1, [];
      for i := 0 to |kids|
        invariant n >= 1
        invariant BuildKids(start, first, kids, i, node, pages, depth) == Built(objs, next, ids, n - 1)
      {
        var kid := MakeIndirect(EMPTY.(parent := Some(node)));
        var built := BuildDpart(kids[i], kid, depth);
        if built.Failure? {
          RefusalStays(start, first, kids, i + 1, |kids|, node, pages, depth);
          return built;
        }
        n, ids := n + built.count, ids + [kid];
      }
      ReplaceKey(node, Get(objs, node).(parts := Some([ids])));
      return Nodes(n);
    }

    method SetDparts(j: Json) returns (r: Result)
      modifies this
      ensures var out := Written(old(objs), old(next), j, pages);
              Reports(r, out) && (out.Built? ==> objs == out.objs && next == out.next)
    {
      for i := 0 to |pages|
        invariant objs == WithoutDpart(old(objs), pages, i) && next == old(next)
      {
        ReplaceKey(pages[i], Get(objs, pages[i]).(dpart := None));
      }
      var dr := MakeIndirect(EMPTY);
      var rn := MakeIndirect(EMPTY);
      ghost var made := objs;
      ReplaceKey(rn, Get(objs, rn).(parent := Some(dr)));
      assert objs == WithoutDpart(old(objs), pages, |pages|)[dr := EMPTY][rn := EMPTY.(parent := Some(dr))];
      r := BuildDpart(j, rn, 0);
      if r.Failure? {
        return;
      }
      ReplaceKey(dr, Get(objs, dr).(root := Some(rn)));
    }
  }

  // ----- reading -----

  /** What `dpartJson` prints for a node. A page that is not found prints as null. */
  datatype Tree =
    | Inner(metadata: Option<string>, parts: seq<Tree>)
    | Range(metadata: Option<string>, start: Option<nat>, end: Option<nat>)

  function PageNumber(pages: seq<Id>, page: Option<Id>): Option<nat> {
    if page.None? then None else Search(pages, 0, page.value)
  }

  /** The index of `id` among `pages[i..]`, counted from one. */
  function Search(pages: seq<Id>, i: nat, id: Id): Option<nat>
    requires i <= |pages|
    decreases |pages| - i
  {
    if i == |pages| then None
    else if pages[i] == id then Some(i + 1)
    else Search(pages, i + 1, id)
  }

  function Flat(parts: seq<seq<Id>>, i: nat): seq<Id>
    requires i <= |parts|
  {
    if i == 0 then [] else Flat(parts, i - 1) + parts[i - 1]
  }

  function Read(objs: Objects, node: Id, pages: seq<Id>, depth: nat): Tree
    requires depth <= MAX_DEPTH
    decreases MAX_DEPTH - depth, 1
  {
    var d := Get(objs, node);
    if d.parts.Some? && depth < MAX_DEPTH then
      var ids := Flat(d.parts.value, |d.parts.value|);
      Inner(d.metadata, ReadEach(objs, ids, pages, depth + 1))
    else
      var s := PageNumber(pages, d.start);
      Range(d.metadata, s, if d.end.Some? then PageNumber(pages, d.end) else s)
  }

  function ReadEach(objs: Objects, ids: seq<Id>, pages: seq<Id>, depth: nat): (r: seq<Tree>)
    requires depth <= MAX_DEPTH
    ensures |r| == |ids|
    decreases MAX_DEPTH - depth, 2
  {
    seq(|ids|, i requires 0 <= i < |ids| => Read(objs, ids[i], pages, depth))
  }

  /** `dpartJson`: the nested loops over the arrays in /DParts. */
  method ReadNode(objs: Objects, node: Id, pages: seq<Id>, depth: nat) returns (t: Tree)
    requires depth <= MAX_DEPTH
    ensures t == Read(objs, node, pages, depth)
    decreases MAX_DEPTH - depth
  {
    var d := Get(objs, node);
    if d.parts.Some? && depth < MAX_DEPTH {
      var parts, out := d.parts.value, [];
      for i := 0 to |parts|
        invariant out == ReadEach(objs, Flat(parts, i), pages, depth + 1)
      {
        for k := 0 to |parts[i]|
          invariant out == ReadEach(objs, Flat(parts, i) + parts[i][..k], pages, depth + 1)
        {
          var kid := ReadNode(objs, parts[i][k], pages, depth + 1);
          assert Flat(parts, i) + parts[i][..k + 1] == (Flat(parts, i) + parts[i][..k]) + [parts[i][k]];
          out := out + [kid];
        }
        assert parts[i][..|parts[i]|] == parts[i];
      }
      return Inner(d.metadata, out);
    }
    var s := PageNumber(pages, d.start);
    var e := s;
    if d.end.Some? {
      e := PageNumber(pages, d.end);
    }
    return Range(d.metadata, s, e);
  }
}
