/** Request-path normalisation, and the dot-segment algorithm of section 5.2.4 of RFC 3986. */
module PathNormalize {
  import opened Concatenation

  // ----- splitting and joining -----

  /** The next slash at or after `i`, or the end. */
  function NextSlash(s: string, i: nat): (j: nat)
    requires i <= |s|
    ensures i <= j <= |s| && (j < |s| ==> s[j] == '/') && forall k | i <= k < j :: s[k] != '/'
    decreases |s| - i
  {
    if i == |s| || s[i] == '/' then i else NextSlash(s, i + 1)
  }

  /** `split('/')` from position `i` on. */
  function Split(s: string, i: nat): (segs: seq<string>)
    requires i <= |s|
    ensures segs != []
    decreases |s| - i
  {
    var j := NextSlash(s, i);
    if j == |s| then [s[i..]] else [s[i..j]] + Split(s, j + 1)
  }

  /** Every segment behind a slash of its own. */
  function Rooted(segs: seq<string>): string {
    if segs == [] then "" else Rooted(segs[..|segs| - 1]) + ("/" + segs[|segs| - 1])
  }

  predicate Segment(s: string) {
    '/' !in s
  }

  predicate Segments(segs: seq<string>) {
    forall i | 0 <= i < |segs| :: Segment(segs[i])
  }

  // ----- the segment stack -----

  function LowerChar(c: char): char {
    if 'A' <= c <= 'Z' then (c as int + 32) as char else c
  }

  function Lower(s: string): string {
    seq(|s|, i requires 0 <= i < |s| => LowerChar(s[i]))
  }

  predicate IsDot(s: string) {
    Lower(s) in {".", "%2e"}
  }

  predicate IsDotDot(s: string) {
    Lower(s) in {"..", ".%2e", "%2e.", "%2e%2e"}
  }

  function Popped(out: seq<string>): seq<string> {
    if out == [] then [] else out[..|out| - 1]
  }

  /** The stack after one segment. */
  function Pushed(out: seq<string>, s: string, last: bool): seq<string> {
    if IsDot(s) then (if last then out + [""] else out)
    else if IsDotDot(s) then (if last then Popped(out) + [""] else Popped(out))
    else out + [s]
  }

  function Stack(segs: seq<string>, out: seq<string>): seq<string> {
    if segs == [] then out else Stack(segs[1..], Pushed(out, segs[0], |segs| == 1))
  }

  /** What is before the first slash is dropped. */
  function Normalized(path: string): string {
    var out := Stack(Split(path, 0)[1..], []);
    if out == [] then "/" else Rooted(out)
  }

  method Normalize(path: string) returns (r: string)
    ensures r == Normalized(path)
  {
    var segs := SplitPath(path);
    segs := segs[1..];
    var out: seq<string> := [];
    assert segs[0..] == segs;
    for i := 0 to |segs|
      invariant Stack(segs[i..], out) == Stack(segs, [])
    {
      hide Rooted, Split;
      var s, last := segs[i], i + 1 == |segs|;
      assert segs[i..][1..] == segs[i + 1..];
      if IsDot(s) {
        if last {
          out := out + [""];
        }
      } else if IsDotDot(s) {
        if out != [] {
          out := out[..|out| - 1];
        }
        if last {
          out := out + [""];
        }
      } else {
        out := out + [s];
      }
    }
    r := JoinRooted(out);
    if out == [] {
      r := "/";
    }
  }

  method SplitPath(path: string) returns (segs: seq<string>)
    ensures segs == Split(path, 0)
  {
    segs := [];
    var i := 0;
    while NextSlash(path, i) < |path|
      invariant i <= |path| && segs + Split(path, i) == Split(path, 0)
      decreases |path| - i
    {
      var j := NextSlash(path, i);
      Assoc(segs, [path[i..j]], Split(path, j + 1));
      segs := segs + [path[i..j]];
      i := j + 1;
    }
    segs := segs + [path[i..]];
  }

  method JoinRooted(out: seq<string>) returns (r: string)
    ensures r == Rooted(out)
  {
    r := "";
    for i := 0 to |out|
      invariant r == Rooted(out[..i])
    {
      assert out[..i + 1][..i] == out[..i];
      r := r + ("/" + out[i]);
    }
    assert out[..|out|] == out;
  }

  // ----- section 5.2.4 of RFC 3986 -----

  /** The output without its last segment and the slash before it. */
  function WithoutLast(output: string): string {
    if output == "" then ""
    else if output[|output| - 1] == '/' then output[..|output| - 1]
    else WithoutLast(output[..|output| - 1])
  }

  /** The algorithm on its two buffers; the cases are steps 2A to 2E. */
  function RemoveDotSegments(input: string, output: string): string
    decreases |input|
  {
    if input == "" then output
    else if "../" <= input then RemoveDotSegments(input[3..], output)
    else if "./" <= input then RemoveDotSegments(input[2..], output)
    else if "/./" <= input then RemoveDotSegments("/" + input[3..], output)
    else if input == "/." then RemoveDotSegments("/", output)
    else if "/../" <= input then RemoveDotSegments("/" + input[4..], WithoutLast(output))
    else if input == "/.." then RemoveDotSegments("/", WithoutLast(output))
    else if input == "." || input == ".." then RemoveDotSegments("", output)
    else
      var j := NextSlash(input, if input[0] == '/' then 1 else 0);
      RemoveDotSegments(input[j..], output + input[..j])
  }

  // ----- facts about segments -----

  lemma {:induction false} SplitSegments(s: string, i: nat)
    requires i <= |s|
    ensures Segments(Split(s, i))
    decreases |s| - i
  {
    if NextSlash(s, i) < |s| {
      SplitSegments(s, NextSlash(s, i) + 1);
    }
  }

  lemma {:induction false} RootedCons(s: string, rest: seq<string>)
    ensures Rooted([s] + rest) == "/" + s + Rooted(rest)
  {
    if rest == [] {
      assert ([s] + rest)[..0] == [];
    } else {
      var front, last := rest[..|rest| - 1], rest[|rest| - 1];
      var all := [s] + rest;
      assert all[..|all| - 1] == [s] + front;
      RootedCons(s, front);
      Assoc("/" + s, Rooted(front), "/" + last);
    }
  }

  lemma SplitStep(x: string, i: nat, j: nat)
    requires i <= j < |x| && x[j] == '/' && forall k | i <= k < j :: x[k] != '/'
    ensures Split(x, i) == [x[i..j]] + Split(x, j + 1)
  {
    assert NextSlash(x, i) == j;
  }

  lemma CutAtSlash(s: string, i: nat, j: nat)
    requires i <= j < |s| && s[j] == '/'
    ensures s[i..] == s[i..j] + ("/" + s[j + 1..])
  {
  }

  /** Splitting an absolute path and rooting its segments gives the path back. */
  lemma {:induction false} RootedSplit(s: string, i: nat)
    requires i <= |s|
    ensures Rooted(Split(s, i)) == "/" + s[i..]
    decreases |s| - i
  {
    var j := NextSlash(s, i);
    if j == |s| {
      assert [s[i..]][..0] == [];
    } else {
      hide Rooted, Split, NextSlash;
      RootedSplit(s, j + 1);
      SplitStep(s, i, j);
      RootedCons(s[i..j], Split(s, j + 1));
      CutAtSlash(s, i, j);
      Assoc("/", s[i..j], "/" + s[j + 1..]);
    }
  }

  /** A path that starts with a slash is its segments after the first, empty one. */
  lemma AbsoluteRooted(path: string)
    requires path != "" && path[0] == '/'
    ensures Split(path, 0)[1..] == Split(path, 1) && Rooted(Split(path, 1)) == path
  {
    assert NextSlash(path, 0) == 0;
    RootedSplit(path, 1);
    assert path == "/" + path[1..];
  }

  lemma SplitLast(x: string, i: nat, s: string)
    requires i <= |x| && Segment(s) && x[i..] == s
    ensures Split(x, i) == [s]
  {
    assert forall k | i <= k < |x| :: x[k] == x[i..][k - i] == s[k - i];
    assert NextSlash(x, i) == |x|;
  }

  lemma FirstStands(x: string, i: nat, s: string, tail: string)
    requires i <= |x| && x[i..] == s + ("/" + tail)
    ensures var j := i + |s|; j < |x| && x[j] == '/' && x[i..j] == s && x[j + 1..] == tail
    ensures forall k | i <= k < i + |s| :: x[k] == s[k - i]
  {
    var j, y := i + |s|, x[i..];
    assert forall k | i <= k < j :: x[k] == y[k - i] == s[k - i];
    assert x[j] == y[|s|];
    assert x[i..j] == y[..|s|];
    assert x[j + 1..] == y[|s| + 1..];
  }

  lemma {:induction false} SplitOfRooted(x: string, i: nat, s: string, rest: seq<string>)
    requires i <= |x| && Segment(s) && Segments(rest) && x[i..] == s + Rooted(rest)
    ensures Split(x, i) == [s] + rest
    decreases |rest|
  {
    var j := i + |s|;
    hide Split, NextSlash;
    if rest == [] {
      assert x[i..] == s && [s] + rest == [s];
      SplitLast(x, i, s);
    } else {
      hide Rooted;
      assert rest == [rest[0]] + rest[1..];
      RootedCons(rest[0], rest[1..]);
      FirstStands(x, i, s, rest[0] + Rooted(rest[1..]));
      SplitStep(x, i, j);
      SplitOfRooted(x, j + 1, rest[0], rest[1..]);
    }
  }

  lemma SplitRooted(segs: seq<string>)
    requires segs != [] && Segments(segs)
    ensures Rooted(segs) != "" && Split(Rooted(segs), 0) == [""] + segs
  {
    var x := Rooted(segs);
    assert x[0..] == "" + Rooted(segs);
    SplitOfRooted(x, 0, "", segs);
  }

  // ----- what the stack holds -----

  predicate NoDots(segs: seq<string>) {
    forall i | 0 <= i < |segs| :: Segment(segs[i]) && !IsDot(segs[i]) && !IsDotDot(segs[i])
  }

  lemma EmptyIsNoDot()
    ensures Lower("") == "" && !IsDot("") && !IsDotDot("")
  {
  }

  lemma {:induction false} StackNoDots(segs: seq<string>, out: seq<string>)
    requires Segments(segs) && NoDots(out)
    ensures NoDots(Stack(segs, out))
    decreases |segs|
  {
    hide IsDot, IsDotDot;
    if segs != [] {
      EmptyIsNoDot();
      StackNoDots(segs[1..], Pushed(out, segs[0], |segs| == 1));
    }
  }

  lemma {:induction false} StackKeeps(segs: seq<string>, out: seq<string>)
    requires NoDots(segs)
    ensures Stack(segs, out) == out + segs
    decreases |segs|
  {
    hide IsDot, IsDotDot;
    if segs == [] {
      assert out + segs == out;
    } else {
      StackKeeps(segs[1..], out + [segs[0]]);
      assert out + [segs[0]] + segs[1..] == out + segs;
    }
  }

  /** On every path: the result is absolute and none of its segments is a spelling of "." or "..". */
  lemma NormalizedHasNoDots(path: string)
    ensures var r := Normalized(path);
            r != "" && r[0] == '/' && NoDots(Split(r, 0)[1..])
  {
    hide Rooted, IsDot, IsDotDot;
    var segs := Split(path, 0);
    SplitSegments(path, 0);
    var out := Stack(segs[1..], []);
    StackNoDots(segs[1..], []);
    if out == [] {
      EmptyIsNoDot();
      SlashSplit();
    } else {
      SplitRooted(out);
      assert ([""] + out)[1..] == out;
      RootedCons(out[0], out[1..]);
      assert [out[0]] + out[1..] == out;
    }
  }

  lemma SlashSplit()
    ensures Split("/", 0) == ["", ""]
  {
    assert NextSlash("/", 0) == 0 && NextSlash("/", 1) == 1;
    assert "/"[1..] == "" && "/"[0..0] == "";
  }

  /** On every path, normalising twice is normalising once. */
  lemma NormalizedIdempotent(path: string)
    ensures Normalized(Normalized(path)) == Normalized(path)
  {
    hide Rooted, IsDot, IsDotDot, Split;
    var r := Normalized(path);
    NormalizedHasNoDots(path);
    var segs := Split(r, 0)[1..];
    StackKeeps(segs, []);
    assert [] + segs == segs;
    AbsoluteRooted(r);
  }

  // ----- the two algorithms agree -----

  lemma {:induction false} WithoutLastSegment(out: string, s: string)
    requires Segment(s)
    ensures WithoutLast(out + ("/" + s)) == out
    decreases |s|
  {
    var x := out + ("/" + s);
    if s == "" {
      assert x[|x| - 1] == '/' && x[..|x| - 1] == out;
    } else {
      var front := s[..|s| - 1];
      assert x[|x| - 1] == s[|s| - 1] && x[..|x| - 1] == out + ("/" + front);
      WithoutLastSegment(out, front);
    }
  }

  lemma WithoutLastRooted(out: seq<string>)
    requires Segments(out)
    ensures WithoutLast(Rooted(out)) == Rooted(Popped(out))
  {
    if out != [] {
      WithoutLastSegment(Rooted(out[..|out| - 1]), out[|out| - 1]);
    }
  }

  /** Step 2E on an absolute input whose first segment is no dot segment. */
  lemma MoveSegment(s: string, rest: seq<string>, output: string)
    requires Segment(s) && Segments(rest) && s != "." && s != ".."
    ensures RemoveDotSegments("/" + s + Rooted(rest), output) == RemoveDotSegments(Rooted(rest), output + ("/" + s))
  {
    var input := "/" + s + Rooted(rest);
    FirstSegment(s, rest);
    assert input[..1 + |s|] == "/" + s && input[1 + |s|..] == Rooted(rest);
  }

  /** Where the first segment of an absolute input ends, and which step applies. */
  lemma FirstSegment(s: string, rest: seq<string>)
    requires Segment(s) && Segments(rest)
    ensures var input := "/" + s + Rooted(rest);
            && NextSlash(input, 1) == 1 + |s|
            && !("../" <= input) && !("./" <= input) && input != "." && input != ".."
            && ("/./" <= input <==> s == "." && rest != []) && (input == "/." <==> s == "." && rest == [])
            && ("/../" <= input <==> s == ".." && rest != []) && (input == "/.." <==> s == ".." && rest == [])
  {
    hide Rooted, NextSlash;
    var input := "/" + s + Rooted(rest);
    assert input[0] == '/';
    assert forall k | 1 <= k < 1 + |s| :: input[k] == s[k - 1];
    if rest == [] {
      RootedNone();
      assert input == "/" + s;
    } else {
      SlashFirst(rest);
      assert input[1 + |s|] == Rooted(rest)[0] == '/';
    }
    var j := NextSlash(input, 1);
    assert j == 1 + |s|;
    assert s == input[1..j];
    if "/./" <= input {
      assert input[1] == '.' && input[2] == '/';
      assert j == 2;
    }
    if "/../" <= input {
      assert input[1] == '.' && input[2] == '.' && input[3] == '/';
      assert j == 3;
    }
  }

  /** Plain dot segments only: the stack and the rewriting system give the same text. */
  predicate DotsPlain(segs: seq<string>) {
    forall i | 0 <= i < |segs| :: (IsDot(segs[i]) ==> segs[i] == ".") && (IsDotDot(segs[i]) ==> segs[i] == "..")
  }

  lemma PlainSpellings(s: string)
    ensures IsDot(".") && !IsDotDot(".") && IsDotDot("..") && !IsDot("..")
  {
    assert Lower(".") == "." && Lower("..") == "..";
  }

  lemma {:induction false} Agree(segs: seq<string>, out: seq<string>)
    requires segs != [] && Segments(segs) && Segments(out) && DotsPlain(segs)
    ensures RemoveDotSegments(Rooted(segs), Rooted(out)) == Rooted(Stack(segs, out))
    decreases |segs|
  {
    hide IsDot, IsDotDot, Rooted, RemoveDotSegments, WithoutLast;
    var s, rest := segs[0], segs[1..];
    assert segs == [s] + rest;
    RootedCons(s, rest);
    PlainSpellings(s);
    EmptyIsNoDot();
    if s == "." {
      if rest == [] {
        LastDot(Rooted(out));
      } else {
        InnerDot(rest, Rooted(out));
        Agree(rest, out);
      }
      if rest == [] {
        assert Stack(segs, out) == Stack([], out + [""]);
        RootedPush(out, "");
      }
    } else if s == ".." {
      WithoutLastRooted(out);
      if rest == [] {
        LastDotDot(Rooted(out));
        assert Stack(segs, out) == Stack([], Popped(out) + [""]);
        RootedPush(Popped(out), "");
      } else {
        InnerDotDot(rest, Rooted(out));
        Agree(rest, Popped(out));
      }
    } else {
      MoveSegment(s, rest, Rooted(out));
      RootedPush(out, s);
      if rest == [] {
        assert Stack(segs, out) == Stack([], out + [s]);
        NothingLeft(Rooted(out + [s]));
        RootedNone();
      } else {
        Agree(rest, out + [s]);
      }
    }
  }

  lemma RootedPush(out: seq<string>, s: string)
    ensures Rooted(out + [s]) == Rooted(out) + ("/" + s)
  {
    assert (out + [s])[..|out|] == out;
  }

  lemma RootedNone()
    ensures Rooted([]) == ""
  {
  }

  lemma NothingLeft(output: string)
    ensures RemoveDotSegments("", output) == output
  {
  }

  lemma OnlySlash(output: string)
    ensures RemoveDotSegments("/", output) == output + "/"
  {
    assert "/" == "/" + "" + Rooted([]);
    MoveSegment("", [], output);
    NothingLeft(output + ("/" + ""));
  }

  lemma LastDot(output: string)
    ensures RemoveDotSegments("/" + "." + Rooted([]), output) == output + ("/" + "")
  {
    FirstSegment(".", []);
    assert "/" + "." + Rooted([]) == "/.";
    OnlySlash(output);
    assert "/" + "" == "/";
  }

  lemma LastDotDot(output: string)
    ensures RemoveDotSegments("/" + ".." + Rooted([]), output) == WithoutLast(output) + ("/" + "")
  {
    FirstSegment("..", []);
    assert "/" + ".." + Rooted([]) == "/..";
    OnlySlash(WithoutLast(output));
    assert "/" + "" == "/";
  }

  lemma SlashFirst(rest: seq<string>)
    requires rest != []
    ensures Rooted(rest) != "" && Rooted(rest)[0] == '/'
  {
    assert rest == [rest[0]] + rest[1..];
    RootedCons(rest[0], rest[1..]);
  }

  lemma DotStep(input: string, output: string)
    requires "/./" <= input
    ensures RemoveDotSegments(input, output) == RemoveDotSegments("/" + input[3..], output)
  {
    assert input[0] == '/';
  }

  lemma InnerDot(rest: seq<string>, output: string)
    requires rest != [] && Segments(rest)
    ensures RemoveDotSegments("/" + "." + Rooted(rest), output) == RemoveDotSegments(Rooted(rest), output)
  {
    hide RemoveDotSegments, Rooted;
    var r, input := Rooted(rest), "/" + "." + Rooted(rest);
    FirstSegment(".", rest);
    SlashFirst(rest);
    DotStep(input, output);
    assert input[3..] == r[1..] && "/" + r[1..] == r;
  }

  lemma DotDotStep(input: string, output: string)
    requires "/../" <= input
    ensures RemoveDotSegments(input, output) == RemoveDotSegments("/" + input[4..], WithoutLast(output))
  {
    hide WithoutLast;
    assert input[0] == '/' && input[2] == '.';
  }

  lemma InnerDotDot(rest: seq<string>, output: string)
    requires rest != [] && Segments(rest)
    ensures RemoveDotSegments("/" + ".." + Rooted(rest), output) == RemoveDotSegments(Rooted(rest), WithoutLast(output))
  {
    hide RemoveDotSegments, Rooted, WithoutLast;
    var r, input := Rooted(rest), "/" + ".." + Rooted(rest);
    FirstSegment("..", rest);
    SlashFirst(rest);
    DotDotStep(input, output);
    assert input[4..] == r[1..] && "/" + r[1..] == r;
  }

  /** A segment with every spelling of a dot segment written plainly. */
  function Plain(s: string): string {
    if IsDot(s) then "." else if IsDotDot(s) then ".." else s
  }

  function PlainAll(segs: seq<string>): (r: seq<string>)
    ensures |r| == |segs|
  {
    seq(|segs|, i requires 0 <= i < |segs| => Plain(segs[i]))
  }

  lemma {:induction false} StackPlain(segs: seq<string>, out: seq<string>)
    ensures Stack(segs, out) == Stack(PlainAll(segs), out)
    decreases |segs|
  {
    hide IsDot, IsDotDot;
    if segs != [] {
      PlainSpellings(segs[0]);
      assert PlainAll(segs)[1..] == PlainAll(segs[1..]);
      StackPlain(segs[1..], Pushed(out, segs[0], |segs| == 1));
    }
  }

  lemma PlainAllFacts(segs: seq<string>)
    requires Segments(segs)
    ensures Segments(PlainAll(segs)) && DotsPlain(PlainAll(segs))
  {
    hide IsDot, IsDotDot;
    PlainSpellings("");
  }

  lemma {:induction false} StackNonempty(segs: seq<string>, out: seq<string>)
    requires segs != []
    ensures Stack(segs, out) != []
    decreases |segs|
  {
    hide IsDot, IsDotDot;
    if |segs| > 1 {
      StackNonempty(segs[1..], Pushed(out, segs[0], false));
    } else {
      assert segs[1..] == [];
    }
  }

  /** On every absolute path the result is that of RFC 3986 on the path with its encoded dot
      segments written plainly. */
  lemma NormalizedIsRfc(path: string)
    requires path != "" && path[0] == '/'
    ensures Normalized(path) == RemoveDotSegments(Rooted(PlainAll(Split(path, 1))), "")
  {
    hide Rooted, RemoveDotSegments, IsDot, IsDotDot, Split;
    var segs := Split(path, 1);
    AbsoluteRooted(path);
    SplitSegments(path, 1);
    StackPlain(segs, []);
    PlainAllFacts(segs);
    Agree(PlainAll(segs), []);
    RootedNone();
    StackNonempty(segs, []);
  }

  /** On every absolute path without percent-encoded dot segments the result is exactly that of
      RFC 3986. */
  lemma NormalizedIsRfcPlain(path: string)
    requires path != "" && path[0] == '/' && DotsPlain(Split(path, 1))
    ensures Normalized(path) == RemoveDotSegments(path, "")
  {
    hide Rooted, RemoveDotSegments, IsDot, IsDotDot, Split;
    NormalizedIsRfc(path);
    AbsoluteRooted(path);
    assert PlainAll(Split(path, 1)) == Split(path, 1);
  }

  /** The spellings of the dot segments: a dot or its percent encoding, in either case of the letter
      (section 2.1 of RFC 3986). */
  lemma DotsSpelled(s: string)
    ensures IsDot(s) <==> s in {".", "%2e", "%2E"}
    ensures IsDotDot(s) <==>
            s in {"..", ".%2e", ".%2E", "%2e.", "%2E.", "%2e%2e", "%2e%2E", "%2E%2e", "%2E%2E"}
  {
    DotLetters(s);
    var t := Lower(s);
    if |s| == 1 {
      assert s == [s[0]] && t == [t[0]];
    } else if |s| == 2 {
      assert s == [s[0], s[1]] && t == [t[0], t[1]];
    } else if |s| == 3 {
      assert s == [s[0], s[1], s[2]] && t == [t[0], t[1], t[2]];
    } else if |s| == 4 {
      assert s == [s[0], s[1], s[2], s[3]] && t == [t[0], t[1], t[2], t[3]];
    } else if |s| == 6 {
      assert s == [s[0], s[1], s[2], s[3], s[4], s[5]] && t == [t[0], t[1], t[2], t[3], t[4], t[5]];
    }
  }

  lemma DotLetters(s: string)
    ensures |Lower(s)| == |s|
    ensures forall i | 0 <= i < |s| ::
              && (Lower(s)[i] == '.' <==> s[i] == '.') && (Lower(s)[i] == '%' <==> s[i] == '%')
              && (Lower(s)[i] == '2' <==> s[i] == '2') && (Lower(s)[i] == 'e' <==> s[i] == 'e' || s[i] == 'E')
  {
  }
}
