/** Command lines for Windows: the quoter, the join, and how the Microsoft C runtime splits a
    command line back into arguments. */
module WinQuote {
  import opened Concatenation

  const SLASH: char := '\\'
  const QUOTE: char := '"'

  function Rep(n: nat): (s: string)
    ensures |s| == n && forall i | 0 <= i < n :: s[i] == SLASH
  {
    if n == 0 then "" else Rep(n - 1) + [SLASH]
  }

  /** The number of backslashes in a row from index `i`. */
  function Slashes(s: string, i: nat): (n: nat)
    requires i <= |s|
    ensures i + n <= |s| && (i + n < |s| ==> s[i + n] != SLASH)
    ensures forall j | i <= j < i + n :: s[j] == SLASH
    decreases |s| - i
  {
    if i < |s| && s[i] == SLASH then 1 + Slashes(s, i + 1) else 0
  }

  predicate Special(c: char) {
    c in {' ', '\t', '\n', '\U{0B}', '"'}
  }

  predicate NeedsQuotes(a: string) {
    a == "" || exists i | 0 <= i < |a| :: Special(a[i])
  }

  /** How many backslashes are written for `n` of them before `c`. */
  function Doubled(n: nat, c: char): nat {
    if c == QUOTE then n * 2 + 1 else n
  }

  /** The quoted form of `a[i..]`, closing quote included, by groups of backslashes. */
  function Body(a: string, i: nat): string
    requires i <= |a|
    decreases |a| - i
  {
    var n := Slashes(a, i);
    if i + n == |a| then Rep(n * 2) + [QUOTE]
    else Rep(Doubled(n, a[i + n])) + ([a[i + n]] + Body(a, i + n + 1))
  }

  function Quoted(a: string): string {
    if NeedsQuotes(a) then [QUOTE] + Body(a, 0) else a
  }

  lemma BodyEnd(a: string, i: nat)
    requires i <= |a| && i + Slashes(a, i) == |a|
    ensures Body(a, i) == Rep(Slashes(a, i) * 2) + [QUOTE]
  {
  }

  lemma BodyGroup(a: string, i: nat)
    requires i <= |a| && i + Slashes(a, i) < |a|
    ensures var n := Slashes(a, i);
            Body(a, i) == Rep(Doubled(n, a[i + n])) + ([a[i + n]] + Body(a, i + n + 1))
  {
  }

  lemma GroupQuoted(a: string, i: nat, o: string)
    requires i <= |a|
    ensures var n := Slashes(a, i);
            o + Body(a, i) ==
            if i + n == |a| then (o + Rep(n * 2)) + [QUOTE]
            else ((o + Rep(Doubled(n, a[i + n]))) + [a[i + n]]) + Body(a, i + n + 1)
  {
    hide Rep, Body, Doubled, Slashes;
    var n := Slashes(a, i);
    if i + n == |a| {
      BodyEnd(a, i);
      Assoc(o, Rep(n * 2), [QUOTE]);
    } else {
      BodyGroup(a, i);
      Assoc4(o, Rep(Doubled(n, a[i + n])), [a[i + n]], Body(a, i + n + 1));
    }
  }

  /** After `i` characters, the last `bs` of them backslashes still to be written, the output so
      far is what the body of that group of backslashes completes. */
  ghost predicate Pending(a: string, i: nat, bs: nat, o: string) {
    && bs <= i <= |a|
    && Slashes(a, i - bs) == bs + Slashes(a, i)
    && o + Body(a, i - bs) == [QUOTE] + Body(a, 0)
  }

  lemma GroupWritten(a: string, i: nat, bs: nat, o: string)
    requires i < |a| && a[i] != SLASH && Pending(a, i, bs, o)
    ensures Pending(a, i + 1, 0, (o + Rep(Doubled(bs, a[i]))) + [a[i]])
  {
    hide Body, Rep;
    GroupQuoted(a, i - bs, o);
  }

  /** `winQuote` */
  method Quote(a: string) returns (o: string)
    ensures o == Quoted(a)
  {
    hide Body, Rep;
    if !NeedsQuotes(a) {
      return a;
    }
    o := [QUOTE];
    var bs := 0;
    for i := 0 to |a|
      invariant Pending(a, i, bs, o)
    {
      var c := a[i];
      if c == SLASH {
        bs := bs + 1;
      } else {
        GroupWritten(a, i, bs, o);
        o := o + Rep(if c == QUOTE then bs * 2 + 1 else bs);
        bs := 0;
        o := o + [c];
      }
    }
    GroupQuoted(a, |a| - bs, o);
    o := o + Rep(bs * 2);
    o := o + [QUOTE];
  }

  /** The join in `runProcess`. */
  function Joined(args: seq<string>): string {
    if args == [] then ""
    else
      var front := Joined(args[..|args| - 1]);
      front + ((if front == "" then "" else " ") + Quoted(args[|args| - 1]))
  }

  method Join(argv: seq<string>) returns (cmd: string)
    ensures cmd == Joined(argv)
  {
    cmd := "";
    for i := 0 to |argv|
      invariant cmd == Joined(argv[..i])
    {
      var q := Quote(argv[i]);
      assert argv[..i + 1][..i] == argv[..i];
      cmd := cmd + ((if cmd == "" then "" else " ") + q);
    }
    assert argv[..|argv|] == argv;
  }

  // ----- the Microsoft C runtime -----

  predicate Blank(c: char) {
    c == ' ' || c == '\t'
  }

  /** One argument from index `i`: 2n backslashes before a quote give n backslashes and the quote
      opens or closes a quoted part; 2n+1 give n backslashes and a literal quote; other
      backslashes are literal; two quotes inside a quoted part are a literal quote. */
  function ReadArg(s: string, i: nat, quoted: bool, out: string): (r: (string, nat))
    requires i <= |s|
    ensures i <= r.1 <= |s|
    decreases |s| - i
  {
    var n := Slashes(s, i);
    var j := i + n;
    if j < |s| && s[j] == QUOTE then
      if n % 2 == 1 then ReadArg(s, j + 1, quoted, out + (Rep(n / 2) + [QUOTE]))
      else if quoted && j + 1 < |s| && s[j + 1] == QUOTE then ReadArg(s, j + 2, quoted, out + (Rep(n / 2) + [QUOTE]))
      else ReadArg(s, j + 1, !quoted, out + Rep(n / 2))
    else if j == |s| || (!quoted && Blank(s[j])) then (out + Rep(n), j)
    else ReadArg(s, j + 1, quoted, out + (Rep(n) + [s[j]]))
  }

  function SkipBlanks(s: string, i: nat): (j: nat)
    requires i <= |s|
    ensures i <= j <= |s| && (j < |s| ==> !Blank(s[j]))
    decreases |s| - i
  {
    if i < |s| && Blank(s[i]) then SkipBlanks(s, i + 1) else i
  }

  /** An argument that starts on a character that is not blank takes at least that character. */
  lemma {:induction false} ReadArgAdvances(s: string, i: nat)
    requires i < |s| && !Blank(s[i])
    ensures ReadArg(s, i, false, "").1 > i
  {
  }

  /** The arguments from index `i` on. */
  function Split(s: string, i: nat): seq<string>
    requires i <= |s|
    decreases |s| - i
  {
    var j := SkipBlanks(s, i);
    if j == |s| then []
    else
      ReadArgAdvances(s, j);
      var (arg, k) := ReadArg(s, j, false, "");
      [arg] + Split(s, k)
  }

  // ----- round trip -----

  /** `t` stands at index `i` of `s`. */
  ghost predicate At(s: string, i: nat, t: string) {
    i + |t| <= |s| && s[i..i + |t|] == t
  }

  lemma AtAppend(s: string, i: nat, a: string, b: string)
    ensures At(s, i, a + b) <==> At(s, i, a) && At(s, i + |a|, b)
  {
    if At(s, i, a + b) {
      assert s[i..i + |a|] == s[i..i + |a + b|][..|a|];
      assert s[i + |a|..i + |a| + |b|] == s[i..i + |a + b|][|a|..];
    }
    if At(s, i, a) && At(s, i + |a|, b) {
      assert s[i..i + |a + b|] == s[i..i + |a|] + s[i + |a|..i + |a| + |b|];
    }
  }

  lemma AtChar(s: string, i: nat, c: char)
    requires At(s, i, [c])
    ensures i < |s| && s[i] == c
  {
    assert s[i..i + 1][0] == c;
  }

  /** The end of the text or a blank. */
  ghost predicate Ends(s: string, i: nat) {
    i == |s| || (i < |s| && Blank(s[i]))
  }

  lemma {:induction false} SlashesCount(s: string, i: nat, n: nat)
    requires At(s, i, Rep(n)) && (i + n < |s| ==> s[i + n] != SLASH)
    ensures Slashes(s, i) == n
  {
    forall k | i <= k < i + n
      ensures s[k] == SLASH
    {
      assert s[k] == s[i..i + n][k - i];
    }
  }

  /** Reading the closing group: twice n backslashes and the closing quote. */
  lemma ClosingRead(s: string, p: nat, n: nat, out: string)
    requires At(s, p, Rep(2 * n) + [QUOTE]) && Ends(s, p + 2 * n + 1)
    ensures ReadArg(s, p, true, out) == (out + Rep(n), p + 2 * n + 1)
  {
    hide Rep;
    AtAppend(s, p, Rep(2 * n), [QUOTE]);
    assert s[p + 2 * n] == QUOTE;
    SlashesCount(s, p, 2 * n);
    EndRead(s, p + 2 * n + 1, out + Rep(n));
  }

  lemma EndRead(s: string, p: nat, out: string)
    requires p <= |s| && Ends(s, p)
    ensures ReadArg(s, p, false, out) == (out, p)
  {
    assert Slashes(s, p) == 0 && out + Rep(0) == out;
  }

  /** Reading one group of a quoted argument. */
  lemma GroupRead(s: string, p: nat, n: nat, c: char, out: string)
    requires c != SLASH
    requires At(s, p, Rep(Doubled(n, c)) + [c])
    ensures ReadArg(s, p, true, out) == ReadArg(s, p + Doubled(n, c) + 1, true, out + (Rep(n) + [c]))
  {
    hide ReadArg;
    var m := Doubled(n, c);
    AtAppend(s, p, Rep(m), [c]);
    AtChar(s, p + m, c);
    hide Rep, At;
    SlashesCount(s, p, m);
    if c == QUOTE {
      QuoteStep(s, p, n, out);
    } else {
      CharStep(s, p, out);
    }
  }

  lemma QuoteStep(s: string, i: nat, n: nat, out: string)
    requires i + 2 * n + 1 < |s| && Slashes(s, i) == 2 * n + 1 && s[i + 2 * n + 1] == QUOTE
    ensures ReadArg(s, i, true, out) == ReadArg(s, i + 2 * n + 2, true, out + (Rep(n) + [QUOTE]))
  {
    assert (2 * n + 1) / 2 == n;
  }

  lemma CharStep(s: string, i: nat, out: string)
    requires i <= |s| && i + Slashes(s, i) < |s| && s[i + Slashes(s, i)] != QUOTE
    ensures var n := Slashes(s, i);
            ReadArg(s, i, true, out) == ReadArg(s, i + n + 1, true, out + (Rep(n) + [s[i + n]]))
  {
  }

  /** What stands between two groups of the argument itself. */
  lemma GroupText(a: string, i: nat)
    requires i <= |a|
    ensures var n := Slashes(a, i);
            if i + n == |a| then Rep(n) == a[i..] else (Rep(n) + [a[i + n]]) + a[i + n + 1..] == a[i..]
  {
  }

  /** The first group of a body that stands in `s`, and the rest of the body behind it. */
  lemma BodyStands(s: string, p: nat, a: string, i: nat)
    requires i <= |a| && At(s, p, Body(a, i)) && i + Slashes(a, i) < |a|
    ensures var c := a[i + Slashes(a, i)]; var m, next := Doubled(Slashes(a, i), c), i + Slashes(a, i) + 1;
            && At(s, p, Rep(m) + [c]) && At(s, p + m + 1, Body(a, next))
            && p + |Body(a, i)| == p + m + 1 + |Body(a, next)|
  {
    hide Rep, At, Body, Doubled, Slashes;
    BodyGroup(a, i);
    var c := a[i + Slashes(a, i)];
    var m, next := Doubled(Slashes(a, i), c), i + Slashes(a, i) + 1;
    Assoc(Rep(m), [c], Body(a, next));
    AtAppend(s, p, Rep(m) + [c], Body(a, next));
  }

  /** The body of a quoted argument reads as the rest of the argument. */
  lemma {:induction false} BodyRead(s: string, p: nat, a: string, i: nat, out: string)
    requires i <= |a| && At(s, p, Body(a, i)) && Ends(s, p + |Body(a, i)|)
    ensures ReadArg(s, p, true, out) == (out + a[i..], p + |Body(a, i)|)
    decreases |a| - i
  {
    hide ReadArg, Rep, At, Ends, Body, Slashes, Doubled;
    var n := Slashes(a, i);
    GroupText(a, i);
    if i + n == |a| {
      BodyEnd(a, i);
      ClosingRead(s, p, n, out);
    } else {
      var c := a[i + n];
      BodyStands(s, p, a, i);
      GroupRead(s, p, n, c, out);
      BodyRead(s, p + Doubled(n, c) + 1, a, i + n + 1, out + (Rep(n) + [c]));
      Assoc(out, Rep(n) + [c], a[i + n + 1..]);
    }
  }

  /** Reading one group outside quotes. */
  lemma PlainGroupRead(s: string, p: nat, n: nat, c: char, out: string)
    requires c != SLASH && !Special(c) && At(s, p, Rep(n) + [c])
    ensures ReadArg(s, p, false, out) == ReadArg(s, p + n + 1, false, out + (Rep(n) + [c]))
  {
    hide ReadArg;
    AtAppend(s, p, Rep(n), [c]);
    AtChar(s, p + n, c);
    hide At, Rep;
    SlashesCount(s, p, n);
    PlainStep(s, p, out);
  }

  lemma PlainStep(s: string, i: nat, out: string)
    requires i <= |s| && i + Slashes(s, i) < |s| && !Special(s[i + Slashes(s, i)])
    ensures var n := Slashes(s, i);
            ReadArg(s, i, false, out) == ReadArg(s, i + n + 1, false, out + (Rep(n) + [s[i + n]]))
  {
  }

  lemma PlainEndRead(s: string, p: nat, n: nat, out: string)
    requires At(s, p, Rep(n)) && Ends(s, p + n)
    ensures ReadArg(s, p, false, out) == (out + Rep(n), p + n)
  {
    hide Rep;
    SlashesCount(s, p, n);
  }

  /** An argument without special characters reads as itself. */
  lemma {:induction false} PlainRead(s: string, p: nat, a: string, i: nat, out: string)
    requires i <= |a| && At(s, p, a[i..]) && Ends(s, p + |a| - i)
    requires forall k | 0 <= k < |a| :: !Special(a[k])
    ensures ReadArg(s, p, false, out) == (out + a[i..], p + |a| - i)
    decreases |a| - i
  {
    hide Rep, ReadArg, At, Special, Ends;
    var n := Slashes(a, i);
    GroupText(a, i);
    if i + n == |a| {
      PlainEndRead(s, p, n, out);
    } else {
      var c := a[i + n];
      AtAppend(s, p, Rep(n) + [c], a[i + n + 1..]);
      PlainGroupRead(s, p, n, c, out);
      PlainRead(s, p + n + 1, a, i + n + 1, out + (Rep(n) + [c]));
      Assoc(out, Rep(n) + [c], a[i + n + 1..]);
    }
  }

  lemma OpeningRead(s: string, p: nat)
    requires p < |s| && s[p] == QUOTE
    requires p + 1 <= |s|
    ensures ReadArg(s, p, false, "") == ReadArg(s, p + 1, true, "")
  {
    assert Slashes(s, p) == 0 && "" + Rep(0) == "";
  }

  lemma QuotesRead(s: string, p: nat, a: string)
    requires At(s, p, [QUOTE] + Body(a, 0)) && Ends(s, p + 1 + |Body(a, 0)|)
    ensures p < |s| && !Blank(s[p])
    ensures ReadArg(s, p, false, "") == (a, p + 1 + |Body(a, 0)|)
  {
    hide Body, ReadArg;
    AtAppend(s, p, [QUOTE], Body(a, 0));
    AtChar(s, p, QUOTE);
    OpeningRead(s, p);
    BodyRead(s, p + 1, a, 0, "");
    assert a[0..] == a && "" + a == a;
  }

  lemma BareStart(s: string, p: nat, a: string)
    requires At(s, p, a) && !NeedsQuotes(a)
    ensures p < |s| && !Blank(s[p])
  {
    assert s[p..p + |a|][0] == a[0];
  }

  lemma BareRead(s: string, p: nat, a: string)
    requires At(s, p, a) && Ends(s, p + |a|) && !NeedsQuotes(a)
    ensures p < |s| && !Blank(s[p])
    ensures ReadArg(s, p, false, "") == (a, p + |a|)
  {
    hide ReadArg;
    BareStart(s, p, a);
    assert a[0..] == a && "" + a == a;
    hide At, Ends;
    PlainRead(s, p, a, 0, "");
  }

  /** A quoted argument is read back, whatever it holds. */
  lemma QuotedRead(s: string, p: nat, a: string)
    requires At(s, p, Quoted(a)) && Ends(s, p + |Quoted(a)|)
    ensures p < |s| && !Blank(s[p])
    ensures ReadArg(s, p, false, "") == (a, p + |Quoted(a)|)
  {
    hide Body, ReadArg, At, Ends, NeedsQuotes, Blank;
    if NeedsQuotes(a) {
      QuotesRead(s, p, a);
    } else {
      BareRead(s, p, a);
    }
  }

  /** The arguments behind the program name, each behind a space. */
  function Tail(args: seq<string>): string {
    if args == [] then "" else " " + Quoted(args[0]) + Tail(args[1..])
  }

  lemma SplitEnd(s: string)
    ensures Split(s, |s|) == []
  {
  }

  lemma SplitStep(s: string, p: nat, arg: string, k: nat)
    requires p + 1 < |s| && k <= |s| && s[p] == ' ' && !Blank(s[p + 1]) && ReadArg(s, p + 1, false, "") == (arg, k)
    ensures Split(s, p) == [arg] + Split(s, k)
  {
    hide ReadArg;
    assert SkipBlanks(s, p + 1) == p + 1;
  }

  /** Splitting what follows the program name gives back the arguments. */
  lemma {:induction false} TailSplits(s: string, p: nat, args: seq<string>)
    requires At(s, p, Tail(args)) && p + |Tail(args)| == |s|
    ensures Split(s, p) == args
    decreases |args|
  {
    hide At, ReadArg, Quoted, Ends, Split, SkipBlanks, Blank;
    if args == [] {
      SplitEnd(s);
    } else {
      hide Tail;
      TailAt(s, p, args);
      QuotedRead(s, p + 1, args[0]);
      SplitStep(s, p, args[0], p + 1 + |Quoted(args[0])|);
      TailSplits(s, p + 1 + |Quoted(args[0])|, args[1..]);
    }
  }

  lemma TailAt(s: string, p: nat, args: seq<string>)
    requires args != [] && At(s, p, Tail(args)) && p + |Tail(args)| == |s|
    ensures var k := p + 1 + |Quoted(args[0])|;
            && s[p] == ' ' && At(s, p + 1, Quoted(args[0])) && Ends(s, k)
            && At(s, k, Tail(args[1..])) && k + |Tail(args[1..])| == |s|
  {
    hide Quoted;
    var q, rest := Quoted(args[0]), Tail(args[1..]);
    AtAppend(s, p, " " + q, rest);
    AtAppend(s, p, " ", q);
    AtChar(s, p, ' ');
    TailEnds(s, p + 1 + |q|, args[1..]);
  }

  lemma TailEnds(s: string, p: nat, args: seq<string>)
    requires At(s, p, Tail(args)) && p + |Tail(args)| == |s|
    ensures Ends(s, p)
  {
    if args != [] {
      assert s[p..p + |Tail(args)|][0] == ' ';
    }
  }

  lemma {:induction false} TailAppend(args: seq<string>, a: string)
    ensures Tail(args + [a]) == Tail(args) + (" " + Quoted(a))
  {
    if args != [] {
      TailAppend(args[1..], a);
      assert (args + [a])[1..] == args[1..] + [a];
      Assoc(" " + Quoted(args[0]), Tail(args[1..]), " " + Quoted(a));
    } else {
      assert [a][1..] == [] && " " + Quoted(a) + "" == " " + Quoted(a);
    }
  }

  /** The command line is the quoted program name followed by the arguments. */
  lemma {:induction false} JoinedIsTail(program: string, args: seq<string>)
    ensures Joined([program] + args) == Quoted(program) + Tail(args)
    ensures Quoted(program) != ""
    decreases |args|
  {
    hide Quoted;
    QuotedNonempty(program);
    if args == [] {
      assert [program] + args == [program] && [program][..0] == [];
    } else {
      var front, last := args[..|args| - 1], args[|args| - 1];
      JoinedIsTail(program, front);
      assert ([program] + args)[..|args|] == [program] + front;
      assert front + [last] == args;
      TailAppend(front, last);
      Assoc(Quoted(program), Tail(front), " " + Quoted(last));
    }
  }

  lemma QuotedNonempty(a: string)
    ensures Quoted(a) != ""
  {
  }

  /** Every list of arguments behind the program name survives quoting, joining and splitting. */
  lemma CommandLineRoundTrip(program: string, args: seq<string>)
    ensures var cmd := Joined([program] + args);
            && |Quoted(program)| <= |cmd| && cmd[..|Quoted(program)|] == Quoted(program)
            && Split(cmd, |Quoted(program)|) == args
  {
    JoinedIsTail(program, args);
    TailSplits(Joined([program] + args), |Quoted(program)|, args);
  }

  // ----- what is left alone -----

  lemma {:induction false} BodyLonger(a: string, i: nat)
    requires i <= |a|
    ensures |Body(a, i)| > |a| - i
    decreases |a| - i
  {
    hide Body;
    var n := Slashes(a, i);
    if i + n == |a| {
      BodyEnd(a, i);
    } else {
      BodyGroup(a, i);
      BodyLonger(a, i + n + 1);
    }
  }

  /** An argument is left as it is if and only if it is not empty and has no blank, tab, line feed,
      vertical tab or quote. */
  lemma UnquotedIff(a: string)
    ensures Quoted(a) == a <==> a != "" && forall i | 0 <= i < |a| :: a[i] as int !in {32, 9, 10, 11, 34}
  {
    BodyLonger(a, 0);
    assert forall i | 0 <= i < |a| :: Special(a[i]) <==> a[i] as int in {32, 9, 10, 11, 34};
  }
}
