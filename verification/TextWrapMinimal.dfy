/** A greedily filled text has the fewest lines. */
module TextWrapMinimal {
  import opened TextWrap
  import opened Concatenation

  // ----- texts without cuts -----

  /** The words of all groups. */
  function Concat(groups: seq<seq<string>>): seq<string> {
    if groups == [] then [] else Concat(groups[..|groups| - 1]) + groups[|groups| - 1]
  }

  /** No line has room for the first word of the next. */
  ghost predicate Greedy(f: Font, groups: seq<seq<string>>) {
    forall i | 1 <= i < |groups| :: groups[i] != [] && !Fits(f, Spaced(groups[i - 1] + [groups[i][0]]))
  }

  ghost predicate AllWordsAcceptable(f: Font, words: seq<string>) {
    forall i | 0 <= i < |words| :: Acceptable(f, words[i])
  }

  ghost predicate AllFull(rows: seq<Row>) {
    forall i | 0 <= i < |rows| :: rows[i].Full?
  }

  function Groups(rows: seq<Row>): (r: seq<seq<string>>)
    requires AllFull(rows)
    ensures |r| == |rows| && forall i | 0 <= i < |rows| :: r[i] == rows[i].words
  {
    seq(|rows|, i requires 0 <= i < |rows| => rows[i].words)
  }

  /** If every word is acceptable, none is cut. */
  lemma {:induction false} NoneCut(f: Font, rows: seq<Row>)
    requires AllWordsAcceptable(f, WordsIn(rows)) && forall i | 0 <= i < |rows| :: RowOk(f, rows[i])
    ensures AllFull(rows) && WordsIn(rows) == Concat(Groups(rows))
    decreases |rows|
  {
    hide Fits, RowOk, Acceptable;
    if rows != [] {
      var n := |rows| - 1;
      var front, last := rows[..n], rows[n];
      var started := Starting(last, CutLast(front));
      AcceptableParts(f, WordsIn(front), started);
      NoneCut(f, front);
      assert !CutLast(front);
      CutNotAcceptable(f, last);
      assert last.Cut? ==> started == [Begin(last)];
      assert last.Full?;
      assert Groups(rows)[..n] == Groups(front);
    }
  }

  lemma AcceptableParts(f: Font, a: seq<string>, b: seq<string>)
    requires AllWordsAcceptable(f, a + b)
    ensures AllWordsAcceptable(f, a) && AllWordsAcceptable(f, b)
  {
    hide Acceptable;
    var all := a + b;
    assert forall i | 0 <= i < |a| :: a[i] == all[i];
    assert forall i | 0 <= i < |b| :: b[i] == all[|a| + i];
  }

  lemma CutNotAcceptable(f: Font, row: Row)
    requires RowOk(f, row)
    ensures row.Cut? ==> !AllWordsAcceptable(f, [Begin(row)])
  {
    hide Fits;
    assert [Begin(row)][0] == Begin(row);
  }

  lemma LaidIsGreedy(f: Font, words: seq<string>, lines: seq<string>, rows: seq<Row>)
    requires Laid(f, words, lines, rows) && AllWordsAcceptable(f, words)
    ensures AllFull(rows)
    ensures var g := Groups(rows); |g| == |lines| && Concat(g) == words && NoneEmpty(g) && Greedy(f, g)
  {
    hide Fits, Spaced, WordsIn, Concat;
    NoneCut(f, rows);
    var g := Groups(rows);
    forall i | 1 <= i < |g|
      ensures g[i] != [] && !Fits(f, Spaced(g[i - 1] + [g[i][0]]))
    {
      assert PairOk(f, rows[i - 1], rows[i]) && RowOk(f, rows[i]) && RowOk(f, rows[i - 1]);
      SpacedSnoc(g[i - 1], g[i][0]);
    }
  }

  // ----- the greedy filling is the shortest -----

  lemma {:induction false} WidthAppend(f: Font, a: string, b: string)
    ensures Width(f, a + b) == Width(f, a) + Width(f, b)
  {
    if b == "" {
      assert a + b == a;
    } else {
      WidthAppend(f, a, b[..|b| - 1]);
      assert (a + b)[..|a + b| - 1] == a + b[..|b| - 1];
    }
  }

  lemma {:induction false} SpacedCons(w: string, x: seq<string>)
    requires x != []
    ensures Spaced([w] + x) == w + (" " + Spaced(x))
  {
    var front, last := x[..|x| - 1], x[|x| - 1];
    assert ([w] + x)[..|x|] == [w] + front;
    if front != [] {
      SpacedCons(w, front);
      assert w + (" " + Spaced(front)) + " " + last == w + (" " + (Spaced(front) + " " + last));
    }
  }

  /** Words added on either side do not make a line narrower. */
  lemma {:induction false} SubWidth(f: Font, ws: seq<string>, a: nat, b: nat, c: nat, d: nat)
    requires c <= a < b <= d <= |ws|
    ensures Width(f, Spaced(ws[a..b])) <= Width(f, Spaced(ws[c..d]))
    decreases d - c
  {
    hide Width, Spaced;
    if c < a {
      SubWidth(f, ws, a, b, c + 1, d);
      assert ws[c..d] == [ws[c]] + ws[c + 1..d];
      SpacedCons(ws[c], ws[c + 1..d]);
      WidthAppend(f, ws[c], " " + Spaced(ws[c + 1..d]));
      WidthAppend(f, " ", Spaced(ws[c + 1..d]));
    } else if b < d {
      SubWidth(f, ws, a, b, c, d - 1);
      assert ws[c..d] == ws[c..d - 1] + [ws[d - 1]];
      SpacedSnoc(ws[c..d - 1], ws[d - 1]);
      WidthAppend(f, Spaced(ws[c..d - 1]) + " ", ws[d - 1]);
      WidthAppend(f, Spaced(ws[c..d - 1]), " ");
    }
  }

  lemma NarrowerFits(f: Font, s: string, t: string)
    requires f.scale >= 0.0 && Width(f, s) <= Width(f, t) && Fits(f, t)
    ensures Fits(f, s)
  {
    hide Width;
    Scaled(Width(f, s) as real, Width(f, t) as real, f.scale);
  }

  lemma Scaled(x: real, y: real, scale: real)
    requires x <= y && scale >= 0.0
    ensures x * scale <= y * scale
  {
    assert (y - x) * scale >= 0.0;
  }

  /** The number of words in the first `i` groups. */
  function Before(groups: seq<seq<string>>, i: nat): nat
    requires i <= |groups|
  {
    if i == 0 then 0 else Before(groups, i - 1) + |groups[i - 1]|
  }

  lemma {:induction false} BeforePrefix(groups: seq<seq<string>>, m: nat, i: nat)
    requires i <= m <= |groups|
    ensures Before(groups[..m], i) == Before(groups, i)
  {
    if i > 0 {
      BeforePrefix(groups, m, i - 1);
    }
  }

  lemma {:induction false} BeforeAll(groups: seq<seq<string>>)
    ensures Before(groups, |groups|) == |Concat(groups)|
  {
    if groups != [] {
      var n := |groups| - 1;
      BeforeAll(groups[..n]);
      BeforePrefix(groups, n, n);
    }
  }

  /** A group is a slice of the words. */
  lemma {:induction false} GroupIsSlice(groups: seq<seq<string>>, i: nat)
    requires i < |groups|
    ensures Before(groups, i + 1) <= |Concat(groups)|
    ensures Concat(groups)[Before(groups, i)..Before(groups, i + 1)] == groups[i]
  {
    var n := |groups| - 1;
    var front := groups[..n];
    if i == n {
      BeforeAll(front);
      BeforePrefix(groups, n, n);
    } else {
      GroupIsSlice(front, i);
      BeforePrefix(groups, n, i);
      BeforePrefix(groups, n, i + 1);
      hide Before;
      assert Concat(groups) == Concat(front) + groups[n];
    }
  }

  ghost predicate NoneEmpty<T(!new)>(groups: seq<seq<T>>) {
    forall i | 0 <= i < |groups| :: groups[i] != []
  }

  /** A way to break the words into lines that are short enough. */
  ghost predicate Breaking(f: Font, words: seq<string>, groups: seq<seq<string>>) {
    && Concat(groups) == words
    && NoneEmpty(groups)
    && forall i | 0 <= i < |groups| :: Acceptable(f, Spaced(groups[i]))
  }

  lemma TwoWordsLong(x: seq<string>)
    requires |x| >= 2 && NoneEmpty(x)
    ensures |Spaced(x)| >= 2
  {
  }

  /** What a greedy line plus the first word of the next line is a slice of. */
  lemma OverfullSlice(groups: seq<seq<string>>, i: nat)
    requires 1 <= i < |groups| && groups[i] != []
    ensures Before(groups, i) < |Concat(groups)|
    ensures Concat(groups)[Before(groups, i - 1)..Before(groups, i) + 1] == groups[i - 1] + [groups[i][0]]
  {
    GroupIsSlice(groups, i - 1);
    GroupIsSlice(groups, i);
    var ws, a, b, c := Concat(groups), Before(groups, i - 1), Before(groups, i), Before(groups, i + 1);
    assert c == b + |groups[i]| && b == a + |groups[i - 1]|;
    hide Concat, Before;
    assert ws[b] == ws[b..c][0];
    assert ws[a..b + 1] == ws[a..b] + [ws[b]];
  }

  /** After as many lines, the greedy breaking has placed at least as many words. */
  lemma {:induction false} GreedyAhead(f: Font, words: seq<string>, g: seq<seq<string>>, o: seq<seq<string>>, i: nat)
    requires f.scale >= 0.0 && NoneEmpty(words)
    requires Concat(g) == words && NoneEmpty(g) && Greedy(f, g) && Breaking(f, words, o)
    requires i <= |g| && i <= |o|
    ensures Before(g, i) >= Before(o, i)
  {
    hide Spaced, Concat, Width, Fits;
    if i > 0 {
      GreedyAhead(f, words, g, o, i - 1);
      BeforeAll(g);
      GroupIsSlice(o, i - 1);
      if i < |g| {
        OverfullSlice(g, i);
        if Before(g, i) < Before(o, i) {
          var line := o[i - 1];
          assert |line| >= 2 && NoneEmpty(line) by {
            assert |g[i - 1]| >= 1;
            var from, to := Before(o, i - 1), Before(o, i);
            assert forall k | 0 <= k < |line| :: line[k] == words[from..to][k] == words[from + k];
          }
          TwoWordsLong(line);
          SubWidth(f, words, Before(g, i - 1), Before(g, i) + 1, Before(o, i - 1), Before(o, i));
          NarrowerFits(f, Spaced(g[i - 1] + [g[i][0]]), Spaced(line));
        }
      }
    }
  }

  /** No breaking of the words into acceptable lines has fewer lines than the greedy one. */
  lemma GreedyIsMinimal(f: Font, words: seq<string>, g: seq<seq<string>>, o: seq<seq<string>>)
    requires f.scale >= 0.0 && NoneEmpty(words)
    requires Concat(g) == words && NoneEmpty(g) && Greedy(f, g) && Breaking(f, words, o)
    ensures |g| <= |o|
  {
    if |o| < |g| {
      GreedyAhead(f, words, g, o, |o|);
      BeforeAll(o);
      GroupIsSlice(g, |o|);
    }
  }

  lemma {:induction false} WordsNonempty(a: string, i: nat)
    requires i <= |a|
    ensures NoneEmpty(Words(a, i))
    decreases |a| - i
  {
    var j := SpaceEnd(a, i);
    if j < |a| {
      WordsNonempty(a, WordEnd(a, j));
    }
  }

  /** If the words can be broken into acceptable lines at all, every word is acceptable. */
  lemma BreakingAcceptable(f: Font, words: seq<string>, o: seq<seq<string>>, i: nat, j: nat)
    requires f.scale >= 0.0 && NoneEmpty(words) && Breaking(f, words, o) && i < |o| && j < |o[i]|
    ensures Acceptable(f, o[i][j])
  {
    hide Concat, Width, Fits;
    var line := o[i];
    GroupIsSlice(o, i);
    if |line| == 1 {
      assert line == [line[0]];
    } else {
      assert NoneEmpty(line) by {
        var from, to := Before(o, i), Before(o, i + 1);
        assert forall k | 0 <= k < |line| :: line[k] == words[from..to][k] == words[from + k];
      }
      TwoWordsLong(line);
      SubWidth(f, line, j, j + 1, 0, |line|);
      assert line[0..|line|] == line && line[j..j + 1] == [line[j]];
      NarrowerFits(f, line[j], Spaced(line));
    }
  }

  lemma {:induction false} AllBreakingAcceptable(f: Font, words: seq<string>, o: seq<seq<string>>, n: nat)
    requires f.scale >= 0.0 && NoneEmpty(words) && Breaking(f, words, o) && n <= |o|
    ensures AllWordsAcceptable(f, Concat(o[..n]))
  {
    hide Fits, Spaced;
    if n == 0 {
      assert o[..0] == [];
    } else {
      AllBreakingAcceptable(f, words, o, n - 1);
      assert o[..n][..n - 1] == o[..n - 1];
      var last := o[n - 1];
      forall j | 0 <= j < |last|
        ensures Acceptable(f, last[j])
      {
        BreakingAcceptable(f, words, o, n - 1, j);
      }
    }
  }

  /** If the words of a text can be broken into acceptable lines at all, no way to do so has fewer
      lines than `wrap` produces. */
  lemma WrapIsMinimal(f: Font, a: string, lines: seq<string>, rows: seq<Row>, o: seq<seq<string>>)
    requires f.scale >= 0.0 && Laid(f, Words(a, 0), lines, rows) && Breaking(f, Words(a, 0), o)
    ensures |lines| <= |o|
  {
    hide Words, Laid;
    WordsNonempty(a, 0);
    AllBreakingAcceptable(f, Words(a, 0), o, |o|);
    assert o[..|o|] == o;
    LaidIsGreedy(f, Words(a, 0), lines, rows);
    GreedyIsMinimal(f, Words(a, 0), Groups(rows), o);
  }
}
