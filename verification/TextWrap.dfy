/** Breaking the text of a report into lines of limited width. */
module TextWrap {
  import opened Concatenation

  /** The widths of the characters, the factor from them to points, and the width of a line. */
  datatype Font = Font(glyph: char -> nat, scale: real, limit: real)

  function Width(f: Font, s: string): nat {
    if s == "" then 0 else Width(f, s[..|s| - 1]) + f.glyph(s[|s| - 1])
  }

  predicate Fits(f: Font, s: string) {
    Width(f, s) as real * f.scale <= f.limit
  }

  /** What separates words in a stream of text. */
  predicate IsSpace(c: char) {
    c in {' ', '\t', '\n', '\U{0B}', '\U{0C}', '\r'}
  }

  predicate NoSpace(s: string) {
    forall i | 0 <= i < |s| :: !IsSpace(s[i])
  }

  /** The characters of `s[i..]` that are not white space, in order. */
  function Ink(s: string, i: nat): string
    requires i <= |s|
    decreases |s| - i
  {
    if i == |s| then "" else if IsSpace(s[i]) then Ink(s, i + 1) else [s[i]] + Ink(s, i + 1)
  }

  /** The ink of all lines. */
  function InkOf(lines: seq<string>): string {
    if lines == [] then "" else InkOf(lines[..|lines| - 1]) + Ink(lines[|lines| - 1], 0)
  }

  function SpaceEnd(a: string, i: nat): (j: nat)
    requires i <= |a|
    ensures i <= j <= |a| && (j < |a| ==> !IsSpace(a[j]))
    ensures Ink(a, i) == Ink(a, j)
    decreases |a| - i
  {
    if i < |a| && IsSpace(a[i]) then SpaceEnd(a, i + 1) else i
  }

  function WordEnd(a: string, i: nat): (j: nat)
    requires i <= |a|
    ensures i <= j <= |a| && NoSpace(a[i..j]) && (j < |a| ==> IsSpace(a[j]))
    ensures i < |a| && !IsSpace(a[i]) ==> i < j
    decreases |a| - i
  {
    if i < |a| && !IsSpace(a[i]) then
      var j := WordEnd(a, i + 1);
      assert a[i..j] == [a[i]] + a[i + 1..j];
      j
    else i
  }

  /** The words of `a[i..]`: its longest pieces without white space. */
  function Words(a: string, i: nat): seq<string>
    requires i <= |a|
    decreases |a| - i
  {
    var j := SpaceEnd(a, i);
    if j == |a| then [] else [a[j..WordEnd(a, j)]] + Words(a, WordEnd(a, j))
  }

  // ----- ink -----

  lemma {:induction false} InkNoSpace(w: string, i: nat)
    requires i <= |w| && NoSpace(w)
    ensures Ink(w, i) == w[i..]
    decreases |w| - i
  {
    if i < |w| {
      InkNoSpace(w, i + 1);
    }
  }

  lemma {:induction false} InkWord(a: string, i: nat, j: nat)
    requires i <= j <= |a| && NoSpace(a[i..j])
    ensures Ink(a, i) == a[i..j] + Ink(a, j)
    decreases j - i
  {
    if i < j {
      assert a[i] == a[i..j][0];
      assert a[i..j] == [a[i]] + a[i + 1..j];
      InkWord(a, i + 1, j);
      Assoc([a[i]], a[i + 1..j], Ink(a, j));
    } else {
      assert a[i..j] == "";
    }
  }

  lemma {:induction false} InkAppend(a: string, b: string, i: nat)
    requires i <= |a|
    ensures Ink(a + b, i) == Ink(a, i) + Ink(b, 0)
    decreases |a| - i
  {
    if i == |a| {
      InkShift(a, b, 0);
    } else {
      InkAppend(a, b, i + 1);
      Assoc([a[i]], Ink(a, i + 1), Ink(b, 0));
    }
  }

  lemma {:induction false} InkShift(a: string, b: string, i: nat)
    requires i <= |b|
    ensures Ink(a + b, |a| + i) == Ink(b, i)
    decreases |b| - i
  {
    if i < |b| {
      InkShift(a, b, i + 1);
    }
  }

  lemma InkOfSnoc(lines: seq<string>, line: string)
    ensures InkOf(lines + [line]) == InkOf(lines) + Ink(line, 0)
  {
    assert (lines + [line])[..|lines|] == lines;
  }

  /** A line with one more word. */
  lemma InkJoined(line: string, word: string)
    requires NoSpace(word)
    ensures Ink(line + " " + word, 0) == Ink(line, 0) + word
  {
    InkAppend(line + " ", word, 0);
    InkAppend(line, " ", 0);
    InkNoSpace(word, 0);
    assert Ink(" ", 0) == Ink(" ", 1) == "";
    assert word[0..] == word && Ink(line, 0) + "" == Ink(line, 0);
  }

  // ----- lines -----

  /** A line is short enough, or cannot be made shorter. */
  predicate Acceptable(f: Font, line: string) {
    Fits(f, line) || |line| <= 1
  }

  predicate AllAcceptable(f: Font, lines: seq<string>) {
    forall i | 0 <= i < |lines| :: Acceptable(f, lines[i])
  }

  function Flushed(lines: seq<string>, line: string): seq<string> {
    if line != "" then lines + [line] else lines
  }

  /** The ink of the finished lines, the current line and the current word. */
  function Total(lines: seq<string>, line: string, word: string): string {
    InkOf(Flushed(lines, line)) + word
  }

  lemma FlushedInk(lines: seq<string>, line: string)
    ensures InkOf(Flushed(lines, line)) == InkOf(lines) + Ink(line, 0)
  {
    if line == "" {
      assert InkOf(lines) + "" == InkOf(lines);
    } else {
      InkOfSnoc(lines, line);
    }
  }

  lemma PieceCut(lines: seq<string>, line: string, word: string, k: nat)
    requires NoSpace(word) && 0 < k <= |word|
    ensures Total(Flushed(lines, line) + [word[..k]], "", word[k..]) == Total(lines, line, word)
  {
    hide InkOf, Ink;
    var flushed, piece := Flushed(lines, line), word[..k];
    InkOfSnoc(flushed, piece);
    InkNoSpace(piece, 0);
    assert piece[0..] == piece && piece + word[k..] == word;
    Assoc(InkOf(flushed), piece, word[k..]);
  }

  /** The longest prefix that fits, but at least one character. */
  method Prefix(f: Font, word: string) returns (k: nat)
    requires !Fits(f, word) && |word| > 1
    ensures 1 <= k < |word| && Acceptable(f, word[..k]) && !Fits(f, word[..k + 1])
  {
    k := 1;
    assert word[..|word|] == word;
    while k < |word| && Fits(f, word[..k + 1])
      invariant 1 <= k <= |word|
      invariant k == 1 || Fits(f, word[..k])
    {
      k := k + 1;
    }
  }

  // ----- rows -----

  /** Words with one space between neighbours. */
  function Spaced(words: seq<string>): string {
    if words == [] then ""
    else if |words| == 1 then words[0]
    else Spaced(words[..|words| - 1]) + " " + words[|words| - 1]
  }

  /** What a line holds: words, the first of which may be the rest of a word that was cut, or a piece
      of a word of which `rest` is still to come. */
  datatype Row = Full(words: seq<string>) | Cut(piece: string, rest: string)

  function RowText(row: Row): string {
    if row.Full? then Spaced(row.words) else row.piece
  }

  /** The word, or the rest of one, that a row begins with. */
  function Begin(row: Row): string {
    if row.Cut? then row.piece + row.rest else if row.words == [] then "" else row.words[0]
  }

  predicate CutLast(rows: seq<Row>) {
    rows != [] && rows[|rows| - 1].Cut?
  }

  /** The words that start in a row; `continued` if the row before it was cut. */
  function Starting(row: Row, continued: bool): seq<string> {
    if row.Cut? then (if continued then [] else [Begin(row)])
    else if continued && row.words != [] then row.words[1..] else row.words
  }

  function WordsIn(rows: seq<Row>): seq<string> {
    if rows == [] then []
    else
      var front := rows[..|rows| - 1];
      WordsIn(front) + Starting(rows[|rows| - 1], CutLast(front))
  }

  /** A piece is cut only off what does not fit, and is as long as possible. */
  ghost predicate RowOk(f: Font, row: Row) {
    match row
    case Full(words) => words != []
    case Cut(piece, rest) => piece != "" && rest != "" && !Fits(f, piece + rest) && !Fits(f, piece + [rest[0]])
  }

  /** The row after a cut goes on with the rest; a row of words has no room for the first word of the
      next. */
  ghost predicate PairOk(f: Font, a: Row, b: Row) {
    if a.Cut? then Begin(b) == a.rest else b.Full? ==> !Fits(f, Spaced(a.words) + " " + Begin(b))
  }

  /** The lines hold `words`, laid out as above; `rest` of the last word is still to come. */
  ghost predicate LaidOpen(f: Font, words: seq<string>, lines: seq<string>, rows: seq<Row>, rest: string) {
    && |lines| == |rows|
    && (forall i | 0 <= i < |rows| :: lines[i] == RowText(rows[i]) && RowOk(f, rows[i]))
    && (forall i | 1 <= i < |rows| :: PairOk(f, rows[i - 1], rows[i]))
    && WordsIn(rows) == words
    && rest == if CutLast(rows) then rows[|rows| - 1].rest else ""
  }

  ghost predicate Laid(f: Font, words: seq<string>, lines: seq<string>, rows: seq<Row>) {
    LaidOpen(f, words, lines, rows, "") && !CutLast(rows)
  }

  lemma SpacedSnoc(words: seq<string>, word: string)
    ensures Spaced(words + [word]) == if words == [] then word else Spaced(words) + " " + word
  {
    assert (words + [word])[..|words|] == words;
  }

  lemma SpacedOne(word: string)
    ensures Spaced([word]) == word
  {
  }

  lemma WordsInSnoc(rows: seq<Row>, row: Row)
    ensures WordsIn(rows + [row]) == WordsIn(rows) + Starting(row, CutLast(rows))
  {
    assert (rows + [row])[..|rows|] == rows;
  }

  /** One more row. */
  lemma RowAdded(f: Font, words: seq<string>, lines: seq<string>, rows: seq<Row>, rest: string, row: Row)
    requires LaidOpen(f, words, lines, rows, rest) && RowOk(f, row)
    requires rows != [] ==> PairOk(f, rows[|rows| - 1], row)
    ensures LaidOpen(f, words + Starting(row, CutLast(rows)), lines + [RowText(row)], rows + [row],
                     if row.Cut? then row.rest else "")
  {
    hide RowText, RowOk, PairOk, WordsIn, Starting;
    WordsInSnoc(rows, row);
  }

  /** A piece of `k` characters is cut off `word`, a new word or the rest of one. */
  lemma PieceLaid(f: Font, words: seq<string>, lines: seq<string>, rows: seq<Row>, rest: string, word: string, k: nat)
    requires LaidOpen(f, words, lines, rows, rest) && (CutLast(rows) ==> rest == word)
    requires 1 <= k < |word| && !Fits(f, word) && !Fits(f, word[..k + 1])
    ensures LaidOpen(f, if CutLast(rows) then words else words + [word], lines + [word[..k]],
                     rows + [Cut(word[..k], word[k..])], word[k..])
    ensures CutLast(rows + [Cut(word[..k], word[k..])])
  {
    hide Fits, LaidOpen;
    var row := Cut(word[..k], word[k..]);
    assert row.piece + row.rest == word && row.piece + [row.rest[0]] == word[..k + 1];
    CutPair(f, words, lines, rows, rest, row);
    RowAdded(f, words, lines, rows, rest, row);
    assert words + [] == words;
  }

  lemma CutPair(f: Font, words: seq<string>, lines: seq<string>, rows: seq<Row>, rest: string, row: Row)
    requires LaidOpen(f, words, lines, rows, rest) && (CutLast(rows) ==> rest == Begin(row))
    requires row.Cut? || CutLast(rows) || rows == []
    ensures rows != [] ==> PairOk(f, rows[|rows| - 1], row)
  {
  }

  /** The rest of a word that was cut, or the very first word, starts a line. */
  lemma RestLaid(f: Font, words: seq<string>, lines: seq<string>, rows: seq<Row>, rest: string, word: string)
    requires LaidOpen(f, words, lines, rows, rest) && (CutLast(rows) ==> rest == word) && (CutLast(rows) || rows == [])
    ensures Laid(f, if CutLast(rows) then words else words + [word], lines + [word], rows + [Full([word])])
  {
    hide Fits, LaidOpen, Spaced;
    CutPair(f, words, lines, rows, rest, Full([word]));
    RowAdded(f, words, lines, rows, rest, Full([word]));
    SpacedOne(word);
    assert [word][1..] == [] && words + [] == words;
  }

  /** A word for which the current line has no room starts a line. */
  lemma LineStarted(f: Font, words: seq<string>, lines: seq<string>, rows: seq<Row>, word: string)
    requires Laid(f, words, lines, rows) && rows != [] && !Fits(f, lines[|lines| - 1] + " " + word)
    ensures Laid(f, words + [word], lines + [word], rows + [Full([word])])
  {
    hide Fits, Spaced, WordsIn;
    RowAdded(f, words, lines, rows, "", Full([word]));
    SpacedOne(word);
  }

  /** A word goes on the current line. */
  lemma LineExtended(f: Font, words: seq<string>, lines: seq<string>, line: string, rows: seq<Row>, word: string)
    returns (longer: seq<Row>)
    requires Laid(f, words, lines + [line], rows)
    ensures Laid(f, words + [word], lines + [line + " " + word], longer)
  {
    hide Fits, Spaced, WordsIn, LaidOpen, Laid, Starting;
    FrontLaid(f, words, lines, line, rows);
    var n := |rows| - 1;
    var front, last := rows[..n], rows[n];
    var row := Full(last.words + [word]);
    SpacedSnoc(last.words, word);
    RowAdded(f, WordsIn(front), lines, front, RestOf(front), row);
    longer := front + [row];
    WordsInSnoc(front, last);
    StartingSnoc(last.words, word, CutLast(front));
    Assoc(WordsIn(front), Starting(last, CutLast(front)), [word]);
    LaidAfter(f, words + [word], lines + [line + " " + word], longer);
  }

  lemma LaidAfter(f: Font, words: seq<string>, lines: seq<string>, rows: seq<Row>)
    requires LaidOpen(f, words, lines, rows, "") && !CutLast(rows)
    ensures Laid(f, words, lines, rows)
  {
  }

  function RestOf(rows: seq<Row>): string {
    if CutLast(rows) then rows[|rows| - 1].rest else ""
  }

  lemma StartingSnoc(words: seq<string>, word: string, continued: bool)
    requires words != []
    ensures Starting(Full(words + [word]), continued) == Starting(Full(words), continued) + [word]
  {
    assert (words + [word])[1..] == words[1..] + [word];
  }

  /** A layout without its last row, and what the row before it asks of a new last row. */
  lemma FrontLaid(f: Font, words: seq<string>, lines: seq<string>, line: string, rows: seq<Row>)
    requires Laid(f, words, lines + [line], rows)
    ensures var n := |rows| - 1; var front := rows[..n];
            && LaidOpen(f, WordsIn(front), lines, front, RestOf(front))
            && rows == front + [rows[n]] && rows[n].Full? && rows[n].words != [] && Spaced(rows[n].words) == line
            && WordsIn(rows) == words
            && (n > 0 ==> forall w :: PairOk(f, rows[n - 1], Full(rows[n].words + [w])))
  {
    hide Fits, Spaced, WordsIn;
    var n := |rows| - 1;
    assert forall i | 0 <= i < n :: (lines + [line])[i] == lines[i];
    assert (lines + [line])[n] == line;
    if n > 0 {
      assert PairOk(f, rows[n - 1], rows[n]);
    }
  }

  /** The inner loop of `wrap`: pieces that fill a line are cut off a word that does not fit. */
  method CutWord(f: Font, word0: string, lines0: seq<string>, line0: string, ghost taken: seq<string>,
      ghost rows0: seq<Row>)
    returns (word: string, lines: seq<string>, line: string, ghost rows: seq<Row>)
    requires NoSpace(word0) && word0 != "" && AllAcceptable(f, lines0) && Acceptable(f, line0)
    requires Laid(f, taken, Flushed(lines0, line0), rows0)
    ensures NoSpace(word) && word != "" && Acceptable(f, word)
    ensures AllAcceptable(f, lines) && Acceptable(f, line)
    ensures Total(lines, line, word) == Total(lines0, line0, word0)
    ensures if Acceptable(f, word0) then word == word0 && lines == lines0 && line == line0 && rows == rows0
            else line == "" && CutLast(rows) && LaidOpen(f, taken + [word0], lines, rows, word)
  {
    hide Total, Fits, LaidOpen;
    word, lines, line, rows := word0, lines0, line0, rows0;
    while !Fits(f, word) && |word| > 1
      invariant NoSpace(word) && word != ""
      invariant AllAcceptable(f, lines) && Acceptable(f, line)
      invariant Total(lines, line, word) == Total(lines0, line0, word0)
      invariant if word == word0 then lines == lines0 && line == line0 && rows == rows0
                else && line == "" && CutLast(rows) && !Acceptable(f, word0)
                     && LaidOpen(f, taken + [word0], lines, rows, word)
      decreases |word|
    {
      var k := Prefix(f, word);
      PieceCut(lines, line, word, k);
      ghost var first := word == word0;
      PieceLaid(f, if first then taken else taken + [word0], Flushed(lines, line), rows, if first then "" else word,
          word, k);
      if line != "" {
        lines, line := lines + [line], "";
      }
      lines := lines + [word[..k]];
      rows := rows + [Cut(word[..k], word[k..])];
      word := word[k..];
    }
  }

  /** Putting a word on the current line or on the next keeps all ink. */
  lemma WordPlaced(lines: seq<string>, line: string, word: string)
    requires NoSpace(word) && word != ""
    ensures InkOf(Flushed(lines + [line], word)) == InkOf(lines + [line]) + word
    ensures InkOf(Flushed(lines, if line == "" then word else line + " " + word)) == Total(lines, line, word)
  {
    hide InkOf, Ink;
    InkNoSpace(word, 0);
    assert word[0..] == word;
    FlushedInk(lines, line);
    FlushedInk(lines + [line], word);
    var cand := if line == "" then word else line + " " + word;
    FlushedInk(lines, cand);
    if line != "" {
      InkJoined(line, word);
      Assoc(InkOf(lines), Ink(line, 0), word);
    }
  }

  /** The state before the first word, or with a current line. */
  ghost predicate Open(taken: seq<string>, lines: seq<string>, line: string, rows: seq<Row>) {
    if taken == [] then lines == [] && line == "" && rows == [] else line != ""
  }

  /** One round of the outer loop. */
  method PlaceWord(f: Font, word0: string, lines0: seq<string>, line0: string, ghost taken: seq<string>,
      ghost rows0: seq<Row>)
    returns (lines: seq<string>, line: string, ghost rows: seq<Row>)
    requires NoSpace(word0) && word0 != "" && AllAcceptable(f, lines0) && Acceptable(f, line0)
    requires Open(taken, lines0, line0, rows0) && Laid(f, taken, Flushed(lines0, line0), rows0)
    ensures AllAcceptable(f, lines) && Acceptable(f, line) && line != ""
    ensures InkOf(Flushed(lines, line)) == InkOf(Flushed(lines0, line0)) + word0
    ensures Laid(f, taken + [word0], Flushed(lines, line), rows)
  {
    hide InkOf, Fits, LaidOpen, Laid;
    var word;
    word, lines, line, rows := CutWord(f, word0, lines0, line0, taken, rows0);
    WordPlaced(lines, line, word);
    var cand := if line == "" then word else line + " " + word;
    if !Fits(f, cand) && line != "" {
      RowCount(f, taken, lines + [line], rows);
      LineStarted(f, taken, lines + [line], rows, word);
      rows := rows + [Full([word])];
      lines, line := lines + [line], word;
    } else {
      if line == "" {
        Opened(f, taken, lines, rows, Acceptable(f, word0));
        RestLaid(f, if CutLast(rows) then taken + [word0] else taken, lines, rows, if CutLast(rows) then word else "",
            word);
        rows := rows + [Full([word])];
      } else {
        rows := LineExtended(f, taken, lines, line, rows, word);
      }
      line := cand;
    }
  }

  lemma RowCount(f: Font, words: seq<string>, lines: seq<string>, rows: seq<Row>)
    requires Laid(f, words, lines, rows)
    ensures |lines| == |rows|
  {
  }

  lemma Opened(f: Font, words: seq<string>, lines: seq<string>, rows: seq<Row>, closed: bool)
    requires closed ==> Laid(f, words, lines, rows)
    ensures closed ==> LaidOpen(f, words, lines, rows, "") && !CutLast(rows)
  {
  }

  lemma NothingLaid(f: Font)
    ensures Laid(f, [], [], []) && InkOf([]) == ""
  {
  }

  /** The words split at index `i`. */
  lemma WordsStep(a: string, i: nat, taken: seq<string>)
    requires i <= |a|
    ensures var j := SpaceEnd(a, i);
            if j == |a| then Words(a, i) == [] && Ink(a, i) == "" && taken + Words(a, i) == taken
            else && Ink(a, i) == a[j..WordEnd(a, j)] + Ink(a, WordEnd(a, j))
                 && (taken + [a[j..WordEnd(a, j)]]) + Words(a, WordEnd(a, j)) == taken + Words(a, i)
                 && a[j..WordEnd(a, j)] in taken + Words(a, i)
  {
    var j := SpaceEnd(a, i);
    if j < |a| {
      var k := WordEnd(a, j);
      InkWord(a, j, k);
      Assoc(taken, [a[j..k]], Words(a, k));
      assert (taken + Words(a, i))[|taken|] == a[j..k];
    }
  }

  /** The words before index `i` are taken: their ink is on the lines. */
  ghost predicate Progress(f: Font, a: string, i: nat, taken: seq<string>, lines: seq<string>, line: string,
      rows: seq<Row>) {
    && i <= |a|
    && InkOf(Flushed(lines, line)) + Ink(a, i) == Ink(a, 0)
    && taken + Words(a, i) == Words(a, 0)
    && Open(taken, lines, line, rows)
    && Laid(f, taken, Flushed(lines, line), rows)
  }

  lemma ProgressStarts(f: Font, a: string)
    ensures Progress(f, a, 0, [], [], "", [])
  {
    NothingLaid(f);
    assert "" + Ink(a, 0) == Ink(a, 0);
    assert [] + Words(a, 0) == Words(a, 0);
  }

  lemma ProgressGoesOn(f: Font, a: string, i: nat, taken: seq<string>, lines0: seq<string>, line0: string,
      rows0: seq<Row>, lines: seq<string>, line: string, rows: seq<Row>)
    requires Progress(f, a, i, taken, lines0, line0, rows0) && SpaceEnd(a, i) < |a| && line != ""
    requires var j := SpaceEnd(a, i); var word := a[j..WordEnd(a, j)];
             && InkOf(Flushed(lines, line)) == InkOf(Flushed(lines0, line0)) + word
             && Laid(f, taken + [word], Flushed(lines, line), rows)
    ensures var j := SpaceEnd(a, i); var k := WordEnd(a, j);
            Progress(f, a, k, taken + [a[j..k]], lines, line, rows)
  {
    hide Ink, InkOf, Fits, Laid, Words, Flushed;
    var j := SpaceEnd(a, i);
    var k := WordEnd(a, j);
    WordsStep(a, i, taken);
    Assoc(InkOf(Flushed(lines0, line0)), a[j..k], Ink(a, k));
  }

  lemma ProgressEnds(f: Font, a: string, i: nat, taken: seq<string>, lines: seq<string>, line: string, rows: seq<Row>)
    requires Progress(f, a, i, taken, lines, line, rows) && SpaceEnd(a, i) == |a|
    ensures var all := if line != "" || lines == [] then lines + [line] else lines;
            && InkOf(all) == Ink(a, 0)
            && (Words(a, 0) == [] ==> all == [""])
            && (Words(a, 0) != [] ==> Laid(f, Words(a, 0), all, rows))
  {
    hide Ink, InkOf, Fits, Laid, Words;
    WordsStep(a, i, taken);
    assert InkOf(Flushed(lines, line)) + "" == InkOf(Flushed(lines, line));
    BlankInk();
    assert [] + [""] == [""];
  }

  lemma BlankInk()
    ensures InkOf([""]) == InkOf([])
  {
    assert [""][..0] == [];
  }

  /** `wrap`. The ink of the lines is that of the text, every line is acceptable, there is at least
      one, and the lines hold the words in order: each line of words is full, only words that do not
      fit are cut, and every piece is as long as possible. */
  method Wrap(f: Font, a: string) returns (lines: seq<string>, ghost rows: seq<Row>)
    ensures lines != []
    ensures AllAcceptable(f, lines)
    ensures InkOf(lines) == Ink(a, 0)
    ensures Words(a, 0) == [] ==> lines == [""]
    ensures Words(a, 0) != [] ==> Laid(f, Words(a, 0), lines, rows)
  {
    hide Ink, InkOf, Fits, Laid, Words, Flushed;
    var line, i := "", 0;
    lines, rows := [], [];
    ghost var taken: seq<string> := [];
    ProgressStarts(f, a);
    while SpaceEnd(a, i) < |a|
      invariant i <= |a| && AllAcceptable(f, lines) && Acceptable(f, line)
      invariant Progress(f, a, i, taken, lines, line, rows)
      decreases |a| - i
    {
      var j := SpaceEnd(a, i);
      var k := WordEnd(a, j);
      ghost var lines0, line0, rows0 := lines, line, rows;
      lines, line, rows := PlaceWord(f, a[j..k], lines, line, taken, rows);
      ProgressGoesOn(f, a, i, taken, lines0, line0, rows0, lines, line, rows);
      taken, i := taken + [a[j..k]], k;
    }
    ProgressEnds(f, a, i, taken, lines, line, rows);
    if line != "" || lines == [] {
      lines := lines + [line];
    }
  }

  // ----- widths and separators -----

  /** The width of a text is the sum of its characters' widths, wherever it is split. */
  lemma {:induction false} WidthAdds(f: Font, a: string, b: string)
    ensures Width(f, a + b) == Width(f, a) + Width(f, b)
    decreases |b|
  {
    if b == "" {
      assert a + b == a;
    } else {
      var n := |b| - 1;
      assert (a + b)[..|a| + n] == a + b[..n] && (a + b)[|a| + n] == b[n];
      WidthAdds(f, a, b[..n]);
    }
  }

  /** A line may be exactly as wide as the limit. */
  lemma FitsIff(f: Font, c: char, s: string)
    ensures Width(f, [c]) == f.glyph(c) && Width(f, "") == 0
    ensures Fits(f, s) <==> !(Width(f, s) as real * f.scale > f.limit)
  {
    assert [c][..0] == "";
  }

  /** Words are separated by blanks and by the control characters 9 to 13. */
  lemma SpaceIff(c: char)
    ensures IsSpace(c) <==> c as int == 32 || 9 <= c as int <= 13
  {
  }
}
