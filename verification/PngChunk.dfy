/** PNG chunks: the table-driven checksum of `putPng`, the bit-serial one it must equal, and the
    layout of a chunk. */
module PngChunk {
  import opened Octet

  type Word = bv32
  type Bytes = seq<bv8>

  const POLYNOMIAL: Word := 0xEDB88320
  const ONES: Word := 0xFFFFFFFF

  // Named so that proofs can treat them as opaque operations with the laws below.

  function Xor(x: Word, y: Word): Word {
    x ^ y
  }

  function Half(x: Word): Word {
    x >> 1
  }

  predicate Odd(x: Word) {
    x & 1 == 1
  }

  function LowByte(x: Word): Word {
    x & 0xFF
  }

  function HighBytes(x: Word): Word {
    x & 0xFFFFFF00
  }

  lemma XorLaws(x: Word, y: Word, z: Word)
    ensures Xor(Xor(x, y), z) == Xor(x, Xor(y, z))
    ensures Xor(x, y) == Xor(y, x)
    ensures Xor(x, Xor(x, y)) == y
    ensures Xor(x, 0) == x && Xor(x, x) == 0
  {
  }

  lemma XorHalf(x: Word, y: Word)
    ensures Half(Xor(x, y)) == Xor(Half(x), Half(y))
  {
  }

  lemma OddCases(x: Word)
    ensures x & 1 == if Odd(x) then 1 else 0
  {
  }

  lemma XorOdd(x: Word, y: Word)
    ensures Odd(Xor(x, y)) <==> Odd(x) != Odd(y)
  {
    assert (x ^ y) & 1 == (x & 1) ^ (y & 1);
    OddCases(x);
    OddCases(y);
  }

  // ----- the shift register -----

  /** One round of the register. */
  function Round(x: Word): Word {
    if Odd(x) then Xor(POLYNOMIAL, Half(x)) else Half(x)
  }

  function Rounds(x: Word, k: nat): Word {
    if k == 0 then x else Round(Rounds(x, k - 1))
  }

  lemma RoundLinear(x: Word, y: Word)
    ensures Round(Xor(x, y)) == Xor(Round(x), Round(y))
  {
    hide Xor, Half, Odd, POLYNOMIAL;
    XorHalf(x, y);
    XorOdd(x, y);
    var p, a, b := POLYNOMIAL, Half(x), Half(y);
    XorLaws(p, a, b);
    XorLaws(a, p, b);
    XorLaws(Xor(p, a), p, b);
    XorLaws(p, a, Xor(p, b));
    XorLaws(p, Xor(a, b), p);
    XorLaws(a, p, Xor(p, b));
    XorLaws(p, b, a);
  }

  lemma {:induction false} RoundsLinear(x: Word, y: Word, k: nat)
    ensures Rounds(Xor(x, y), k) == Xor(Rounds(x, k), Rounds(y, k))
  {
    hide Xor, Round;
    if k > 0 {
      RoundsLinear(x, y, k - 1);
      RoundLinear(Rounds(x, k - 1), Rounds(y, k - 1));
    }
  }

  lemma EightRounds(x: Word)
    ensures Rounds(x, 8) == Round(Round(Round(Round(Round(Round(Round(Round(x))))))))
  {
    hide Round;
    assert Rounds(x, 1) == Round(Rounds(x, 0));
    assert Rounds(x, 2) == Round(Rounds(x, 1));
    assert Rounds(x, 3) == Round(Rounds(x, 2));
    assert Rounds(x, 4) == Round(Rounds(x, 3));
    assert Rounds(x, 5) == Round(Rounds(x, 4));
    assert Rounds(x, 6) == Round(Rounds(x, 5));
    assert Rounds(x, 7) == Round(Rounds(x, 6));
  }

  lemma HighRounds(x: Word)
    ensures Rounds(HighBytes(x), 8) == x >> 8
  {
    EightRounds(HighBytes(x));
    ShiftedOut(x);
  }

  lemma ShiftedOut(x: Word)
    ensures Round(Round(Round(Round(Round(Round(Round(Round(HighBytes(x))))))))) == x >> 8
  {
  }

  lemma BytesApart(x: Word)
    ensures Xor(LowByte(x), HighBytes(x)) == x
  {
  }

  /** Eight rounds look up the low byte and shift the rest: what a table can hold. */
  lemma ByteRounds(x: Word)
    ensures Rounds(x, 8) == Xor(Rounds(LowByte(x), 8), x >> 8)
  {
    hide Xor, Rounds, LowByte, HighBytes;
    BytesApart(x);
    RoundsLinear(LowByte(x), HighBytes(x), 8);
    HighRounds(x);
  }

  // ----- the checksum, one bit at a time -----

  /** The register takes in one bit of the message. */
  function FeedBit(crc: Word, bit: bool): Word {
    if Odd(crc) != bit then Xor(POLYNOMIAL, Half(crc)) else Half(crc)
  }

  /** It takes in the `k` lowest bits of `c`, the lowest first. */
  function FeedBits(crc: Word, c: Word, k: nat): Word
    decreases k
  {
    if k == 0 then crc else FeedBits(FeedBit(crc, Odd(c)), Half(c), k - 1)
  }

  function FeedBytes(crc: Word, data: Bytes, n: nat): Word
    requires n <= |data|
  {
    if n == 0 then crc else FeedBits(FeedBytes(crc, data, n - 1), data[n - 1] as bv32, 8)
  }

  /** The checksum of section 5.5 of ISO/IEC 15948. */
  function Crc(data: Bytes): Word {
    Xor(FeedBytes(ONES, data, |data|), ONES)
  }

  function Halves(c: Word, k: nat): Word
    decreases k
  {
    if k == 0 then c else Halves(Half(c), k - 1)
  }

  lemma FeedBitRounds(crc: Word, c: Word)
    ensures Xor(FeedBit(crc, Odd(c)), Half(c)) == Round(Xor(crc, c))
  {
    hide Xor, Half, Odd, POLYNOMIAL;
    XorHalf(crc, c);
    XorOdd(crc, c);
    XorLaws(POLYNOMIAL, Half(crc), Half(c));
  }

  lemma {:induction false} RoundsFront(x: Word, k: nat)
    ensures Rounds(Round(x), k) == Rounds(x, k + 1)
  {
    hide Round;
    if k > 0 {
      RoundsFront(x, k - 1);
    } else {
      assert Rounds(x, 1) == Round(Rounds(x, 0));
    }
  }

  /** Taking in bits one by one is adding them first and then turning the register. */
  lemma {:induction false} FeedBitsRounds(crc: Word, c: Word, k: nat)
    ensures Xor(FeedBits(crc, c, k), Halves(c, k)) == Rounds(Xor(crc, c), k)
    decreases k
  {
    hide Xor, Half, Odd, Round, FeedBit;
    if k > 0 {
      FeedBitRounds(crc, c);
      FeedBitsRounds(FeedBit(crc, Odd(c)), Half(c), k - 1);
      RoundsFront(Xor(crc, c), k - 1);
    }
  }

  lemma ByteHalves(c: bv8)
    ensures Halves(c as bv32, 8) == 0
  {
    var w := c as bv32;
    assert Halves(w, 8) == Halves(Half(Half(Half(Half(w)))), 4);
    var v := Half(Half(Half(Half(w))));
    assert Halves(v, 4) == Half(Half(Half(Half(v))));
  }

  lemma FeedByte(crc: Word, c: bv8)
    ensures FeedBits(crc, c as bv32, 8) == Rounds(Xor(crc, c as bv32), 8)
  {
    hide Xor, Rounds, FeedBits, Halves;
    FeedBitsRounds(crc, c as bv32, 8);
    ByteHalves(c);
    XorLaws(FeedBits(crc, c as bv32, 8), 0, 0);
  }

  // ----- the table -----

  ghost predicate IsTable(t: seq<Word>) {
    |t| == 256 && forall n | 0 <= n < 256 :: t[n] == Rounds(n as bv32, 8)
  }

  method MakeTable() returns (table: array<Word>)
    ensures fresh(table) && IsTable(table[..])
  {
    hide Round;
    table := new Word[256](_ => 0);
    for n := 0 to 256
      invariant forall m | 0 <= m < n :: table[m] == Rounds(m as bv32, 8)
    {
      var c := n as bv32;
      for k := 0 to 8
        invariant c == Rounds(n as bv32, k)
      {
        c := Round(c);
      }
      table[n] := c;
    }
  }

  lemma LowByteIndex(x: Word)
    ensures LowByte(x) as int < 256
  {
  }

  lemma ThereAndBack(x: Word)
    ensures (x as int) as bv32 == x
  {
  }

  lemma ByteShift(crc: Word, c: bv8)
    ensures Xor(crc, c as bv32) >> 8 == crc >> 8
  {
  }

  /** One step of the table-driven loop takes in one byte. */
  lemma TableStep(t: seq<Word>, crc: Word, c: bv8)
    requires IsTable(t)
    ensures var i := LowByte(Xor(crc, c as bv32)) as int;
            i < 256 && Xor(t[i], crc >> 8) == FeedBits(crc, c as bv32, 8)
  {
    hide Xor, Rounds, LowByte, FeedBits;
    var x := Xor(crc, c as bv32);
    FeedByte(crc, c);
    ByteRounds(x);
    LowByteIndex(x);
    ThereAndBack(LowByte(x));
    ByteShift(crc, c);
  }

  /** The loop over the chunk. */
  method TableCrc(table: array<Word>, chunk: Bytes) returns (crc: Word)
    requires IsTable(table[..])
    ensures Xor(crc, ONES) == Crc(chunk)
  {
    hide Xor, FeedBits, LowByte, ONES, Rounds;
    crc := ONES;
    for i := 0 to |chunk|
      invariant crc == FeedBytes(ONES, chunk, i)
    {
      TableStep(table[..], crc, chunk[i]);
      crc := Xor(table[LowByte(Xor(crc, chunk[i] as bv32)) as int], crc >> 8);
    }
  }

  // ----- the chunk -----

  function Byte(x: Word): bv8 {
    assert x & 0xFF <= 0xFF;
    (x & 0xFF) as bv8
  }

  function BigEndian(v: Word): Bytes {
    [Byte(v >> 24), Byte(v >> 16), Byte(v >> 8), Byte(v)]
  }

  /** The four bytes of a size, which is cut to 32 bits. */
  function SizeBytes(n: nat): Bytes {
    [(n / 0x1000000 % 256) as bv8, (n / 0x10000 % 256) as bv8, (n / 0x100 % 256) as bv8, (n % 256) as bv8]
  }

  function Chunk(kind: Bytes, data: Bytes): Bytes {
    SizeBytes(|data|) + ((kind + data) + BigEndian(Crc(kind + data)))
  }

  /** `putPng` */
  method PutPng(before: Bytes, kind: Bytes, data: Bytes) returns (out: Bytes)
    ensures out == before + Chunk(kind, data)
  {
    hide Crc, Xor;
    var table := MakeTable();
    out := before + SizeBytes(|data|);
    var chunk := kind + data;
    var crc := TableCrc(table, chunk);
    out := out + chunk;
    out := out + BigEndian(Xor(crc, ONES));
    assert out == before + (SizeBytes(|data|) + (chunk + BigEndian(Crc(chunk))));
  }

  function FromBytes(b: Bytes): Word
    requires |b| == 4
  {
    ((b[0] as bv32) << 24) | ((b[1] as bv32) << 16) | ((b[2] as bv32) << 8) | (b[3] as bv32)
  }

  lemma BigEndianBack(v: Word)
    ensures FromBytes(BigEndian(v)) == v
  {
  }

  function SizeOf(b: Bytes): nat
    requires |b| == 4
  {
    b[0] as nat * 0x1000000 + b[1] as nat * 0x10000 + b[2] as nat * 0x100 + b[3] as nat
  }

  lemma SizeBack(n: nat)
    requires n < 0x1_0000_0000
    ensures SizeOf(SizeBytes(n)) == n
  {
    ByteBack(n / 0x1000000 % 256);
    ByteBack(n / 0x10000 % 256);
    ByteBack(n / 0x100 % 256);
    ByteBack(n % 256);
    SizeDigits(n);
  }

  lemma SizeDigits(n: nat)
    requires n < 0x1_0000_0000
    ensures (n / 0x1000000 % 256) * 0x1000000 + (n / 0x10000 % 256) * 0x10000 + (n / 0x100 % 256) * 0x100 + n % 256 == n
  {
    var a := n / 0x100;
    var b := a / 0x100;
    assert n / 0x10000 == b && n / 0x1000000 == b / 0x100;
  }

  datatype Read = Bad | Good(kind: Bytes, data: Bytes, rest: Bytes)

  /** How a PNG reader takes a chunk off a stream (section 5.3 of ISO/IEC 15948). */
  function ReadChunk(s: Bytes): Read {
    if |s| < 12 then Bad
    else
      var n := SizeOf(s[..4]);
      if |s| < 12 + n then Bad
      else if FromBytes(s[8 + n..12 + n]) != Crc(s[4..8 + n]) then Bad
      else Good(s[4..8], s[8..8 + n], s[12 + n..])
  }

  lemma ChunkStands(size: Bytes, kind: Bytes, data: Bytes, sum: Bytes, rest: Bytes)
    requires |size| == 4 && |kind| == 4 && |sum| == 4
    ensures var s, n := (size + ((kind + data) + sum)) + rest, |data|;
            && |s| >= 12 + n && s[..4] == size && s[4..8 + n] == kind + data && s[8 + n..12 + n] == sum
            && s[4..8] == kind && s[8..8 + n] == data && s[12 + n..] == rest
  {
    var s, n := (size + ((kind + data) + sum)) + rest, |data|;
    assert s[..4] == size;
    assert s[4..8 + n] == kind + data;
    assert s[8 + n..12 + n] == sum;
    assert s[4..8] == kind;
    assert s[8..8 + n] == data;
    assert s[12 + n..] == rest;
  }

  /** A written chunk is read back, whatever follows it. */
  lemma ChunkReadsBack(kind: Bytes, data: Bytes, rest: Bytes)
    requires |kind| == 4 && |data| < 0x1_0000_0000
    ensures ReadChunk(Chunk(kind, data) + rest) == Good(kind, data, rest)
  {
    hide Crc, BigEndian, FromBytes, SizeOf;
    var size, sum := SizeBytes(|data|), BigEndian(Crc(kind + data));
    FourBytes(Crc(kind + data));
    ChunkStands(size, kind, data, sum, rest);
    BigEndianBack(Crc(kind + data));
    SizeBack(|data|);
  }

  lemma FourBytes(v: Word)
    ensures |BigEndian(v)| == 4
  {
  }

  // ----- what the checksum is for -----

  lemma RoundZero(z: Word)
    ensures Round(z) == 0 ==> z == 0
  {
    var h := z >> 1;
    assert h & 0x80000000 == 0;
    assert POLYNOMIAL & 0x80000000 != 0;
  }

  lemma RoundInjective(x: Word, y: Word)
    requires Round(x) == Round(y)
    ensures x == y
  {
    hide Round, Xor;
    RoundLinear(x, y);
    XorLaws(Round(x), Round(y), 0);
    RoundZero(Xor(x, y));
    XorLaws(x, y, 0);
  }

  lemma {:induction false} RoundsInjective(x: Word, y: Word, k: nat)
    requires Rounds(x, k) == Rounds(y, k)
    ensures x == y
  {
    hide Round;
    if k > 0 {
      RoundInjective(Rounds(x, k - 1), Rounds(y, k - 1));
      RoundsInjective(x, y, k - 1);
    }
  }

  lemma XorCancels(x: Word, y: Word, a: Word, b: Word)
    ensures Xor(x, a) == Xor(x, b) ==> a == b
    ensures Xor(x, a) == Xor(y, a) ==> x == y
  {
    hide Xor;
    XorLaws(x, a, 0);
    XorLaws(x, b, 0);
    XorLaws(a, x, 0);
    XorLaws(a, y, 0);
    XorLaws(x, a, y);
    XorLaws(y, a, x);
  }

  /** Different registers stay different, and different bytes make them differ. */
  lemma FeedDiffers(x: Word, y: Word, a: bv8, b: bv8)
    requires (x != y && a == b) || (x == y && a as bv32 != b as bv32)
    ensures FeedBits(x, a as bv32, 8) != FeedBits(y, b as bv32, 8)
  {
    hide Xor, Rounds, FeedBits;
    FeedByte(x, a);
    FeedByte(y, b);
    XorCancels(x, y, a as bv32, b as bv32);
    if Rounds(Xor(x, a as bv32), 8) == Rounds(Xor(y, b as bv32), 8) {
      RoundsInjective(Xor(x, a as bv32), Xor(y, b as bv32), 8);
    }
  }

  lemma ByteDiffers(a: bv8, b: bv8)
    requires a != b
    ensures a as bv32 != b as bv32
  {
  }

  lemma {:induction false} RegistersDiffer(a: Bytes, b: Bytes, i: nat, n: nat)
    requires |a| == |b| && i < |a| && a[i] != b[i] && n <= |a|
    requires forall k | 0 <= k < |a| && k != i :: a[k] == b[k]
    ensures FeedBytes(ONES, a, n) == FeedBytes(ONES, b, n) <==> n <= i
  {
    hide FeedBits, ONES;
    if n > 0 {
      RegistersDiffer(a, b, i, n - 1);
      if n - 1 == i {
        ByteDiffers(a[i], b[i]);
      }
      if n > i {
        FeedDiffers(FeedBytes(ONES, a, n - 1), FeedBytes(ONES, b, n - 1), a[n - 1], b[n - 1]);
      }
    }
  }

  /** A change of any one byte changes the checksum. */
  lemma OneByteDetected(a: Bytes, b: Bytes, i: nat)
    requires |a| == |b| && i < |a| && a[i] != b[i]
    requires forall k | 0 <= k < |a| && k != i :: a[k] == b[k]
    ensures Crc(a) != Crc(b)
  {
    hide Xor, ONES, FeedBytes;
    RegistersDiffer(a, b, i, |a|);
    XorCancels(FeedBytes(ONES, a, |a|), FeedBytes(ONES, b, |b|), ONES, ONES);
  }

  // ----- the checksum that every PNG ends with -----

  lemma LetterI()
    ensures FeedBits(0xFFFFFFFF, 0x49, 8) == 0x22FDE946
  {
  }

  lemma LetterE()
    ensures FeedBits(0x22FDE946, 0x45, 8) == 0x992BAC53
  {
  }

  lemma LetterN()
    ensures FeedBits(0x992BAC53, 0x4E, 8) == 0x639F4775
  {
  }

  lemma LetterD()
    ensures FeedBits(0x639F4775, 0x44, 8) == 0x51BD9F7D
  {
  }

  /** The chunk that ends a PNG, as every reader knows it. */
  lemma EndChunk()
    ensures Crc([0x49, 0x45, 0x4E, 0x44]) == 0xAE426082
  {
    var kind: Bytes := [0x49, 0x45, 0x4E, 0x44];
    LetterI();
    LetterE();
    LetterN();
    LetterD();
    hide FeedBits;
    assert FeedBytes(ONES, kind, 0) == 0xFFFFFFFF;
    assert FeedBytes(ONES, kind, 1) == 0x22FDE946;
    assert FeedBytes(ONES, kind, 2) == 0x992BAC53;
    assert FeedBytes(ONES, kind, 3) == 0x639F4775;
    assert FeedBytes(ONES, kind, 4) == 0x51BD9F7D;
  }
}
