/** Bytes, integer division as the C macros round it, and the little-endian
    words in which the structures of the file system reach the disk. */
module Bytes {

  type byte = bv8

  type Block = seq<byte>

  /** A 32-bit word, read as an unsigned integer. */
  type word = w: int | 0 <= w < 0x1_0000_0000

  /** Half a word, and two of them. */
  type half = h: int | 0 <= h < 0x1_0000

  type dword = d: int | 0 <= d < 0x1_0000_0000 * 0x1_0000_0000

  function Min(a: int, b: int): int {
    if a <= b then a else b
  }

  function Zeros(n: nat): seq<byte> {
    seq(n, _ => 0)
  }

  lemma MulMonotone(a: int, b: int, d: nat)
    requires a <= b
    ensures a * d <= b * d
    ensures (a + 1) * d == a * d + d && (b - a) * d == b * d - a * d
  {
  }

  lemma ConcatAssociates(a: seq<byte>, b: seq<byte>, c: seq<byte>)
    ensures (a + b) + c == a + (b + c)
  {
  }

  lemma SliceOfPrefix(s: seq<byte>, n: nat, i: nat, j: nat)
    requires i <= j <= n <= |s|
    ensures s[..n][i..j] == s[i..j]
  {
  }

  lemma PartsOf(buffer: array<byte>, i: nat, j: nat)
    requires i <= j <= buffer.Length
    ensures buffer[..i] == buffer[..][..i] && buffer[j..] == buffer[..][j..] && buffer[0..buffer.Length] == buffer[..]
  {
  }

  lemma EmptyEnds(a: seq<byte>, b: seq<byte>, c: seq<byte>)
    requires a == [] && c == []
    ensures a + b + c == b
  {
  }

  /** Copies n bytes from one buffer into another. */
  method CopyBytes(source: array<byte>, from: nat, target: array<byte>, at: nat, n: nat)
    requires from + n <= source.Length && at + n <= target.Length && source != target
    modifies target
    ensures target[..] == old(target[..at]) + source[from..from + n] + old(target[at + n..])
  {
    for i := 0 to n
      invariant target[..] == old(target[..at]) + source[from..from + i] + old(target[at + i..])
    {
      target[at + i] := source[from + i];
    }
  }

  // ---------- positions in a run of blocks ----------

  /** The position at which block b starts, added up block by block. */
  function BlockStart(b: nat, bpb: nat): nat {
    if b == 0 then 0 else BlockStart(b - 1, bpb) + bpb
  }

  /** The block in which position p lies: the quotient `p / bpb`, counted off
      block by block so that reasoning about positions stays linear. */
  function BlockOf(p: nat, bpb: nat): (b: nat)
    requires bpb > 0
    ensures BlockStart(b, bpb) <= p < BlockStart(b, bpb) + bpb
    decreases p
  {
    if p < bpb then 0 else BlockOf(p - bpb, bpb) + 1
  }

  /** Its offset in that block: the remainder. */
  function OffsetIn(p: nat, bpb: nat): (o: nat)
    requires bpb > 0
    ensures o < bpb
  {
    p - BlockStart(BlockOf(p, bpb), bpb)
  }

  /** The number of blocks that n bytes need: the quotient `n / bpb`, rounded up. */
  function CeilDiv(n: nat, bpb: nat): (q: nat)
    requires bpb > 0
    ensures n <= BlockStart(q, bpb) < n + bpb
  {
    if n == 0 then 0 else BlockOf(n - 1, bpb) + 1
  }

  /** The number of bytes that n bits need. */
  function BytesForBits(n: nat): nat {
    (n + 7) / 8
  }

  lemma BlockStartsApart(b: nat, c: nat, bpb: nat)
    ensures b < c ==> BlockStart(b, bpb) + bpb <= BlockStart(c, bpb)
    ensures c < b ==> BlockStart(c, bpb) + bpb <= BlockStart(b, bpb)
  {
    if b + 1 < c { BlockStartsApart(b, c - 1, bpb); }
    if c + 1 < b { BlockStartsApart(b - 1, c, bpb); }
  }

  lemma {:induction false} BlockStartIsProduct(b: nat, bpb: nat)
    ensures BlockStart(b, bpb) == b * bpb
  {
    if b > 0 {
      BlockStartIsProduct(b - 1, bpb);
      MulMonotone(b - 1, b, bpb);
    }
  }

  /** Block and offset are the quotient and remainder of the C division. */
  lemma PositionIsQuotient(p: nat, bpb: nat)
    requires bpb > 0
    ensures BlockOf(p, bpb) == p / bpb && OffsetIn(p, bpb) == p % bpb
  {
    var b, q := BlockOf(p, bpb), p / bpb;
    BlockStartIsProduct(b, bpb);
    assert p == q * bpb + p % bpb;
    if b < q {
      MulMonotone(b + 1, q, bpb);
      assert false;
    } else if q < b {
      MulMonotone(q + 1, b, bpb);
      assert false;
    }
  }

  lemma CeilDivIsQuotient(n: nat, bpb: nat)
    requires bpb > 0
    ensures CeilDiv(n, bpb) == (n + bpb - 1) / bpb
  {
    if n > 0 {
      PositionIsQuotient(n + bpb - 1, bpb);
    } else {
      PositionIsQuotient(bpb - 1, bpb);
    }
  }

  lemma {:induction false} PositionInBlock(p: nat, b: nat, bpb: nat)
    requires bpb > 0 && BlockStart(b, bpb) <= p < BlockStart(b, bpb) + bpb
    ensures BlockOf(p, bpb) == b && OffsetIn(p, bpb) == p - BlockStart(b, bpb)
  {
    BlockStartsApart(b, BlockOf(p, bpb), bpb);
  }

  // ---------- bytes as numbers ----------

  /** The byte below 16 with a given value. */
  function Nibble(n: int): (b: byte)
    requires 0 <= n < 16
    ensures b <= 15 && NibbleValue(b) == n
  {
    if n == 0 then 0 else if n == 1 then 1 else if n == 2 then 2 else if n == 3 then 3
    else if n == 4 then 4 else if n == 5 then 5 else if n == 6 then 6 else if n == 7 then 7
    else if n == 8 then 8 else if n == 9 then 9 else if n == 10 then 10 else if n == 11 then 11
    else if n == 12 then 12 else if n == 13 then 13 else if n == 14 then 14 else 15
  }

  function NibbleValue(b: byte): (n: int)
    ensures 0 <= n < 16
  {
    if b == 0 then 0 else if b == 1 then 1 else if b == 2 then 2 else if b == 3 then 3
    else if b == 4 then 4 else if b == 5 then 5 else if b == 6 then 6 else if b == 7 then 7
    else if b == 8 then 8 else if b == 9 then 9 else if b == 10 then 10 else if b == 11 then 11
    else if b == 12 then 12 else if b == 13 then 13 else if b == 14 then 14 else 15
  }

  lemma NibblesOfByte(h: byte, l: byte)
    requires h <= 15 && l <= 15
    ensures ((h << 4) | l) >> 4 == h && ((h << 4) | l) & 15 == l
  {
  }

  /** The byte with a given value, its high and low halves put together. */
  function ToByte(x: int): byte
    requires 0 <= x < 256
  {
    (Nibble(x / 16) << 4) | Nibble(x % 16)
  }

  function ByteValue(b: byte): (x: int)
    ensures 0 <= x < 256
  {
    16 * NibbleValue(b >> 4) + NibbleValue(b & 15)
  }

  lemma ValueOfByte(x: int)
    requires 0 <= x < 256
    ensures ByteValue(ToByte(x)) == x
  {
    NibblesOfByte(Nibble(x / 16), Nibble(x % 16));
    hide Nibble, NibbleValue;
  }

  // ---------- words ----------

  function LE32(w: word): (s: seq<byte>)
    ensures |s| == 4
  {
    [ToByte(w % 256), ToByte(w / 256 % 256), ToByte(w / 65536 % 256), ToByte(w / 16777216)]
  }

  function FromLE32(s: seq<byte>): word
    requires |s| == 4
  {
    ByteValue(s[0]) + 256 * ByteValue(s[1]) + 65536 * ByteValue(s[2]) + 16777216 * ByteValue(s[3])
  }

  lemma LE32RoundTrip(w: word)
    ensures FromLE32(LE32(w)) == w
  {
    hide ToByte, ByteValue;
    assert w / 65536 == w / 256 / 256 && w / 16777216 == w / 65536 / 256;
    ValueOfByte(w % 256);
    ValueOfByte(w / 256 % 256);
    ValueOfByte(w / 65536 % 256);
    ValueOfByte(w / 16777216);
  }

  /** The range of the C `int`, the word that holds a value of it, and back. */
  predicate IsInt32(x: int) {
    -0x8000_0000 <= x < 0x8000_0000
  }

  function Unsigned(x: int): word
    requires IsInt32(x)
  {
    if x < 0 then x + 0x1_0000_0000 else x
  }

  function Signed(w: word): int {
    if w >= 0x8000_0000 then w - 0x1_0000_0000 else w
  }

  function LowWord(d: dword): word {
    d % 0x1_0000_0000
  }

  function HighWord(d: dword): word {
    d / 0x1_0000_0000
  }

  function WordsToBytes(ws: seq<word>): (s: seq<byte>)
    ensures |s| == 4 * |ws|
  {
    if ws == [] then [] else LE32(ws[0]) + WordsToBytes(ws[1..])
  }

  function WordAt(s: seq<byte>, i: nat): word
    requires 4 * i + 4 <= |s|
  {
    FromLE32(s[4 * i..4 * i + 4])
  }

  function DwordAt(s: seq<byte>, i: nat): dword
    requires 4 * i + 8 <= |s|
  {
    WordAt(s, i) + 0x1_0000_0000 * WordAt(s, i + 1)
  }

  lemma {:induction false} WordAtOfWords(ws: seq<word>, i: nat)
    requires i < |ws|
    ensures WordAt(WordsToBytes(ws), i) == ws[i]
  {
    var s := WordsToBytes(ws);
    var rest := WordsToBytes(ws[1..]);
    assert s == LE32(ws[0]) + rest;
    if i == 0 {
      assert s[0..4] == LE32(ws[0]);
      LE32RoundTrip(ws[0]);
    } else {
      assert s[4 * i..4 * i + 4] == rest[4 * (i - 1)..4 * (i - 1) + 4];
      WordAtOfWords(ws[1..], i - 1);
    }
  }

  // ---------- what the bytes are worth ----------

  lemma ByteIsInt(b: byte)
    ensures ByteValue(b) == b as int
  {
    hide Nibble;
  }

  /** Words lie in memory least significant byte first. */
  lemma WordIsLittleEndian(s: seq<byte>, i: nat)
    requires 4 * i + 4 <= |s|
    ensures WordAt(s, i) == s[4 * i] as int + 0x100 * (s[4 * i + 1] as int) + 0x1_0000 * (s[4 * i + 2] as int)
                            + 0x100_0000 * (s[4 * i + 3] as int)
  {
    ByteIsInt(s[4 * i]);
    ByteIsInt(s[4 * i + 1]);
    ByteIsInt(s[4 * i + 2]);
    ByteIsInt(s[4 * i + 3]);
    hide ByteValue;
  }

  /** Negative numbers are two's complements. */
  lemma UnsignedIsModulo(x: int)
    requires IsInt32(x)
    ensures Unsigned(x) == x % 0x1_0000_0000 && Signed(Unsigned(x)) == x
  {
  }
}
