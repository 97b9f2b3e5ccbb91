/** MD5 over a message that arrives in pieces: the block buffer, the bit count in two words and
    the padding. The transformation of one block is a parameter. */
module Md5 {
  import opened Bytes
  import opened Seqs

  const WORD := 0x1_0000_0000
  const WORD2 := 0x1_0000_0000_0000_0000
  const BLOCK := 64

  type Word = x: int | 0 <= x < 0x1_0000_0000

  datatype State = State(a: Word, b: Word, c: Word, d: Word)

  /** MD5Transform: the new state, from a state and a block of 64 bytes. */
  type Transform = (State, seq<byte>) -> State

  const INITIAL := State(0x67452301, 0xefcdab89, 0x98badcfe, 0x10325476)

  // ---------- RFC 1321 ----------

  /** The state after the first n blocks of m. */
  function Fold(t: Transform, m: seq<byte>, n: nat): State
    requires BLOCK * n <= |m|
  {
    if n == 0 then INITIAL else t(Fold(t, m, n - 1), m[BLOCK * (n - 1)..BLOCK * n])
  }

  /** n as k bytes, the lowest first. */
  function LittleEndian(n: nat, k: nat): (b: seq<byte>)
    ensures |b| == k
  {
    if k == 0 then [] else [n % 256] + LittleEndian(n / 256, k - 1)
  }

  /** How many zero bytes make the length 56 modulo 64, behind the byte 0x80. */
  function ZeroCount(n: nat): nat {
    (55 - n) % BLOCK
  }

  function Zeros(n: nat): (z: seq<byte>)
    ensures |z| == n
  {
    seq(n, i => 0)
  }

  /** Sections 3.1 and 3.2: a one bit, zeros, and the bit length as 64 bits. */
  function Padded(m: seq<byte>): seq<byte> {
    m + [0x80] + Zeros(ZeroCount(|m|)) + LittleEndian(8 * |m| % WORD2, 8)
  }

  /** Section 3.5: the four words, the low byte of each first. */
  function Output(s: State): (b: seq<byte>)
    ensures |b| == 16
  {
    LittleEndian(s.a, 4) + LittleEndian(s.b, 4) + LittleEndian(s.c, 4) + LittleEndian(s.d, 4)
  }

  function Digest(t: Transform, m: seq<byte>): seq<byte> {
    Output(Fold(t, Padded(m), |Padded(m)| / BLOCK))
  }

  // ---------- the digest and the padding, byte by byte ----------

  /** The bytes of words, the low byte of each first. */
  predicate LowBytesFirst(d: seq<byte>, words: seq<Word>) {
    |d| == 4 * |words| && forall k :: 0 <= k < |d| ==> d[k] == words[k / 4] / Bytes256(k % 4) % 256
  }

  lemma Quotient(x: int, d: int, q: int, r: int)
    requires x == d * q + r && 0 <= r < d
    ensures x / d == q
  {
    var q', r' := x / d, x % d;
    assert d * (q - q') == r' - r;
    Multiple(d, q - q');
  }

  lemma Multiple(d: int, k: int)
    requires d > 0
    ensures k >= 1 ==> d * k >= d
    ensures k <= -1 ==> d * k <= -d
  {
  }

  lemma DivTwice(n: nat, m: nat)
    requires m > 0
    ensures n / 256 / m == n / (256 * m)
  {
    var a, r := n / 256, n % 256;
    var b, t := a / m, a % m;
    assert a == m * b + t && n == 256 * a + r;
    assert 256 * (m * b) == 256 * m * b;
    assert 256 * t + r < 256 * m;
    Quotient(n, 256 * m, b, 256 * t + r);
  }

  lemma {:induction false} LittleEndianAt(n: nat, k: nat, j: nat)
    requires j < k
    ensures LittleEndian(n, k)[j] == n / Bytes256(j) % 256
    decreases k
  {
    if j > 0 {
      LittleEndianAt(n / 256, k - 1, j - 1);
      DivTwice(n, Bytes256(j - 1));
    }
  }

  /** The four words of the state in the order a, b, c, d. */
  lemma OutputBytes(s: State)
    ensures LowBytesFirst(Output(s), [s.a, s.b, s.c, s.d])
  {
    var words := [s.a, s.b, s.c, s.d];
    forall k | 0 <= k < 16
      ensures Output(s)[k] == words[k / 4] / Bytes256(k % 4) % 256
    {
      hide LittleEndian, Bytes256;
      LittleEndianAt(words[k / 4], 4, k % 4);
    }
  }

  lemma WordBytes(w: nat, b0: byte, b1: byte, b2: byte, b3: byte)
    requires w == b0 + 0x100 * b1 + 0x1_0000 * b2 + 0x100_0000 * b3
    ensures w / Bytes256(0) % 256 == b0 && w / Bytes256(1) % 256 == b1
    ensures w / Bytes256(2) % 256 == b2 && w / Bytes256(3) % 256 == b3
  {
    assert Bytes256(1) == 0x100 && Bytes256(2) == 0x1_0000 && Bytes256(3) == 0x100_0000;
    assert w / 0x100 == b1 + 0x100 * b2 + 0x1_0000 * b3;
    assert w / 0x1_0000 == b2 + 0x100 * b3;
  }

  /** Section 3.3: the words of the initial state, the low byte of each first. */
  lemma InitialBytes()
    ensures LowBytesFirst(
      [0x01, 0x23, 0x45, 0x67, 0x89, 0xab, 0xcd, 0xef, 0xfe, 0xdc, 0xba, 0x98, 0x76, 0x54, 0x32, 0x10],
      [INITIAL.a, INITIAL.b, INITIAL.c, INITIAL.d])
  {
    var w := [INITIAL.a, INITIAL.b, INITIAL.c, INITIAL.d];
    WordBytes(w[0], 0x01, 0x23, 0x45, 0x67);
    WordBytes(w[1], 0x89, 0xab, 0xcd, 0xef);
    WordBytes(w[2], 0xfe, 0xdc, 0xba, 0x98);
    WordBytes(w[3], 0x76, 0x54, 0x32, 0x10);
    hide Bytes256;
  }

  /** The byte 0x80 behind the message, zeros, and the bit length modulo 2 to the 64 in the last
      eight bytes, the low byte first. */
  lemma PaddedBytes(m: seq<byte>)
    ensures var p, n := Padded(m), |m|;
      && n + 9 <= |p| && p[..n] == m && p[n] == 0x80
      && (forall k :: n < k < |p| - 8 ==> p[k] == 0)
      && forall j :: 0 <= j < 8 ==> p[|p| - 8 + j] == 8 * n % WORD2 / Bytes256(j) % 256
  {
    hide LittleEndian, Bytes256;
    forall j | 0 <= j < 8
      ensures Padded(m)[|Padded(m)| - 8 + j] == 8 * |m| % WORD2 / Bytes256(j) % 256
    {
      LittleEndianAt(8 * |m| % WORD2, 8, j);
    }
  }

  /** x modulo 64, from a quotient. */
  lemma Rest64(x: int, q: int, r: int)
    requires x == 64 * q + r && 0 <= r < 64
    ensures x % 64 == r && x / 64 == q
  {
  }

  lemma ZeroCountIs(n: nat)
    ensures ZeroCount(n) == if n % 64 < 56 then 55 - n % 64 else 119 - n % 64
  {
    var a, b := n / 64, n % 64;
    if b < 56 {
      Rest64(55 - n, -a, 55 - b);
    } else {
      Rest64(55 - n, -a - 1, 119 - b);
    }
  }

  /** Padding fills the last block. */
  lemma PaddedBlocks(m: seq<byte>)
    ensures |Padded(m)| % BLOCK == 0
    ensures |m| + 9 <= |Padded(m)| <= |m| + 72
  {
    var n := |m|;
    ZeroCountIs(n);
    var a, b, z := n / 64, n % 64, ZeroCount(n);
    hide ZeroCount;
    assert |Padded(m)| == n + 9 + z;
    hide Padded;
    Rest64(n + 9 + z, if b < 56 then a + 1 else a + 2, 0);
  }

  lemma {:induction false} LittleEndianInjective(a: nat, b: nat, k: nat)
    requires a < Bytes256(k) && b < Bytes256(k) && LittleEndian(a, k) == LittleEndian(b, k)
    ensures a == b
  {
    if k > 0 {
      assert LittleEndian(a, k)[0] == a % 256 && LittleEndian(b, k)[0] == b % 256;
      assert LittleEndian(a, k)[1..] == LittleEndian(a / 256, k - 1);
      assert LittleEndian(b, k)[1..] == LittleEndian(b / 256, k - 1);
      LittleEndianInjective(a / 256, b / 256, k - 1);
    }
  }

  function Bytes256(k: nat): (n: nat)
    ensures n > 0
  {
    if k == 0 then 1 else 256 * Bytes256(k - 1)
  }

  /** Messages of less than 2 to the 61 bytes are padded to different texts. */
  lemma PaddedInjective(m: seq<byte>, m': seq<byte>)
    requires 8 * |m| < WORD2 && 8 * |m'| < WORD2 && Padded(m) == Padded(m')
    ensures m == m'
  {
    PaddedEnd(m);
    PaddedEnd(m');
    hide *;
    EightBytes();
    LittleEndianInjective(8 * |m|, 8 * |m'|, 8);
    assert m == Padded(m)[..|m|] == Padded(m')[..|m'|] == m';
  }

  lemma PaddedEnd(m: seq<byte>)
    ensures var p := Padded(m);
      |p| >= 8 + |m| && p[|p| - 8..] == LittleEndian(8 * |m| % WORD2, 8) && p[..|m|] == m
    ensures 8 * |m| < WORD2 ==> 8 * |m| % WORD2 == 8 * |m|
  {
    hide LittleEndian, ZeroCount;
  }

  lemma EightBytes()
    ensures Bytes256(8) == WORD2
  {
    assert Bytes256(2) == 0x10000 && Bytes256(4) == 0x10000 * Bytes256(2);
    assert Bytes256(6) == 0x10000 * Bytes256(4) && Bytes256(8) == 0x10000 * Bytes256(6);
  }

  /** Blocks do not change when the message goes on. */
  lemma {:induction false} FoldPrefix(t: Transform, m: seq<byte>, x: seq<byte>, n: nat)
    requires BLOCK * n <= |m|
    ensures Fold(t, m + x, n) == Fold(t, m, n)
  {
    if n > 0 {
      FoldPrefix(t, m, x, n - 1);
      assert (m + x)[BLOCK * (n - 1)..BLOCK * n] == m[BLOCK * (n - 1)..BLOCK * n];
    }
  }

  // ---------- the count ----------

  /** The two words of the count hold the bit length modulo 2 to the 64. */
  predicate Counts(count0: Word, count1: Word, bytes: nat) {
    count0 + WORD * count1 == 8 * bytes % WORD2
  }

  lemma CountsIf(count0: Word, count1: Word, bytes: nat, q: int)
    requires 8 * bytes == WORD2 * q + WORD * count1 + count0
    ensures Counts(count0, count1, bytes)
  {
    var r := WORD * count1 + count0;
    assert 0 <= r < WORD2;
    Rest2(8 * bytes, q, r);
  }

  lemma Rest2(x: int, q: int, r: int)
    requires x == WORD2 * q + r && 0 <= r < WORD2
    ensures x % WORD2 == r && x / WORD2 == q
  {
  }

  lemma Rest1(x: int, q: int, r: int)
    requires x == WORD * q + r && 0 <= r < WORD
    ensures x % WORD == r && x / WORD == q
  {
  }

  /** (count[0] >> 3) & 0x3F */
  lemma CountIndex(count0: Word, count1: Word, bytes: nat)
    requires Counts(count0, count1, bytes)
    ensures count0 / 8 % 64 == bytes % 64
  {
    var q := 8 * bytes / WORD2;
    var k := bytes - WORD2 / 8 * q - WORD / 8 * count1;
    assert 8 * bytes == WORD2 * q + (WORD * count1 + count0);
    assert count0 == 8 * k;
    var a, b := k / 64, k % 64;
    Rest64(bytes, WORD2 / 512 * q + WORD / 512 * count1 + a, b);
  }

  /** The addition of len bytes with its carry. */
  lemma CountAdd(count0: Word, count1: Word, bytes: nat, len: nat)
    requires Counts(count0, count1, bytes) && len < WORD
    ensures var low := len * 8 % WORD; var sum := (count0 + low) % WORD;
      Counts(sum, (count1 + (if sum < low then 1 else 0) + len / 0x2000_0000) % WORD, bytes + len)
  {
    var q := 8 * bytes / WORD2;
    var high := len / 0x2000_0000;
    var low := len - 0x2000_0000 * high;
    Rest1(len * 8, high, low * 8);
    var sum, carry := (count0 + low * 8) % WORD, if count0 + low * 8 < WORD then 0 else 1;
    Rest1(count0 + low * 8, carry, count0 + low * 8 - WORD * carry);
    assert sum < low * 8 <==> carry == 1;
    var top := count1 + carry + high;
    var c, t := top / WORD, top % WORD;
    assert top == WORD * c + t;
    CountsIf(sum, t, bytes + len, q + c);
  }

  lemma AddTwice(x: Word, h: nat)
    ensures ((x + 1) % WORD + h) % WORD == (x + 1 + h) % WORD
  {
    var q, r := (x + 1 + h) / WORD, (x + 1 + h) % WORD;
    if x + 1 == WORD {
      Rest1(h, q - 1, r);
    }
  }

  // ---------- the loop over whole blocks ----------

  /** The test i + 63 < inputLen in 32-bit arithmetic. */
  predicate Goes(i: nat, inputLen: nat) {
    (i + 63) % WORD < inputLen
  }

  /** Where the loop over whole blocks ends. */
  function LoopEnd(index: nat, inputLen: nat): nat
    requires index < 64
  {
    if inputLen < 64 - index then 0 else inputLen - (index + inputLen) % 64
  }

  lemma FirstEnd(index: nat, inputLen: nat)
    requires index < 64 && 64 - index <= inputLen
    ensures 64 - index <= LoopEnd(index, inputLen) <= inputLen
  {
  }

  lemma EndInBlock(index: nat, inputLen: nat)
    requires index < 64 && 64 - index <= inputLen
    ensures inputLen - LoopEnd(index, inputLen) < 64
  {
  }

  /** The sum i + 63 does not wrap before the loop has passed its end, if and only if the bytes
      that are buffered and the new ones are fewer than 2 to the 32. */
  lemma GoesExactly(index: nat, inputLen: nat, i: nat)
    requires index < 64 && 64 - index <= inputLen < WORD && index + inputLen < WORD
    requires 64 - index <= i <= LoopEnd(index, inputLen) && (index + i) % 64 == 0
    ensures Goes(i, inputLen) <==> i < LoopEnd(index, inputLen)
    ensures i < LoopEnd(index, inputLen) ==> i + 64 <= LoopEnd(index, inputLen)
  {
    var a, b := (index + i) / 64, (index + inputLen) / 64;
    assert index + i == 64 * a && LoopEnd(index, inputLen) == 64 * b - index;
    assert i + 63 < WORD;
  }

  /** Otherwise the test never fails, whatever i has become, and the loop does not end. */
  lemma NeverStops(index: nat, inputLen: nat, i: nat)
    requires index < 64 && inputLen < WORD && index + inputLen >= WORD
    requires i < WORD && (index + i) % 64 == 0
    ensures Goes(i, inputLen) && (index + (i + 64) % WORD) % 64 == 0
  {
    var a := (index + i) / 64;
    assert i == 64 * a - index && index > 0;
    if i + 63 < WORD {
      assert a <= WORD / 64 - 1 + 1;
      assert i + 63 < inputLen;
    } else {
      Rest1(i + 63, 1, i + 63 - WORD);
    }
    if i + 64 >= WORD {
      Rest1(i + 64, 1, i + 64 - WORD);
      Rest64(index + (i + 64 - WORD), a + 1 - WORD / 64, 0);
    } else {
      Rest64(index + i + 64, a + 1, 0);
    }
  }

  // ---------- the context ----------

  /** How a message that went on fills the block that was begun. */
  lemma FirstBlock(m: seq<byte>, x: seq<byte>)
    requires |m| % BLOCK + |x| >= BLOCK
    ensures var n, part := |m| / BLOCK, BLOCK - |m| % BLOCK;
      BLOCK * n <= |m| && BLOCK * (n + 1) == |m| + part && BLOCK * (n + 1) <= |m + x| &&
      (m + x)[BLOCK * n..BLOCK * (n + 1)] == m[BLOCK * n..] + x[..part]
  {
    assert |m| == BLOCK * (|m| / BLOCK) + |m| % BLOCK;
  }

  /** The whole blocks of a message that went on by i bytes are followed by the other new bytes. */
  lemma BehindBlocks(m: seq<byte>, x: seq<byte>, i: nat)
    requires i <= |x| && BLOCK * (|m + x| / BLOCK) == |m| + i
    ensures |m + x| % BLOCK == |x| - i && (m + x)[BLOCK * (|m + x| / BLOCK)..] == x[i..]
  {
  }

  /** A message that stays inside the block that was begun. */
  lemma InsideBlock(m: seq<byte>, x: seq<byte>)
    requires |m| % BLOCK + |x| < BLOCK
    ensures |m + x| / BLOCK == |m| / BLOCK && |m + x| % BLOCK == |m| % BLOCK + |x| && BLOCK * (|m| / BLOCK) <= |m|
    ensures (m + x)[BLOCK * (|m| / BLOCK)..] == m[BLOCK * (|m| / BLOCK)..] + x
    ensures forall t: Transform :: Fold(t, m + x, |m| / BLOCK) == Fold(t, m, |m| / BLOCK)
  {
    Rest64(|m + x|, |m| / BLOCK, |m| % BLOCK + |x|);
    forall t: Transform
      ensures Fold(t, m + x, |m| / BLOCK) == Fold(t, m, |m| / BLOCK)
    {
      FoldPrefix(t, m, x, |m| / BLOCK);
    }
  }

  // ---------- padding ----------

  const PADDING: seq<byte> := [0x80] + Zeros(63)

  /** h behind k bytes. */
  function Above(h: nat, k: nat): nat {
    if k == 0 then h else 256 * Above(h, k - 1)
  }

  lemma {:induction false} LittleEndianSplit(low: nat, high: nat, k: nat, n: nat)
    requires low < Bytes256(k)
    ensures LittleEndian(low + Above(high, k), k + n) == LittleEndian(low, k) + LittleEndian(high, n)
  {
    if k > 0 {
      var x := low + Above(high, k);
      assert x % 256 == low % 256 && x / 256 == low / 256 + Above(high, k - 1);
      LittleEndianSplit(low / 256, high, k - 1, n);
    }
  }

  /** The length of the padding that MD5Final computes. */
  function PadLength(index: nat): nat
    requires index < 64
  {
    if index < 56 then 56 - index else 120 - index
  }

  /** What MD5Final appends is the padding of the standard. */
  lemma PaddingIs(m: seq<byte>, count0: Word, count1: Word)
    requires Counts(count0, count1, |m|)
    ensures var pad, bits := PADDING[..PadLength(|m| % 64)], LittleEndian(count0, 4) + LittleEndian(count1, 4);
      m + pad + bits == Padded(m)
  {
    hide *;
    var z := ZeroCount(|m|);
    PadLengthIs(|m|);
    CountsIs(count0, count1, |m|);
    PaddingPrefix(z);
    CountBytes(count0, count1);
    PaddedParts(m);
  }

  lemma PadLengthIs(n: nat)
    ensures PadLength(n % 64) == 1 + ZeroCount(n) && ZeroCount(n) < 64
  {
    ZeroCountIs(n);
    hide ZeroCount;
  }

  lemma CountsIs(count0: Word, count1: Word, bytes: nat)
    requires Counts(count0, count1, bytes)
    ensures count0 + WORD * count1 == 8 * bytes % WORD2
  {
  }

  lemma PaddedParts(m: seq<byte>)
    ensures Padded(m) == m + ([0x80] + Zeros(ZeroCount(|m|))) + LittleEndian(8 * |m| % WORD2, 8)
  {
    hide LittleEndian, ZeroCount;
    assert m + [0x80] + Zeros(ZeroCount(|m|)) == m + ([0x80] + Zeros(ZeroCount(|m|)));
  }

  lemma PaddingPrefix(z: nat)
    requires z < 64
    ensures PADDING[..1 + z] == [0x80] + Zeros(z)
  {
  }

  /** Both words of the count, one behind the other, are the count. */
  lemma CountBytes(count0: Word, count1: Word)
    ensures LittleEndian(count0, 4) + LittleEndian(count1, 4) == LittleEndian(count0 + WORD * count1, 8)
  {
    assert Bytes256(2) == 0x10000 && Bytes256(4) == 0x10000 * Bytes256(2);
    assert Above(count1, 1) == 256 * count1 && Above(count1, 2) == 256 * Above(count1, 1);
    assert Above(count1, 3) == 256 * Above(count1, 2) && Above(count1, 4) == 256 * Above(count1, 3);
    hide LittleEndian, Bytes256, Above;
    LittleEndianSplit(count0, count1, 4, 4);
  }

  lemma DigestIs(t: Transform, m: seq<byte>)
    ensures BLOCK * (|Padded(m)| / BLOCK) <= |Padded(m)|
    ensures Digest(t, m) == Output(Fold(t, Padded(m), |Padded(m)| / BLOCK))
  {
  }

  /** A block that lies in the input. */
  lemma InputBlock(m: seq<byte>, x: seq<byte>, i: nat, n: nat)
    requires BLOCK * n == |m| + i && i + BLOCK <= |x|
    ensures BLOCK * (n + 1) <= |m + x| && (m + x)[BLOCK * n..BLOCK * (n + 1)] == x[i..i + BLOCK]
  {
    assert BLOCK * (n + 1) == BLOCK * n + BLOCK;
  }

  class Context {
    const transform: Transform
    var state: State
    var count0: Word
    var count1: Word
    var buffer: array<byte>
    ghost var message: seq<byte>  // everything that was passed to Update

    /** The state has absorbed the whole blocks of the message and the buffer begins with the rest. */
    ghost predicate Valid()
      reads this, buffer
    {
      buffer.Length == BLOCK && Counts(count0, count1, |message|) &&
      BLOCK * (|message| / BLOCK) <= |message| && state == Fold(transform, message, |message| / BLOCK) &&
      buffer[..|message| % BLOCK] == message[BLOCK * (|message| / BLOCK)..]
    }

    /** MD5Init. */
    constructor (transform: Transform)
      ensures Valid() && fresh(buffer) && message == [] && this.transform == transform
    {
      this.transform := transform;
      count0, count1 := 0, 0;
      state := INITIAL;
      buffer := new byte[BLOCK];
      message := [];
    }

    /** memcpy into the buffer. */
    method Copy(at: nat, input: seq<byte>, i: nat, n: nat)
      requires buffer.Length == BLOCK && at + n <= BLOCK && i + n <= |input|
      modifies buffer
      ensures buffer[..at + n] == old(buffer[..at]) + input[i..i + n]
    {
      var k := 0;
      while k < n
        invariant k <= n && buffer[..at + k] == old(buffer[..at]) + input[i..i + k]
      {
        buffer[at + k] := input[i + k];
        k := k + 1;
      }
    }

    /** The bit count of MD5Update. */
    method Count(inputLen: nat)
      requires inputLen < WORD && Counts(count0, count1, |message|)
      modifies this`count0, this`count1
      ensures Counts(count0, count1, |message| + inputLen)
    {
      CountAdd(count0, count1, |message|, inputLen);
      AddTwice(count1, inputLen / 0x2000_0000);
      hide Counts;
      var low := inputLen * 8 % WORD;
      count0 := (count0 + low) % WORD;
      if count0 < low {
        count1 := (count1 + 1) % WORD;
      }
      count1 := (count1 + inputLen / 0x2000_0000) % WORD;
    }

    /** The buffered bytes are completed to a block, which is transformed. */
    method FillBlock(input: seq<byte>, index: nat)
      requires buffer.Length == BLOCK && index == |message| % BLOCK && BLOCK - index <= |input|
      requires state == Fold(transform, message, |message| / BLOCK)
      requires buffer[..index] == message[BLOCK * (|message| / BLOCK)..]
      modifies this`state, buffer
      ensures var n := |message| / BLOCK + 1;
        BLOCK * n == |message| + BLOCK - index && BLOCK * n <= |message + input| &&
        state == Fold(transform, message + input, n)
    {
      FirstBlock(message, input);
      FoldPrefix(transform, message, input, |message| / BLOCK);
      Copy(index, input, 0, BLOCK - index);
      assert buffer[..] == buffer[..BLOCK];
      state := transform(state, buffer[..]);
    }

    /** The blocks of MD5Update: the one that was begun, and those that lie in the input. */
    method Absorb(input: seq<byte>, index: nat) returns (i: nat)
      requires buffer.Length == BLOCK && index == |message| % BLOCK && BLOCK - index <= |input|
      requires index + |input| < WORD
      requires state == Fold(transform, message, |message| / BLOCK)
      requires buffer[..index] == message[BLOCK * (|message| / BLOCK)..]
      modifies this`state, buffer
      ensures i == LoopEnd(index, |input|) <= |input|
      ensures var m := message + input;
        BLOCK * (|m| / BLOCK) == |message| + i && state == Fold(transform, m, |m| / BLOCK)
    {
      hide Goes, LoopEnd;
      ghost var m := message + input;
      FillBlock(input, index);
      var partLen := BLOCK - index;
      i := partLen;
      ghost var n := |message| / BLOCK + 1;
      Rest64(index + i, 1, 0);
      FirstEnd(index, |input|);
      while Goes(i, |input|)
        invariant partLen <= i <= LoopEnd(index, |input|) && (index + i) % 64 == 0
        invariant BLOCK * n == |message| + i && state == Fold(transform, m, n)
        decreases |input| - i
      {
        GoesExactly(index, |input|, i);
        InputBlock(message, input, i, n);
        state := transform(state, input[i..i + BLOCK]);
        i := i + BLOCK;
        n := n + 1;
        Rest64(index + i, (index + i) / 64, 0);
      }
      GoesExactly(index, |input|, i);
      EndInBlock(index, |input|);
      Rest64(|m|, n, |m| - BLOCK * n);
    }

    /** The last bytes of the input, which do not fill a block. */
    method CopyRest(at: nat, input: seq<byte>, i: nat)
      requires buffer.Length == BLOCK && i <= |input| && at + (|input| - i) < BLOCK
      modifies buffer
      ensures buffer[..at + (|input| - i)] == old(buffer[..at]) + input[i..]
    {
      assert input[i..i + (|input| - i)] == input[i..];
      Copy(at, input, i, |input| - i);
    }

    /** MD5Update. */
    method Update(input: seq<byte>)
      requires Valid() && |message| % BLOCK + |input| < WORD
      modifies this, buffer
      ensures Valid() && buffer == old(buffer) && message == old(message) + input
    {
      hide Counts, Fold, LoopEnd;
      CountIndex(count0, count1, |message|);
      var index := count0 / 8 % 64;
      Count(|input|);
      var i := 0;
      if |input| >= BLOCK - index {
        i := Absorb(input, index);
        BehindBlocks(message, input, i);
        index := 0;
      } else {
        InsideBlock(message, input);
      }
      CopyRest(index, input, i);
      message := message + input;
    }

    /** MD5Final: the digest of the whole message; the context is wiped. */
    method Final(digest: array<byte>)
      requires Valid() && digest.Length == 16 && digest != buffer
      modifies this, buffer, digest
      ensures digest[..] == Digest(transform, old(message))
      ensures var p := Padded(old(message)); var s := Fold(transform, p, |p| / BLOCK);
        LowBytesFirst(digest[..], [s.a, s.b, s.c, s.d])
      ensures state == State(0, 0, 0, 0) && count0 == 0 && count1 == 0
      ensures buffer == old(buffer) && forall k :: 0 <= k < buffer.Length ==> buffer[k] == 0
    {
      hide *;
      Pad();
      PaddedBlocks(old(message));
      var output := Output(state);
      OutputBytes(state);
      StateIs();
      assert output == Digest(transform, old(message)) by { DigestIs(transform, old(message)); }
      Store(digest, output);
      Wipe();
    }

    lemma StateIs()
      requires Valid()
      ensures BLOCK * (|message| / BLOCK) <= |message| && state == Fold(transform, message, |message| / BLOCK)
    {
    }

    /** The padding and the count, passed to MD5Update. */
    method Pad()
      requires Valid()
      modifies this, buffer
      ensures Valid() && buffer == old(buffer) && message == Padded(old(message))
    {
      ghost var m := message;
      var bits := LittleEndian(count0, 4) + LittleEndian(count1, 4);
      CountIndex(count0, count1, |m|);
      PaddingIs(m, count0, count1);
      var index := count0 / 8 % 64;
      var padLen := PadLength(index);
      var pad := PADDING[..padLen];
      assert |pad| <= 64 && |bits| == 8;
      hide *;
      Update(pad);
      Update(bits);
    }

    method Store(digest: array<byte>, output: seq<byte>)
      requires digest.Length == |output|
      modifies digest
      ensures digest[..] == output
    {
      var k := 0;
      while k < |output|
        invariant k <= |output| && digest[..k] == output[..k]
      {
        digest[k] := output[k];
        k := k + 1;
      }
    }

    method Wipe()
      modifies this, buffer
      ensures state == State(0, 0, 0, 0) && count0 == 0 && count1 == 0
      ensures buffer == old(buffer) && forall k :: 0 <= k < buffer.Length ==> buffer[k] == 0
    {
      state, count0, count1, message := State(0, 0, 0, 0), 0, 0, [];
      var k := 0;
      while k < buffer.Length
        modifies buffer
        invariant k <= buffer.Length && forall j :: 0 <= j < k ==> buffer[j] == 0
      {
        buffer[k] := 0;
        k := k + 1;
      }
    }
  }

  // ---------- messages in one and in many pieces ----------

  /** MDString. */
  method MDString(transform: Transform, text: seq<byte>, digest: array<byte>)
    requires |text| < 0x8000_0000 && digest.Length == 16
    modifies digest
    ensures digest[..] == Digest(transform, text)
    ensures var p := Padded(text); var s := Fold(transform, p, |p| / BLOCK);
      LowBytesFirst(digest[..], [s.a, s.b, s.c, s.d])
  {
    var context := new Context(transform);
    context.Update(text);
    assert context.message == text;
    context.Final(digest);
  }

  /** However a message is cut into pieces, each shorter than 2 to the 32 less 63, its digest is
      that of the message. */
  method DigestInParts(transform: Transform, parts: seq<seq<byte>>, digest: array<byte>)
    requires forall k :: 0 <= k < |parts| ==> |parts[k]| < WORD - 63
    requires digest.Length == 16
    modifies digest
    ensures digest[..] == Digest(transform, Concat(parts))
  {
    var context := new Context(transform);
    var k := 0;
    while k < |parts|
      invariant k <= |parts| && context.Valid() && fresh(context) && fresh(context.buffer)
      invariant context.message == Concat(parts[..k]) && context.transform == transform
    {
      context.Update(parts[k]);
      ConcatLast(parts, k);
      k := k + 1;
    }
    assert parts[..k] == parts;
    context.Final(digest);
  }
}
