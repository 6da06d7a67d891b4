/** Bytes, bits and the two bit orders DEFLATE uses: plain numbers are stored least
    significant bit first, Huffman codes most significant bit first (section 3.1.1 of RFC 1951). */
module Bits {

  type bit = b: int | 0 <= b < 2
  type byte = b: int | 0 <= b < 256

  function Pow2(n: nat): (p: nat)
    ensures p >= 1
  {
    if n == 0 then 1 else 2 * Pow2(n - 1)
  }

  lemma Pow2Monotone(a: nat, b: nat)
    requires a <= b
    ensures Pow2(a) <= Pow2(b)
  {
    if a < b {
      Pow2Monotone(a, b - 1);
    }
  }

  /** q shifted left by i bits. */
  function Shl(q: nat, i: nat): nat
    decreases i
  {
    if i == 0 then q else 2 * Shl(q, i - 1)
  }

  /** x shifted right by i bits. */
  function Shr(x: nat, i: nat): (r: nat)
    ensures r <= x
    decreases i
  {
    if i == 0 then x else Shr(x / 2, i - 1)
  }

  lemma ShrHalf(x: nat, i: nat)
    ensures Shr(x, i) / 2 == Shr(x, i + 1)
    decreases i
  {
    if i > 0 {
      ShrHalf(x / 2, i - 1);
    }
  }

  lemma ShrBound(x: nat, i: nat)
    requires x < Pow2(i)
    ensures Shr(x, i) == 0
    decreases i
  {
    if i > 0 {
      ShrBound(x / 2, i - 1);
    }
  }

  /** A byte buffer as the bits it holds, from the least significant bit of byte 0 on. */
  function BitsOf(data: seq<byte>): (bits: seq<bit>)
    ensures |bits| == 8 * |data|
    ensures forall k :: 0 <= k < |bits| ==> bits[k] == Shr(data[k / 8], k % 8) % 2
  {
    seq(8 * |data|, k requires 0 <= k < 8 * |data| => Shr(data[k / 8], k % 8) % 2)
  }

  /** The bits s stand at position bp. */
  predicate BitsAt(bits: seq<bit>, bp: nat, s: seq<bit>) {
    bp + |s| <= |bits| && bits[bp..bp + |s|] == s
  }

  lemma BitsAtSplit(bits: seq<bit>, bp: nat, a: seq<bit>, b: seq<bit>)
    ensures BitsAt(bits, bp, a + b) <==> BitsAt(bits, bp, a) && BitsAt(bits, bp + |a|, b)
  {
    if bp + |a + b| <= |bits| {
      var s := bits[bp..bp + |a + b|];
      assert s[..|a|] == bits[bp..bp + |a|] && s[|a|..] == bits[bp + |a|..bp + |a| + |b|];
      assert s == s[..|a|] + s[|a|..];
      assert (a + b)[..|a|] == a && (a + b)[|a|..] == b;
    }
  }

  lemma SliceOfSlice<T>(s: seq<T>, a: nat, b: nat, c: nat, d: nat)
    requires a <= b <= |s| && c <= d <= b - a
    ensures s[a..b][c..d] == s[a + c..a + d]
  {
    var t := s[a..b];
    assert forall k :: c <= k < d ==> t[k] == s[a + k];
  }

  /** Bits a decoder may look at past the end of its input before it notices, in bytes. */
  const SLACK := 7

  /** A compressed input: the bits of its buffer and how many bytes count as input. */
  datatype Source = Source(bits: seq<bit>, inlength: nat) {
    predicate Padded() {
      |bits| >= 8 * (inlength + SLACK)
    }

    /** Furthest bit position the decoder ever reaches. */
    function Limit(): nat {
      8 * (inlength + SLACK)
    }

    /** The end-of-input test made before each bit of a symbol. */
    predicate PastEnd(bp: nat) {
      bp % 8 == 0 && bp / 8 > inlength
    }

    lemma InsideLimit(bp: nat)
      requires bp <= 8 * inlength
      ensures bp <= Limit()
    {
    }

    lemma InsideIsNotPastEnd(bp: nat)
      requires bp < 8 * (inlength + 1)
      ensures !PastEnd(bp) && bp <= Limit()
    {
    }
  }

  // ----- Numbers, least significant bit first

  /** The number in the n bits from bp on, least significant bit first. */
  function ValueAt(bits: seq<bit>, bp: nat, n: nat): (v: nat)
    requires bp + n <= |bits|
    ensures v < Pow2(n)
    decreases |bits|, n
  {
    if n == 0 then 0 else bits[bp] + 2 * ValueAt(bits, bp + 1, n - 1)
  }

  /** The n low bits of v, least significant first. */
  function LsbFirst(v: nat, n: nat): (s: seq<bit>)
    ensures |s| == n
  {
    seq(n, i requires 0 <= i < n => Shr(v, i) % 2)
  }

  /** Reading back a number of n bits gives the number that was written. */
  lemma {:induction false} ValueOfLsbFirst(bits: seq<bit>, bp: nat, v: nat, n: nat)
    requires BitsAt(bits, bp, LsbFirst(v, n))
    requires v < Pow2(n)
    ensures ValueAt(bits, bp, n) == v
    decreases n
  {
    if n > 0 {
      var s := bits[bp..bp + n];
      assert s[0] == LsbFirst(v, n)[0] == v % 2;
      assert s[1..] == bits[bp + 1..bp + n];
      assert LsbFirst(v, n)[1..] == LsbFirst(v / 2, n - 1);
      ValueOfLsbFirst(bits, bp + 1, v / 2, n - 1);
    }
  }

  /** What bit b contributes at position n. */
  function Weighted(b: bit, n: nat): nat {
    if b == 0 then 0 else Pow2(n)
  }

  /** One more bit is the next more significant one. */
  lemma {:induction false} ValueAtSnoc(bits: seq<bit>, bp: nat, n: nat)
    requires bp + n < |bits|
    ensures ValueAt(bits, bp, n + 1) == ValueAt(bits, bp, n) + Weighted(bits[bp + n], n)
    decreases n
  {
    if n > 0 {
      ValueAtSnoc(bits, bp + 1, n - 1);
      assert bp + 1 + (n - 1) == bp + n;
    }
  }

  /** From bit i on, an aligned byte is what is left of it after i shifts. */
  lemma {:induction false} ValueFromBit(data: seq<byte>, p: nat, i: nat)
    requires p < |data| && i <= 8
    ensures ValueAt(BitsOf(data), 8 * p + i, 8 - i) == Shr(data[p], i)
    decreases 8 - i
  {
    if i < 8 {
      ValueFromBit(data, p, i + 1);
      ShrHalf(data[p], i);
      assert (8 * p + i) / 8 == p && (8 * p + i) % 8 == i;
    } else {
      assert Pow2(8) == 256;
      ShrBound(data[p], 8);
    }
  }

  /** An aligned byte is the number in its eight bits. */
  lemma ValueOfByte(data: seq<byte>, p: nat)
    requires p < |data|
    ensures ValueAt(BitsOf(data), 8 * p, 8) == data[p]
  {
    ValueFromBit(data, p, 0);
  }

  // ----- Huffman codes, most significant bit first

  /** The len low bits of c, most significant first. */
  function MsbFirst(c: nat, len: nat): (s: seq<bit>)
    ensures |s| == len
  {
    if len == 0 then [] else MsbFirst(c / 2, len - 1) + [c % 2]
  }

  /** Bit i of a code is the one a right shift by len - i - 1 brings to the bottom. */
  lemma {:induction false} MsbFirstBit(c: nat, len: nat, i: nat)
    requires i < len
    ensures MsbFirst(c, len)[i] == Shr(c, len - i - 1) % 2
    decreases len
  {
    if i < len - 1 {
      MsbFirstBit(c / 2, len - 1, i);
    }
  }

  /** The first k bits of a code are the code shifted right. */
  lemma {:induction false} MsbFirstPrefix(c: nat, len: nat, k: nat)
    requires k <= len
    ensures MsbFirst(c, len)[..k] == MsbFirst(Shr(c, len - k), k)
    decreases len
  {
    if k < len {
      MsbFirstPrefix(c / 2, len - 1, k);
      assert MsbFirst(c, len)[..k] == MsbFirst(c / 2, len - 1)[..k];
    }
  }

  /** Bits above the code length do not matter. */
  lemma {:induction false} MsbFirstModulo(c: nat, len: nat, q: nat)
    ensures MsbFirst(c + Shl(q, len), len) == MsbFirst(c, len)
  {
    if len > 0 {
      assert (c + Shl(q, len)) / 2 == c / 2 + Shl(q, len - 1);
      MsbFirstModulo(c / 2, len - 1, q);
    }
  }

  lemma MsbFirstInjective(c: nat, d: nat, len: nat)
    requires c < Pow2(len) && d < Pow2(len)
    requires MsbFirst(c, len) == MsbFirst(d, len)
    ensures c == d
  {
    if len > 0 {
      var x, y := MsbFirst(c, len), MsbFirst(d, len);
      assert x[..len - 1] == MsbFirst(c / 2, len - 1) && y[..len - 1] == MsbFirst(d / 2, len - 1);
      assert x[len - 1] == c % 2 && y[len - 1] == d % 2;
      MsbFirstInjective(c / 2, d / 2, len - 1);
    }
  }

  // ----- Packing bits into bytes

  /** The number whose bits, least significant first, are s. */
  function LsbNumber(s: seq<bit>): (v: nat)
    ensures v < Pow2(|s|)
  {
    if s == [] then 0 else s[0] + 2 * LsbNumber(s[1..])
  }

  lemma LsbNumberBit(s: seq<bit>, i: nat)
    requires i < |s|
    ensures Shr(LsbNumber(s), i) % 2 == s[i]
    decreases i
  {
    assert LsbNumber(s) / 2 == LsbNumber(s[1..]);
    if i > 0 {
      LsbNumberBit(s[1..], i - 1);
    }
  }

  /** The bits that go into byte i. */
  function Chunk(s: seq<bit>, i: nat): (c: seq<bit>)
    requires 8 * i <= |s|
    ensures |c| <= 8
  {
    if 8 * i + 8 <= |s| then s[8 * i..8 * i + 8] else s[8 * i..]
  }

  function PackedByte(s: seq<bit>, i: nat): byte
    requires 8 * i <= |s|
  {
    var c := Chunk(s, i);
    Pow2Monotone(|c|, 8);
    assert Pow2(8) == 256;
    LsbNumber(c)
  }

  /** Bits packed into bytes, least significant bit first, the last byte padded with zeros. */
  function Pack(s: seq<bit>): (data: seq<byte>)
    ensures |data| == (|s| + 7) / 8
  {
    seq((|s| + 7) / 8, i requires 0 <= i < (|s| + 7) / 8 => PackedByte(s, i))
  }

  /** A packed buffer, whatever follows it, carries the bits it was made from. */
  lemma PackCarries(s: seq<bit>, rest: seq<byte>)
    ensures BitsAt(BitsOf(Pack(s) + rest), 0, s)
  {
    var bits := BitsOf(Pack(s) + rest);
    forall k | 0 <= k < |s| ensures bits[k] == s[k] {
      PackedBit(s, rest, k);
    }
  }

  lemma PackedBit(s: seq<bit>, rest: seq<byte>, k: nat)
    requires k < |s|
    ensures BitsOf(Pack(s) + rest)[k] == s[k]
  {
    var i, j := k / 8, k % 8;
    assert (Pack(s) + rest)[i] == PackedByte(s, i);
    LsbNumberBit(Chunk(s, i), j);
    assert Chunk(s, i)[j] == s[8 * i + j];
  }
}
