/** Removing the padding bits at the end of the scanlines of images with less than 8 bits a pixel. Bits of an
    image are counted from the most significant bit of each byte. */
module PaddingBits {
  import opened Bits
  import opened Offsets

  /** A buffer as the bits it holds, most significant bit of byte 0 first. */
  function ImageBits(data: seq<byte>): (bits: seq<bit>)
    ensures |bits| == 8 * |data|
    ensures forall k :: 0 <= k < |bits| ==> bits[k] == Shr(data[k / 8], 7 - k % 8) % 2
  {
    seq(8 * |data|, k requires 0 <= k < 8 * |data| => Shr(data[k / 8], 7 - k % 8) % 2)
  }

  /** x with bit s set to v: the source clears it with a mask or sets it with an or. */
  function SetBit(x: nat, s: nat, v: bit): (r: nat)
    decreases s
  {
    if s == 0 then 2 * (x / 2) + v else 2 * SetBit(x / 2, s - 1, v) + x % 2
  }

  lemma {:induction false} SetBitBound(x: nat, s: nat, v: bit, n: nat)
    requires x < Pow2(n) && s < n
    ensures SetBit(x, s, v) < Pow2(n)
    decreases n
  {
    if s > 0 {
      SetBitBound(x / 2, s - 1, v, n - 1);
    }
  }

  /** Setting a bit changes that bit and no other. */
  lemma {:induction false} SetBitAt(x: nat, s: nat, v: bit, t: nat)
    ensures Shr(SetBit(x, s, v), t) % 2 == if t == s then v else Shr(x, t) % 2
    decreases s
  {
    if s > 0 && t > 0 {
      SetBitAt(x / 2, s - 1, v, t - 1);
    }
  }

  /** Clearing or setting one bit by masks: what &= ~(1 << s) and |= 1 << s do to a byte. */
  lemma {:induction false} SetBitIsMask(x: nat, s: nat, v: bit)
    ensures SetBit(x, s, v) == x - Weighted(Shr(x, s) % 2, s) + Weighted(v, s)
    decreases s
  {
    if s > 0 {
      SetBitIsMask(x / 2, s - 1, v);
    }
  }

  lemma SetImageBit(data: seq<byte>, k: nat, v: bit)
    requires k < 8 * |data|
    ensures SetBit(data[k / 8], 7 - k % 8, v) < 256
    ensures ImageBits(data[k / 8 := SetBit(data[k / 8], 7 - k % 8, v)]) == ImageBits(data)[k := v]
  {
    assert Pow2(8) == 256;
    SetBitBound(data[k / 8], 7 - k % 8, v, 8);
    hide SetBit, Shr, Pow2;
    var data' := data[k / 8 := SetBit(data[k / 8], 7 - k % 8, v)];
    var r, s := ImageBits(data'), ImageBits(data)[k := v];
    forall i | 0 <= i < |r| ensures r[i] == s[i] {
      if i / 8 == k / 8 {
        SetBitAt(data[k / 8], 7 - k % 8, v, 7 - i % 8);
      }
    }
  }

  /** The rows of a padded image without their padding: the first olinebits of every ilinebits. */
  function Unpadded(bits: seq<bit>, olinebits: nat, ilinebits: nat, h: nat): (r: seq<bit>)
    requires olinebits <= ilinebits && Offset(ilinebits, h) <= |bits|
    ensures |r| == Offset(olinebits, h)
  {
    if h == 0 then []
    else
      Unpadded(bits, olinebits, ilinebits, h - 1) + bits[Offset(ilinebits, h - 1)..Offset(ilinebits, h - 1) + olinebits]
  }

  /** Bit x of row y of the packed image is bit x of row y of the padded one. */
  lemma {:induction false} UnpaddedBit(bits: seq<bit>, olinebits: nat, ilinebits: nat, h: nat, x: nat, y: nat)
    requires olinebits <= ilinebits && ilinebits * h <= |bits| && x < olinebits && y < h
    ensures Offset(ilinebits, h) == ilinebits * h
    ensures olinebits * y + x < Offset(olinebits, h) && ilinebits * y + x < |bits|
    ensures Unpadded(bits, olinebits, ilinebits, h)[olinebits * y + x] == bits[ilinebits * y + x]
  {
    OffsetIsProduct(ilinebits, h);
    OffsetIsProduct(ilinebits, y);
    OffsetIsProduct(olinebits, y);
    UnpaddedBitAt(bits, olinebits, ilinebits, h, x, y);
  }

  lemma {:induction false} UnpaddedBitAt(bits: seq<bit>, olinebits: nat, ilinebits: nat, h: nat, x: nat, y: nat)
    requires olinebits <= ilinebits && Offset(ilinebits, h) <= |bits| && x < olinebits && y < h
    ensures Offset(olinebits, y) + x < Offset(olinebits, h) && Offset(ilinebits, y) + x < |bits|
    ensures Unpadded(bits, olinebits, ilinebits, h)[Offset(olinebits, y) + x] == bits[Offset(ilinebits, y) + x]
    decreases h
  {
    if y < h - 1 {
      UnpaddedBitAt(bits, olinebits, ilinebits, h - 1, x, y);
    }
  }

  /** Bit k of a buffer. */
  method ReadImageBit(data: array<byte>, k: nat) returns (b: bit)
    requires k < 8 * data.Length
    ensures b == ImageBits(data[..])[k]
  {
    b := Shr(data[k / 8], 7 - k % 8) % 2;
  }

  /** Clear or set bit k of a buffer. */
  method WriteImageBit(data: array<byte>, k: nat, v: bit)
    requires k < 8 * data.Length
    modifies data
    ensures ImageBits(data[..]) == ImageBits(old(data[..]))[k := v]
  {
    hide ImageBits, SetBit;
    SetImageBit(data[..], k, v);
    ghost var before := data[..];
    data[k / 8] := SetBit(data[k / 8], 7 - k % 8, v);
    assert data[..] == before[k / 8 := SetBit(before[k / 8], 7 - k % 8, v)];
  }

  /** The bits of a buffer in which head and then x bits of source from ibp on have replaced what was there before. */
  ghost predicate Moved(now: seq<bit>, head: seq<bit>, source: seq<bit>, ibp: nat, x: nat, before: seq<bit>)
    requires ibp + x <= |source| && |head| + x <= |before|
  {
    now == head + source[ibp..ibp + x] + before[|head| + x..]
  }

  lemma NoneMoved(now: seq<bit>, head: seq<bit>, source: seq<bit>, ibp: nat, before: seq<bit>)
    requires ibp <= |source| && |head| <= |before|
    ensures Moved(now, head, source, ibp, 0, before) <==> now == head + before[|head|..]
  {
    assert head + source[ibp..ibp] == head;
  }

  lemma OneMoreBit(now: seq<bit>, head: seq<bit>, source: seq<bit>, ibp: nat, x: nat, before: seq<bit>)
    requires ibp + x < |source| && |head| + x < |before| && Moved(now, head, source, ibp, x, before)
    ensures |now| == |before| && Moved(now[|head| + x := source[ibp + x]], head, source, ibp, x + 1, before)
  {
    assert source[ibp..ibp + x + 1] == source[ibp..ibp + x] + [source[ibp + x]];
  }

  /** Bits not reached yet are still there. */
  lemma NotYetWritten(now: seq<bit>, head: seq<bit>, source: seq<bit>, ibp: nat, x: nat, before: seq<bit>, k: nat)
    requires ibp + x <= |source| && |head| + x <= k < |before| && Moved(now, head, source, ibp, x, before)
    ensures |now| == |before| && now[k] == before[k]
  {
  }

  /** Move n bits of the padded image at ibp behind the bits that are already packed. */
  method MoveRow(out: array<byte>, input: array<byte>, obp: nat, ibp: nat, n: nat, ghost head: seq<bit>,
                 ghost source: seq<bit>, ghost before: seq<bit>)
    requires obp == |head| <= ibp && obp + n <= |before| == 8 * out.Length && ibp + n <= |source| == 8 * input.Length
    requires Moved(ImageBits(out[..]), head, source, ibp, 0, before)
    requires if out != input then ImageBits(input[..]) == source else before == source
    modifies out
    ensures Moved(ImageBits(out[..]), head, source, ibp, n, before)
    ensures out != input ==> ImageBits(input[..]) == source
  {
    hide ImageBits, Moved;
    var x := 0;
    while x < n
      invariant 0 <= x <= n
      invariant Moved(ImageBits(out[..]), head, source, ibp, x, before)
      invariant out != input ==> ImageBits(input[..]) == source
    {
      var b := ReadImageBit(input, ibp + x);
      NotYetWritten(ImageBits(out[..]), head, source, ibp, x, before, if out == input then ibp + x else obp + x);
      OneMoreBit(ImageBits(out[..]), head, source, ibp, x, before);
      WriteImageBit(out, obp + x, b);
      x := x + 1;
    }
  }

  /** The rows below y are packed and nothing behind them has changed. */
  ghost predicate Packed(now: seq<bit>, source: seq<bit>, before: seq<bit>, olinebits: nat, ilinebits: nat, y: nat)
  {
    && olinebits <= ilinebits && Offset(ilinebits, y) <= |source| && Offset(olinebits, y) <= |before|
    && now == Unpadded(source, olinebits, ilinebits, y) + before[Offset(olinebits, y)..]
  }

  lemma PackedRow(now: seq<bit>, now': seq<bit>, source: seq<bit>, before: seq<bit>, olinebits: nat, ilinebits: nat,
                  y: nat)
    requires olinebits <= ilinebits && Offset(ilinebits, y + 1) <= |source| && Offset(olinebits, y + 1) <= |before|
    ensures Packed(now, source, before, olinebits, ilinebits, y)
            <==> Moved(now, Unpadded(source, olinebits, ilinebits, y), source, Offset(ilinebits, y), 0, before)
    ensures Packed(now', source, before, olinebits, ilinebits, y + 1)
            <==> Moved(now', Unpadded(source, olinebits, ilinebits, y), source, Offset(ilinebits, y), olinebits, before)
  {
    hide Unpadded, Offset, Moved;
    OffsetStep(olinebits, y);
    OffsetStep(ilinebits, y);
    UnpaddedStep(source, olinebits, ilinebits, y);
    var head, ibp := Unpadded(source, olinebits, ilinebits, y), Offset(ilinebits, y);
    NoneMoved(now, head, source, ibp, before);
    AllMoved(now', head, source, ibp, olinebits, before);
  }

  lemma AllMoved(now: seq<bit>, head: seq<bit>, source: seq<bit>, ibp: nat, n: nat, before: seq<bit>)
    requires ibp + n <= |source| && |head| + n <= |before|
    ensures Moved(now, head, source, ibp, n, before)
            <==> now == (head + source[ibp..ibp + n]) + before[|head| + n..]
  {
  }

  lemma UnpaddedStep(bits: seq<bit>, olinebits: nat, ilinebits: nat, y: nat)
    requires olinebits <= ilinebits && Offset(ilinebits, y) + ilinebits <= |bits|
    ensures Offset(ilinebits, y + 1) <= |bits|
    ensures Unpadded(bits, olinebits, ilinebits, y + 1)
            == Unpadded(bits, olinebits, ilinebits, y) + bits[Offset(ilinebits, y)..Offset(ilinebits, y) + olinebits]
  {
  }

  lemma NothingPacked(now: seq<bit>, source: seq<bit>, olinebits: nat, ilinebits: nat)
    requires olinebits <= ilinebits
    ensures Packed(now, source, now, olinebits, ilinebits, 0)
  {
  }

  /** Move the pixel bits together. The buffers may be the same one: the bit read is never behind the bit written. */
  method RemovePaddingBits(out: array<byte>, input: array<byte>, olinebits: nat, ilinebits: nat, h: nat)
    requires olinebits <= ilinebits && Offset(ilinebits, h) <= 8 * input.Length
    requires Offset(olinebits, h) <= 8 * out.Length
    modifies out
    ensures Packed(ImageBits(out[..]), ImageBits(old(input[..])), ImageBits(old(out[..])), olinebits, ilinebits, h)
  {
    hide ImageBits, Packed, Unpadded, Moved, Offset;
    ghost var source, before := ImageBits(input[..]), ImageBits(out[..]);
    NothingPacked(before, source, olinebits, ilinebits);
    OffsetStep(olinebits, 0);
    OffsetStep(ilinebits, 0);
    var diff := ilinebits - olinebits;
    var obp: nat, ibp: nat := 0, 0;
    var y := 0;
    while y < h
      invariant 0 <= y <= h && obp == Offset(olinebits, y) <= ibp == Offset(ilinebits, y)
      invariant Packed(ImageBits(out[..]), source, before, olinebits, ilinebits, y)
      invariant if out != input then ImageBits(input[..]) == source else before == source
    {
      OffsetMonotone(ilinebits, y + 1, h);
      OffsetMonotone(olinebits, y + 1, h);
      OffsetStep(olinebits, y);
      OffsetStep(ilinebits, y);
      PackedRow(ImageBits(out[..]), ImageBits(out[..]), source, before, olinebits, ilinebits, y);
      MoveRow(out, input, obp, ibp, olinebits, Unpadded(source, olinebits, ilinebits, y), source, before);
      PackedRow(ImageBits(out[..]), ImageBits(out[..]), source, before, olinebits, ilinebits, y);
      obp := obp + olinebits;
      ibp := ibp + olinebits + diff;
      y := y + 1;
    }
  }

  /** The eight bits of a byte, the most significant one first. */
  lemma ImageByte(data: seq<byte>, p: nat)
    requires p < |data|
    ensures ImageBits(data)[8 * p..8 * p + 8] == MsbFirst(data[p], 8)
  {
    var s, code := ImageBits(data)[8 * p..8 * p + 8], MsbFirst(data[p], 8);
    forall i | 0 <= i < 8 ensures s[i] == code[i] {
      MsbFirstBit(data[p], 8, i);
      EightPer(p, i);
    }
  }

  lemma EightPer(p: nat, i: nat)
    requires i < 8
    ensures (8 * p + i) / 8 == p && (8 * p + i) % 8 == i
  {
  }
}
