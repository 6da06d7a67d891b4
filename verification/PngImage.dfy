/** From the inflated scanlines of an image to its pixels: reconstruct the rows and, for images with less than
    8 bits a pixel, close the gaps between them. */
module PngImage {
  import opened Bits
  import opened Offsets
  import opened PngFilter
  import opened PaddingBits
  import opened UpngErrors

  /** Bit x of row y of an image whose rows are linebits apart. */
  function PixelBit(data: seq<byte>, linebits: nat, x: nat, y: nat): bit {
    var k := Offset(linebits, y) + x;
    if k < 8 * |data| then ImageBits(data)[k] else 0
  }

  /** Two images of h rows hold the same pixel bits, at row distances of their own. */
  ghost predicate SamePixels(a: seq<byte>, alinebits: nat, b: seq<byte>, blinebits: nat, width: nat, h: nat) {
    forall x, y :: 0 <= x < width && 0 <= y < h ==> PixelBit(a, alinebits, x, y) == PixelBit(b, blinebits, x, y)
  }

  /** Bytes of one row. */
  function LineBytes(w: nat, bpp: nat): nat {
    (w * bpp + 7) / 8
  }

  function ByteWidth(bpp: nat): nat {
    (bpp + 7) / 8
  }

  lemma {:induction false} EightTimes(length: nat, y: nat)
    ensures Offset(8 * length, y) == 8 * Offset(length, y)
  {
    if y > 0 {
      EightTimes(length, y - 1);
    }
  }

  lemma {:induction false} NarrowerRows(a: nat, b: nat, y: nat)
    requires a <= b
    ensures Offset(a, y) <= Offset(b, y)
  {
    if y > 0 {
      NarrowerRows(a, b, y - 1);
    }
  }

  /** After packing, the pixel bits are those of the padded image. */
  lemma PackedPixels(now: seq<byte>, source: seq<byte>, before: seq<byte>, olinebits: nat, ilinebits: nat, h: nat)
    requires Packed(ImageBits(now), ImageBits(source), ImageBits(before), olinebits, ilinebits, h)
    ensures SamePixels(now, olinebits, source, ilinebits, olinebits, h)
  {
    hide ImageBits, Unpadded;
    forall x, y | 0 <= x < olinebits && 0 <= y < h
      ensures PixelBit(now, olinebits, x, y) == PixelBit(source, ilinebits, x, y)
    {
      UnpaddedBitAt(ImageBits(source), olinebits, ilinebits, h, x, y);
    }
  }

  /** Only the rows matter, not what follows them in the buffer. */
  lemma PixelsOfPrefix(a: seq<byte>, b: seq<byte>, linebits: nat, width: nat, h: nat)
    requires a <= b && width <= linebits && Offset(linebits, h) <= 8 * |a|
    ensures SamePixels(b, linebits, a, linebits, width, h)
  {
    forall x, y | 0 <= x < width && 0 <= y < h ensures PixelBit(b, linebits, x, y) == PixelBit(a, linebits, x, y) {
      OffsetMonotone(linebits, y + 1, h);
      var k := Offset(linebits, y) + x;
      assert a[k / 8] == b[k / 8];
    }
  }

  /** The buffer shows the image that data stands for: its pixel bits one after the other if its rows were padded,
      its rows one after the other if not. */
  ghost predicate Shows(out: seq<byte>, data: seq<byte>, rowbits: nat, linebytes: nat, h: nat, bpp: nat)
    requires bpp > 0 && Offset(linebytes + 1, h) <= |data| && GoodRows(data, linebytes, h) == h
  {
    var image := Image(data, linebytes, ByteWidth(bpp), h);
    if bpp < 8 && rowbits != linebytes * 8 then SamePixels(out, rowbits, image, 8 * linebytes, rowbits, h)
    else image <= out
  }

  /** Reconstruct the image whose inflated data is in input; input is scratch space when rows are padded. */
  method PostProcessScanlines(out: array<byte>, input: array<byte>, w: nat, h: nat, bpp: nat) returns (error: UpngError)
    requires w >= 1 && out != input
    requires Offset(LineBytes(w, bpp) + 1, h) <= input.Length && Offset(LineBytes(w, bpp), h) <= out.Length
    modifies out, input
    ensures bpp == 0 ==> error == EMALFORMED
    ensures bpp > 0 ==> error == if GoodRows(old(input[..]), LineBytes(w, bpp), h) == h then EOK else EMALFORMED
    ensures bpp > 0 && error == EOK ==> Shows(out[..], old(input[..]), w * bpp, LineBytes(w, bpp), h, bpp)
  {
    hide Image, GoodRows, Recon, Filterable;
    if bpp == 0 {
      return EMALFORMED;
    }
    var linebytes := LineBytes(w, bpp);
    ghost var data := input[..];
    if bpp < 8 && w * bpp != linebytes * 8 {
      OffsetsApart(linebytes, h);
      error := Unfilter(input, input, w, h, bpp);
      if error != EOK {
        return;
      }
      EightTimes(linebytes, h);
      NarrowerRows(w * bpp, 8 * linebytes, h);
      ghost var rows, before := input[..], out[..];
      RemovePaddingBits(out, input, w * bpp, linebytes * 8, h);
      ShowPadded(out[..], rows, before, Image(data, linebytes, ByteWidth(bpp), h), w * bpp, linebytes, h);
    } else {
      error := Unfilter(out, input, w, h, bpp);
    }
  }

  lemma ShowPadded(now: seq<byte>, rows: seq<byte>, before: seq<byte>, image: seq<byte>, olinebits: nat, length: nat,
                   h: nat)
    requires Packed(ImageBits(now), ImageBits(rows), ImageBits(before), olinebits, 8 * length, h)
    requires image <= rows && |image| == Offset(length, h)
    ensures SamePixels(now, olinebits, image, 8 * length, olinebits, h)
  {
    hide ImageBits;
    assert olinebits <= 8 * length;
    PackedPixels(now, rows, before, olinebits, 8 * length, h);
    EightTimes(length, h);
    PixelsOfPrefix(image, rows, 8 * length, olinebits, h);
    hide Packed;
    forall x, y | 0 <= x < olinebits && 0 <= y < h
      ensures PixelBit(now, olinebits, x, y) == PixelBit(image, 8 * length, x, y)
    {
      assert PixelBit(now, olinebits, x, y) == PixelBit(rows, 8 * length, x, y);
    }
  }

  /** The pixels of an image given row by row are those of its rows. */
  lemma {:induction false} PixelsOfFlat(rows: seq<seq<byte>>, types: seq<byte>, length: nat, h: nat, x: nat, y: nat)
    requires WellFormedRows(rows, types, length) && y < h <= |rows| && x < 8 * length
    ensures |Flat(rows, h)| == Offset(length, h)
    ensures PixelBit(Flat(rows, h), 8 * length, x, y) == ImageBits(rows[y])[x]
    decreases h
  {
    hide Flat, Offset, ImageBits;
    FlatSize(rows, types, length, h);
    EightTimes(length, y);
    FlatRow(rows, types, length, h, y);
    BitsOfSlice(Flat(rows, h), Offset(length, y), rows[y], x);
  }

  lemma BitsOfSlice(data: seq<byte>, o: nat, row: seq<byte>, x: nat)
    requires o + |row| <= |data| && data[o..o + |row|] == row && x < 8 * |row|
    ensures ImageBits(data)[8 * o + x] == ImageBits(row)[x]
  {
    var k := 8 * o + x;
    assert k / 8 == o + x / 8 && k % 8 == x % 8;
    assert data[k / 8] == data[o..o + |row|][x / 8];
  }

  lemma {:induction false} FlatSize(rows: seq<seq<byte>>, types: seq<byte>, length: nat, h: nat)
    requires WellFormedRows(rows, types, length) && h <= |rows|
    ensures |Flat(rows, h)| == Offset(length, h)
  {
    if h > 0 {
      FlatSize(rows, types, length, h - 1);
    }
  }

  lemma {:induction false} FlatRow(rows: seq<seq<byte>>, types: seq<byte>, length: nat, h: nat, y: nat)
    requires WellFormedRows(rows, types, length) && y < h <= |rows|
    ensures Offset(length, y) + length <= |Flat(rows, h)|
    ensures Flat(rows, h)[Offset(length, y)..Offset(length, y) + length] == rows[y]
    decreases h
  {
    FlatSize(rows, types, length, h - 1);
    if y < h - 1 {
      FlatRow(rows, types, length, h - 1, y);
    }
  }

  /** A row takes as many bytes as its bits need, and so does a pixel. */
  lemma Rounded(w: nat, bpp: nat)
    ensures w * bpp <= 8 * LineBytes(w, bpp) < w * bpp + 8
    ensures bpp <= 8 * ByteWidth(bpp) < bpp + 8
  {
  }
}
