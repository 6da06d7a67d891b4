/** The decoder as a whole inverts an encoder: filter the rows of an image, compress them into blocks of any kind,
    wrap the stream, cut it into chunks, and the decoder shows the image again. */
module PngRoundTrip {
  import opened Bits
  import opened Offsets
  import opened UpngErrors
  import opened PngFilter
  import opened PaddingBits
  import opened PngImage
  import opened PngDecode
  import Lz77
  import Zlib

  /** The zlib stream of the blocks and its checksum, which the decoder does not read. */
  function Stream(cmf: byte, flg: byte, blocks: seq<Zlib.Block>, checksum: seq<byte>): seq<byte>
    requires Zlib.ValidBlocks(blocks, [])
  {
    [cmf, flg] + Pack(Zlib.StreamBits(blocks, 0, [])) + checksum
  }

  /** A file: header, chunks, end chunk, anything. */
  ghost predicate IsFile(file: seq<byte>, chunks: seq<Chunk>, end: Chunk) {
    && ValidChunks(chunks) && end.kind == IEND && |end.crc| == 4 && |end.data| <= INT_MAX
    && FIRST_CHUNK <= |file| && ChunksBytes(chunks) + end.Bytes() <= file[FIRST_CHUNK..]
  }

  /** However the stream is cut into chunks, it inflates to what its blocks mean. */
  lemma FileInflates(file: seq<byte>, chunks: seq<Chunk>, end: Chunk, cmf: byte, flg: byte, blocks: seq<Zlib.Block>,
                     checksum: seq<byte>, tail: seq<byte>, setup: Zlib.Setup)
    requires IsFile(file, chunks, end) && |tail| >= 2 + SLACK
    requires Zlib.WrapperOk(cmf, flg) && setup.Valid() && Zlib.TablesServe(setup, blocks)
    requires blocks != [] && Zlib.ValidBlocks(blocks, [])
    requires ChunksIdat(chunks) == Stream(cmf, flg, blocks, checksum)
    ensures Zlib.Gives(InflatedFile(file, tail, setup), Zlib.StreamFits(blocks, [], setup.outsize),
                       Zlib.StreamOutput(blocks, []), |Zlib.StreamBits(blocks, 0, [])|)
  {
    hide Zlib.WrapperOk, Zlib.TablesServe, Zlib.ValidBlocks, Zlib.Inflate, Zlib.StreamBits, Zlib.StreamFits,
         Zlib.StreamOutput, Pack, ScanChunks, ChunksBytes, ChunksIdat, ValidChunks;
    ScanRoundTrip(file, FIRST_CHUNK, chunks, [], end);
    var idat := Stream(cmf, flg, blocks, checksum);
    assert [] + idat == idat;
    var packed := Pack(Zlib.StreamBits(blocks, 0, []));
    assert idat + tail == [cmf, flg] + packed + (checksum + tail);
    Zlib.StreamRoundTrip(cmf, flg, blocks, checksum + tail, |idat|, setup);
  }

  /** Bits of the rows one after the other, or bytes if no row has padding. */
  ghost predicate ShowsRows(out: seq<byte>, rows: seq<seq<byte>>, rowbits: nat, linebytes: nat, bpp: nat) {
    if bpp < 8 && rowbits != linebytes * 8 then
      forall x, y :: 0 <= x < rowbits && 0 <= y < |rows| && x < 8 * |rows[y]|
                     ==> PixelBit(out, rowbits, x, y) == ImageBits(rows[y])[x]
    else Flat(rows, |rows|) <= out
  }

  lemma ShowsItsRows(out: seq<byte>, data: seq<byte>, rows: seq<seq<byte>>, types: seq<byte>, rowbits: nat,
                     linebytes: nat, bpp: nat)
    requires bpp > 0 && WellFormedRows(rows, types, linebytes) && 1 <= ByteWidth(bpp) <= linebytes
    requires FilteredImage(rows, types, linebytes, ByteWidth(bpp), |rows|) <= data
    ensures Offset(linebytes + 1, |rows|) <= |data| && GoodRows(data, linebytes, |rows|) == |rows|
    ensures Shows(out, data, rowbits, linebytes, |rows|, bpp) ==> ShowsRows(out, rows, rowbits, linebytes, bpp)
  {
    hide FilteredImage, Image, GoodRows, ImageBits, PixelBit, Flat;
    ImageRoundTrip(rows, types, linebytes, ByteWidth(bpp), data, |rows|);
    GoodRowsIs(data, linebytes, |rows|, |rows|);
    if Shows(out, data, rowbits, linebytes, |rows|, bpp) && bpp < 8 && rowbits != linebytes * 8 {
      forall x, y | 0 <= x < rowbits && 0 <= y < |rows| && x < 8 * |rows[y]|
        ensures PixelBit(out, rowbits, x, y) == ImageBits(rows[y])[x]
      {
        PixelsOfFlat(rows, types, linebytes, |rows|, x, y);
      }
    }
  }

  /** The blocks compress the filtered rows. */
  ghost predicate Compresses(blocks: seq<Zlib.Block>, rows: seq<seq<byte>>, types: seq<byte>, length: nat,
                             bytewidth: nat) {
    && 1 <= bytewidth && WellFormedRows(rows, types, length)
    && blocks != [] && Zlib.ValidBlocks(blocks, [])
    && Zlib.StreamOutput(blocks, []) == FilteredImage(rows, types, length, bytewidth, |rows|)
  }

  /** The blocks can be written and fit an output buffer of the given size. */
  predicate BlocksFit(blocks: seq<Zlib.Block>, outsize: nat) {
    Zlib.ValidBlocks(blocks, []) && Zlib.StreamFits(blocks, [], outsize)
  }

  /** The file carries the blocks as a zlib stream, cut into chunks in any way. */
  ghost predicate Carries(file: seq<byte>, chunks: seq<Chunk>, end: Chunk, cmf: byte, flg: byte,
                          blocks: seq<Zlib.Block>, checksum: seq<byte>)
  {
    && IsFile(file, chunks, end) && Zlib.WrapperOk(cmf, flg) && Zlib.ValidBlocks(blocks, [])
    && ChunksIdat(chunks) == Stream(cmf, flg, blocks, checksum)
  }

  /** A run of the decoder on the file left out and error; tail and data are what its buffers held. */
  ghost predicate Ran(file: seq<byte>, setup: Zlib.Setup, tail: seq<byte>, data: seq<byte>, out: seq<byte>,
                      error: UpngError, w: nat, h: nat, bpp: nat)
  {
    && |tail| >= 2 + SLACK && setup.Valid()
    && Decoded(InflatedFile(file, tail, setup), data, out, error, w, h, bpp)
  }

  /** Round trip of the whole decoder: whatever filter types, blocks, chunks and stale buffer contents, decoding
      succeeds exactly when the blocks fit the buffer for the inflated data, and then shows the image. */
  lemma FileRoundTrip(file: seq<byte>, chunks: seq<Chunk>, end: Chunk, cmf: byte, flg: byte, blocks: seq<Zlib.Block>,
                      checksum: seq<byte>, rows: seq<seq<byte>>, types: seq<byte>, w: nat, bpp: nat, rowbits: nat,
                      length: nat, setup: Zlib.Setup, tail: seq<byte>, data: seq<byte>, out: seq<byte>,
                      error: UpngError)
    requires w >= 1 && bpp >= 1 && rowbits == w * bpp && length == LineBytes(w, bpp)
    requires Compresses(blocks, rows, types, length, ByteWidth(bpp))
    requires Carries(file, chunks, end, cmf, flg, blocks, checksum) && Zlib.TablesServe(setup, blocks)
    requires Ran(file, setup, tail, data, out, error, w, |rows|, bpp)
    ensures error == EOK <==> BlocksFit(blocks, setup.outsize)
    ensures error == EOK ==> ShowsRows(out, rows, rowbits, length, bpp)
  {
    hide Zlib.WrapperOk, Zlib.TablesServe, Zlib.ValidBlocks, Zlib.StreamBits, Zlib.StreamFits, Zlib.StreamOutput,
         Stream, IsFile, InflatedFile, ChunksIdat, Shows, ShowsRows, FilteredImage, WellFormedRows, GoodRows, Offset;
    WideEnough(w, bpp);
    FileInflates(file, chunks, end, cmf, flg, blocks, checksum, tail, setup);
    if Zlib.StreamFits(blocks, [], setup.outsize) {
      ShowsItsRows(out, data, rows, types, rowbits, length, bpp);
    }
  }

  // ----- The buffer for the inflated data

  /** Bits at the end of a row that belong to no pixel. */
  function SpareBits(w: nat, bpp: nat): nat {
    8 * LineBytes(w, bpp) - w * bpp
  }

  /** The computed size leaves the byte free that the strict bounds need, or is too small for the rows, exactly
      depending on how the spare bits of the rows compare with the seven bits that are allowed for each column. */
  lemma RoomForRows(w: nat, h: nat, bpp: nat)
    ensures InflatedSize(w, h, bpp) > Offset(LineBytes(w, bpp) + 1, h) <==> 7 * w >= h * SpareBits(w, bpp) + 8
    ensures InflatedSize(w, h, bpp) < Offset(LineBytes(w, bpp) + 1, h) <==> 7 * w < h * SpareBits(w, bpp)
  {
    hide *;
    var n, spare := LineBytes(w, bpp), SpareBits(w, bpp);
    SpareIs(w, bpp);
    OffsetIsProduct(n + 1, h);
    SizeIs(w, h, bpp);
    Distribute(h, n, 1);
    Distribute(h, w * bpp, spare);
    Eightfold(h, n);
    Floors(h * (w * bpp), 7 * w, h * n, h * spare);
    Commute(h, n + 1);
  }

  lemma Floors(a: nat, d: nat, b: nat, s: nat)
    requires 8 * b == a + s
    ensures (a + d) / 8 > b <==> d >= s + 8
    ensures (a + d) / 8 < b <==> d < s
  {
  }

  lemma Eightfold(h: nat, n: nat)
    ensures h * (8 * n) == 8 * (h * n)
  {
  }

  lemma Commute(a: nat, b: nat)
    ensures a * b == b * a
  {
  }

  lemma SpareIs(w: nat, bpp: nat)
    ensures 8 * LineBytes(w, bpp) == w * bpp + SpareBits(w, bpp) && SpareBits(w, bpp) <= 7
  {
  }

  lemma SizeIs(w: nat, h: nat, bpp: nat)
    ensures InflatedSize(w, h, bpp) == (h * (w * bpp) + 7 * w) / 8 + h
  {
    Distribute(w, h * bpp, 7);
    assert w * (h * bpp) == h * (w * bpp);
  }

  lemma Distribute(a: nat, b: nat, c: nat)
    ensures a * (b + c) == a * b + a * c
  {
  }

  /** With the buffer that the decoder computes, any such file of a wide image decodes, and none of a narrow one:
      rows of whole bytes need two columns, rows with spare bits more the more rows there are. */
  lemma ComputedSizeRoundTrip(file: seq<byte>, chunks: seq<Chunk>, end: Chunk, cmf: byte, flg: byte,
                              blocks: seq<Zlib.Block>, checksum: seq<byte>, rows: seq<seq<byte>>, types: seq<byte>,
                              w: nat, bpp: nat, rowbits: nat, length: nat, setup: Zlib.Setup, tail: seq<byte>,
                              data: seq<byte>, out: seq<byte>, error: UpngError)
    requires w >= 1 && bpp >= 1 && rowbits == w * bpp && length == LineBytes(w, bpp)
    requires Compresses(blocks, rows, types, length, ByteWidth(bpp))
    requires Carries(file, chunks, end, cmf, flg, blocks, checksum) && Zlib.TablesServe(setup, blocks)
    requires Ran(file, setup, tail, data, out, error, w, |rows|, bpp)
    requires setup.outsize == InflatedSize(w, |rows|, bpp)
    ensures 7 * w >= |rows| * SpareBits(w, bpp) + 8 ==> error == EOK
    ensures 7 * w < |rows| * SpareBits(w, bpp) ==> error != EOK
    ensures error == EOK ==> ShowsRows(out, rows, rowbits, length, bpp)
  {
    hide Ran, Carries, Compresses, ShowsRows, Zlib.TablesServe, InflatedSize, LineBytes, SpareBits, BlocksFit;
    FileRoundTrip(file, chunks, end, cmf, flg, blocks, checksum, rows, types, w, bpp, rowbits, length, setup, tail,
                  data, out, error);
    RoomForRows(w, |rows|, bpp);
    FitsIfRoom(blocks, rows, types, length, ByteWidth(bpp), setup.outsize);
  }

  lemma FitsIfRoom(blocks: seq<Zlib.Block>, rows: seq<seq<byte>>, types: seq<byte>, length: nat, bytewidth: nat,
                   outsize: nat)
    requires Compresses(blocks, rows, types, length, bytewidth)
    ensures Offset(length + 1, |rows|) < outsize ==> BlocksFit(blocks, outsize)
    ensures BlocksFit(blocks, outsize) ==> Offset(length + 1, |rows|) <= outsize
  {
    hide Zlib.ValidBlocks, Zlib.StreamFits, Zlib.StreamOutput, FilteredImage, Offset;
    Zlib.StreamRoom(blocks, [], outsize);
  }

  // ----- Every file of an image

  /** How a file carries an image. */
  datatype Encoding = Encoding(chunks: seq<Chunk>, end: Chunk, cmf: byte, flg: byte, blocks: seq<Zlib.Block>,
                               checksum: seq<byte>)

  ghost predicate Encodes(e: Encoding, file: seq<byte>, rows: seq<seq<byte>>, types: seq<byte>, length: nat,
                          bytewidth: nat)
  {
    && Compresses(e.blocks, rows, types, length, bytewidth)
    && Carries(file, e.chunks, e.end, e.cmf, e.flg, e.blocks, e.checksum)
  }

  /** The file is a file of the image with these rows and filter types. */
  ghost predicate ImageFile(file: seq<byte>, rows: seq<seq<byte>>, types: seq<byte>, length: nat, bytewidth: nat) {
    exists e: Encoding :: Encodes(e, file, rows, types, length, bytewidth)
  }

  /** Every run of the decoder on the file, whatever its buffers held, succeeds and shows the rows. */
  ghost predicate Decodes(file: seq<byte>, setup: Zlib.Setup, rows: seq<seq<byte>>, w: nat, bpp: nat) {
    forall tail, data, out, error :: Ran(file, setup, tail, data, out, error, w, |rows|, bpp) ==>
      error == EOK && Shown(out, rows, w, bpp)
  }

  ghost predicate Shown(out: seq<byte>, rows: seq<seq<byte>>, w: nat, bpp: nat) {
    ShowsRows(out, rows, w * bpp, LineBytes(w, bpp), bpp)
  }

  /** A file decodes exactly if its blocks fit. */
  lemma DecodesIff(e: Encoding, file: seq<byte>, setup: Zlib.Setup, rows: seq<seq<byte>>, types: seq<byte>, w: nat,
                   bpp: nat)
    requires w >= 1 && bpp >= 1 && setup.Valid() && Zlib.FixedTablesServe(setup)
    requires Encodes(e, file, rows, types, LineBytes(w, bpp), ByteWidth(bpp))
    ensures Decodes(file, setup, rows, w, bpp) <==> BlocksFit(e.blocks, setup.outsize)
  {
    hide Ran, Carries, Compresses, ShowsRows, LineBytes, ByteWidth, BlocksFit, Zlib.FixedTablesServe;
    forall tail, data, out, error | Ran(file, setup, tail, data, out, error, w, |rows|, bpp)
      ensures error == EOK <==> BlocksFit(e.blocks, setup.outsize)
      ensures error == EOK ==> Shown(out, rows, w, bpp)
    {
      FileRoundTrip(file, e.chunks, e.end, e.cmf, e.flg, e.blocks, e.checksum, rows, types, w, bpp, w * bpp,
                    LineBytes(w, bpp), setup, tail, data, out, error);
    }
    if !BlocksFit(e.blocks, setup.outsize) {
      var tail := RefusedRun(e, file, setup, |rows|, w, bpp) by {
        assert Carries(file, e.chunks, e.end, e.cmf, e.flg, e.blocks, e.checksum);
        CompressesValid(e.blocks, rows, types, LineBytes(w, bpp), ByteWidth(bpp));
      }
    }
  }

  lemma CompressesValid(blocks: seq<Zlib.Block>, rows: seq<seq<byte>>, types: seq<byte>, length: nat, bytewidth: nat)
    requires Compresses(blocks, rows, types, length, bytewidth)
    ensures blocks != [] && Zlib.ValidBlocks(blocks, [])
  {
    hide Zlib.ValidBlocks, Zlib.StreamOutput, FilteredImage;
  }

  /** A run on a file whose blocks do not fit. */
  lemma RefusedRun(e: Encoding, file: seq<byte>, setup: Zlib.Setup, h: nat, w: nat, bpp: nat) returns (tail: seq<byte>)
    requires setup.Valid() && Zlib.FixedTablesServe(setup) && e.blocks != [] && Zlib.ValidBlocks(e.blocks, [])
    requires Carries(file, e.chunks, e.end, e.cmf, e.flg, e.blocks, e.checksum)
    requires !BlocksFit(e.blocks, setup.outsize)
    ensures Ran(file, setup, tail, [], [], EMALFORMED, w, h, bpp)
  {
    hide Zlib.WrapperOk, Zlib.FixedTablesServe, Zlib.ValidBlocks, Zlib.StreamBits, Zlib.StreamFits, Zlib.StreamOutput,
         Stream, IsFile, InflatedFile, ChunksIdat, Shows, GoodRows, Offset;
    tail := seq<byte>(2 + SLACK, _ => 0);
    FileInflates(file, e.chunks, e.end, e.cmf, e.flg, e.blocks, e.checksum, tail, setup);
  }

  // ----- Two ways to write a file

  /** The stream in chunks as large as they may be. */
  function IdatChunks(stream: seq<byte>): (chunks: seq<Chunk>)
    ensures ValidChunks(chunks)
  {
    IdatsOf(Zlib.Cut(stream, INT_MAX))
  }

  function IdatsOf(pieces: seq<seq<byte>>): (chunks: seq<Chunk>)
    requires forall k :: 0 <= k < |pieces| ==> |pieces[k]| <= INT_MAX
    ensures |chunks| == |pieces| && ValidChunks(chunks)
    ensures forall k :: 0 <= k < |pieces| ==> chunks[k] == Chunk(IDAT, pieces[k], [0, 0, 0, 0])
  {
    seq(|pieces|, k requires 0 <= k < |pieces| => Chunk(IDAT, pieces[k], [0, 0, 0, 0]))
  }

  lemma {:induction false} IdatsJoin(pieces: seq<seq<byte>>)
    requires forall k :: 0 <= k < |pieces| ==> |pieces[k]| <= INT_MAX
    ensures ChunksIdat(IdatsOf(pieces)) == Zlib.Concatenated(pieces)
  {
    if pieces != [] {
      assert IdatsOf(pieces)[1..] == IdatsOf(pieces[1..]);
      IdatsJoin(pieces[1..]);
    }
  }

  /** The file with the blocks as its image data, behind a header of 33 bytes. */
  function FileOf(header: seq<byte>, blocks: seq<Zlib.Block>): seq<byte>
    requires |header| == FIRST_CHUNK && Zlib.ValidBlocks(blocks, [])
  {
    var chunks := IdatChunks(Stream(0x78, 1, blocks, []));
    header + (ChunksBytes(chunks) + Chunk(IEND, [], [0, 0, 0, 0]).Bytes())
  }

  lemma FileOfEncodes(header: seq<byte>, blocks: seq<Zlib.Block>, rows: seq<seq<byte>>, types: seq<byte>, length: nat,
                      bytewidth: nat) returns (e: Encoding)
    requires |header| == FIRST_CHUNK && Zlib.ValidBlocks(blocks, [])
    requires Compresses(blocks, rows, types, length, bytewidth)
    ensures e.blocks == blocks && Encodes(e, FileOf(header, blocks), rows, types, length, bytewidth)
  {
    hide Compresses, Zlib.ValidBlocks, Zlib.Cut, Stream, ChunksBytes, ChunksIdat, ValidChunks;
    var stream := Stream(0x78, 1, blocks, []);
    var end := Chunk(IEND, [], [0, 0, 0, 0]);
    e := Encoding(IdatChunks(stream), end, 0x78, 1, blocks, []);
    IdatsJoin(Zlib.Cut(stream, INT_MAX));
    Zlib.CutJoins(stream, INT_MAX);
    var file := FileOf(header, blocks);
    assert file[FIRST_CHUNK..] == ChunksBytes(e.chunks) + end.Bytes();
  }

  /** The filtered rows in stored blocks. */
  function StoredImage(rows: seq<seq<byte>>, types: seq<byte>, length: nat, bytewidth: nat): seq<Zlib.Block>
    requires WellFormedRows(rows, types, length) && bytewidth >= 1
  {
    Zlib.StoredData(FilteredImage(rows, types, length, bytewidth, |rows|))
  }

  /** The filtered rows as literals of one fixed block. */
  function LiteralImage(rows: seq<seq<byte>>, types: seq<byte>, length: nat, bytewidth: nat): seq<Zlib.Block>
    requires WellFormedRows(rows, types, length) && bytewidth >= 1
  {
    [Zlib.FixedBlock(Lz77.Literals(FilteredImage(rows, types, length, bytewidth, |rows|)))]
  }

  lemma TwoEncodings(rows: seq<seq<byte>>, types: seq<byte>, length: nat, bytewidth: nat, outsize: nat)
    requires WellFormedRows(rows, types, length) && bytewidth >= 1
    ensures Compresses(StoredImage(rows, types, length, bytewidth), rows, types, length, bytewidth)
    ensures Zlib.ValidBlocks(StoredImage(rows, types, length, bytewidth), [])
    ensures BlocksFit(StoredImage(rows, types, length, bytewidth), outsize) <==> Offset(length + 1, |rows|) < outsize
    ensures Compresses(LiteralImage(rows, types, length, bytewidth), rows, types, length, bytewidth)
    ensures Zlib.ValidBlocks(LiteralImage(rows, types, length, bytewidth), [])
    ensures BlocksFit(LiteralImage(rows, types, length, bytewidth), outsize) <==> Offset(length + 1, |rows|) <= outsize
  {
    hide Zlib.ValidBlocks, Zlib.StreamOutput, Zlib.StreamFits, Zlib.StoredData, FilteredImage, Lz77.Literals, Offset,
         WellFormedRows;
    var image := FilteredImage(rows, types, length, bytewidth, |rows|);
    Zlib.StoredDataFits(image, outsize);
    Zlib.LiteralsFitExactly(image, outsize);
  }

  /** With the buffer that the decoder computes, every file of an image decodes exactly if 7 bits for each column cover
      the spare bits of all rows and one byte more, and some file of it does exactly if they cover the spare bits. */
  lemma FilesDecode(rows: seq<seq<byte>>, types: seq<byte>, w: nat, bpp: nat, setup: Zlib.Setup)
    requires w >= 1 && bpp >= 1 && WellFormedRows(rows, types, LineBytes(w, bpp))
    requires setup.Valid() && Zlib.FixedTablesServe(setup) && setup.outsize == InflatedSize(w, |rows|, bpp)
    ensures (forall file :: ImageFile(file, rows, types, LineBytes(w, bpp), ByteWidth(bpp)) ==>
               Decodes(file, setup, rows, w, bpp))
            <==> 7 * w >= |rows| * SpareBits(w, bpp) + 8
    ensures (exists file :: ImageFile(file, rows, types, LineBytes(w, bpp), ByteWidth(bpp))
               && Decodes(file, setup, rows, w, bpp))
            <==> 7 * w >= |rows| * SpareBits(w, bpp)
  {
    hide Encodes, Decodes, Compresses, BlocksFit, InflatedSize, SpareBits, LineBytes, Zlib.FixedTablesServe,
         Zlib.ValidBlocks, StoredImage, LiteralImage, WellFormedRows, FileOf, Offset;
    var length, bytewidth, header := LineBytes(w, bpp), ByteWidth(bpp), seq<byte>(FIRST_CHUNK, _ => 0);
    RoomForRows(w, |rows|, bpp);
    TwoEncodings(rows, types, length, bytewidth, setup.outsize);
    var stored, literal := StoredImage(rows, types, length, bytewidth), LiteralImage(rows, types, length, bytewidth);
    var e := FileOfEncodes(header, stored, rows, types, length, bytewidth);
    DecodesIff(e, FileOf(header, stored), setup, rows, types, w, bpp);
    assert ImageFile(FileOf(header, stored), rows, types, length, bytewidth);
    e := FileOfEncodes(header, literal, rows, types, length, bytewidth);
    DecodesIff(e, FileOf(header, literal), setup, rows, types, w, bpp);
    assert ImageFile(FileOf(header, literal), rows, types, length, bytewidth);
    forall file | ImageFile(file, rows, types, length, bytewidth)
      ensures 7 * w >= |rows| * SpareBits(w, bpp) + 8 ==> Decodes(file, setup, rows, w, bpp)
      ensures Decodes(file, setup, rows, w, bpp) ==> 7 * w >= |rows| * SpareBits(w, bpp)
    {
      var e :| Encodes(e, file, rows, types, length, bytewidth);
      DecodesIff(e, file, setup, rows, types, w, bpp);
      EncodedFits(e, file, rows, types, length, bytewidth, setup.outsize);
    }
  }

  lemma EncodedFits(e: Encoding, file: seq<byte>, rows: seq<seq<byte>>, types: seq<byte>, length: nat, bytewidth: nat,
                    outsize: nat)
    requires Encodes(e, file, rows, types, length, bytewidth)
    ensures Offset(length + 1, |rows|) < outsize ==> BlocksFit(e.blocks, outsize)
    ensures BlocksFit(e.blocks, outsize) ==> Offset(length + 1, |rows|) <= outsize
  {
    hide Compresses, Carries, BlocksFit, Offset;
    FitsIfRoom(e.blocks, rows, types, length, bytewidth, outsize);
  }

  /** Images that the computed size does not serve: a column of pixels of whole bytes, for which it is exactly the size
      of the rows, and a column of 100 one-bit pixels, for which it is 113 bytes instead of 200. */
  lemma NarrowImages(h: nat, bytes: nat)
    requires bytes >= 1
    ensures InflatedSize(1, h, 8 * bytes) == Offset(LineBytes(1, 8 * bytes) + 1, h)
    ensures h * SpareBits(1, 8 * bytes) <= 7 * 1 < h * SpareBits(1, 8 * bytes) + 8
    ensures InflatedSize(1, 100, 1) == 113 && Offset(LineBytes(1, 1) + 1, 100) == 200
    ensures 7 * 1 < 100 * SpareBits(1, 1)
  {
    hide Offset;
    assert SpareBits(1, 8 * bytes) == 0 && SpareBits(1, 1) == 7;
    assert h * SpareBits(1, 8 * bytes) == 0;
    RoomForRows(1, h, 8 * bytes);
    OffsetIsProduct(2, 100);
  }

  /** Of a column of pixels of whole bytes, whatever they are, one file is refused and another one decodes. */
  lemma ColumnFiles(rows: seq<seq<byte>>, types: seq<byte>, bytes: nat, setup: Zlib.Setup)
    requires bytes >= 1 && WellFormedRows(rows, types, LineBytes(1, 8 * bytes))
    requires setup.Valid() && Zlib.FixedTablesServe(setup) && setup.outsize == InflatedSize(1, |rows|, 8 * bytes)
    ensures exists file :: ImageFile(file, rows, types, LineBytes(1, 8 * bytes), ByteWidth(8 * bytes))
                           && !Decodes(file, setup, rows, 1, 8 * bytes)
    ensures exists file :: ImageFile(file, rows, types, LineBytes(1, 8 * bytes), ByteWidth(8 * bytes))
                           && Decodes(file, setup, rows, 1, 8 * bytes)
  {
    hide *;
    NarrowImages(|rows|, bytes);
    FilesDecode(rows, types, 1, 8 * bytes, setup);
  }

  /** Of a column of 100 one-bit pixels, whatever they are, no file decodes. */
  lemma OneBitColumn(rows: seq<seq<byte>>, types: seq<byte>, setup: Zlib.Setup, file: seq<byte>)
    requires |rows| == 100 && WellFormedRows(rows, types, LineBytes(1, 1))
    requires setup.Valid() && Zlib.FixedTablesServe(setup) && setup.outsize == InflatedSize(1, |rows|, 1)
    requires ImageFile(file, rows, types, LineBytes(1, 1), ByteWidth(1))
    ensures !Decodes(file, setup, rows, 1, 1)
  {
    hide *;
    NarrowImages(0, 1);
    FilesDecode(rows, types, 1, 1, setup);
  }
}
