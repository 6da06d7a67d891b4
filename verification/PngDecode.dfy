/** The chunk scans of a PNG file (section 3 of RFC 2083) and the decoder as a whole: gather the image data,
    inflate it, reconstruct the pixels. */
module PngDecode {
  import opened Bits
  import opened Offsets
  import opened UpngErrors
  import opened Lz77
  import opened PngFilter
  import opened PngImage
  import DynamicHeader
  import Zlib
  import Upng

  const INT_MAX := 2147483647
  const FIRST_CHUNK := 33
  const IDAT: seq<byte> := [73, 68, 65, 84]
  const IEND: seq<byte> := [73, 69, 78, 68]

  // ----- Scanning

  /** Four bytes, most significant first. */
  function Dword(buf: seq<byte>, p: nat): nat
    requires p + 4 <= |buf|
  {
    var a: nat, b: nat, c: nat, d: nat := buf[p], buf[p + 1], buf[p + 2], buf[p + 3];
    ((a * 256 + b) * 256 + c) * 256 + d
  }

  /** The decoder must understand a chunk whose type has bit 5 of its first byte clear. */
  predicate Critical(kind: seq<byte>)
    requires |kind| == 4
  {
    (kind[0] / 32) % 2 == 0
  }

  /** The gathered image data, or why the file is refused. */
  datatype Scan = Payload(idat: seq<byte>) | Refused(error: UpngError)

  /** The image data of the chunks from p on, up to the end chunk or the end of the file, behind what precedes it. */
  function ScanChunks(buf: seq<byte>, p: nat, before: seq<byte>): (r: Scan)
    ensures r.Payload? ==> before <= r.idat
    decreases |buf| - p
  {
    if p >= |buf| then Payload(before)
    else if p + 12 > |buf| then Refused(EMALFORMED)
    else
      var length := Dword(buf, p);
      if length > INT_MAX || p + length + 12 > |buf| then Refused(EMALFORMED)
      else
        var kind := buf[p + 4..p + 8];
        if kind == IDAT then ScanChunks(buf, p + length + 12, before + buf[p + 8..p + 8 + length])
        else if kind == IEND then Payload(before)
        else if Critical(kind) then Refused(EUNSUPPORTED)
        else ScanChunks(buf, p + length + 12, before)
  }

  /** First scan: check the chunks and add up the sizes of the image data. */
  method MeasureIdat(buf: seq<byte>) returns (error: UpngError, compressedSize: nat)
    ensures var r := ScanChunks(buf, FIRST_CHUNK, []);
            if r.Refused? then error == r.error && error != EOK else error == EOK && compressedSize == |r.idat|
  {
    ghost var goal := ScanChunks(buf, FIRST_CHUNK, []);
    ghost var idat: seq<byte> := [];
    var chunk := FIRST_CHUNK;
    error, compressedSize := EOK, 0;
    while chunk < |buf|
      invariant chunk >= FIRST_CHUNK && compressedSize == |idat| && error == EOK
      invariant ScanChunks(buf, chunk, idat) == goal
    {
      if chunk + 12 > |buf| {
        error := EMALFORMED;
        return;
      }
      var length := Dword(buf, chunk);
      if length > INT_MAX {
        error := EMALFORMED;
        return;
      }
      if chunk + length + 12 > |buf| {
        error := EMALFORMED;
        return;
      }
      var kind := buf[chunk + 4..chunk + 8];
      if kind == IDAT {
        compressedSize := compressedSize + length;
        idat := idat + buf[chunk + 8..chunk + 8 + length];
      } else if kind == IEND {
        break;
      } else if Critical(kind) {
        error := EUNSUPPORTED;
        return;
      }
      chunk := chunk + length + 12;
    }
  }

  /** Second scan, which trusts the first one: copy the image data into one buffer. */
  method GatherIdat(buf: seq<byte>, compressed: array<byte>) returns (compressedIndex: nat)
    requires ScanChunks(buf, FIRST_CHUNK, []).Payload?
    requires |ScanChunks(buf, FIRST_CHUNK, []).idat| <= compressed.Length
    modifies compressed
    ensures compressedIndex == |ScanChunks(buf, FIRST_CHUNK, []).idat|
    ensures compressed[..compressedIndex] == ScanChunks(buf, FIRST_CHUNK, []).idat
  {
    hide Dword, Critical;
    ghost var goal := ScanChunks(buf, FIRST_CHUNK, []);
    var chunk := FIRST_CHUNK;
    compressedIndex := 0;
    while chunk < |buf|
      invariant chunk >= FIRST_CHUNK && compressedIndex <= compressed.Length
      invariant ScanChunks(buf, chunk, compressed[..compressedIndex]) == goal
    {
      ghost var sofar := compressed[..compressedIndex];
      var length := Dword(buf, chunk);
      var kind := buf[chunk + 4..chunk + 8];
      if kind == IDAT {
        ghost var data := buf[chunk + 8..chunk + 8 + length];
        assert sofar + data <= goal.idat;
        CopyIn(compressed, compressedIndex, buf, chunk + 8, length);
        compressedIndex := compressedIndex + length;
        assert compressed[..compressedIndex] == sofar + data;
      } else if kind == IEND {
        break;
      }
      chunk := chunk + length + 12;
    }
  }

  /** memcpy of n bytes of the file. */
  method CopyIn(dest: array<byte>, at: nat, buf: seq<byte>, p: nat, n: nat)
    requires at + n <= dest.Length && p + n <= |buf|
    modifies dest
    ensures dest[..] == old(dest[..at]) + buf[p..p + n] + old(dest[at + n..])
  {
    forall k | 0 <= k < n {
      dest[at + k] := buf[p + k];
    }
  }

  // ----- Chunks as an encoder writes them

  datatype Chunk = Chunk(kind: seq<byte>, data: seq<byte>, crc: seq<byte>) {
    /** A chunk the decoder reads or may skip. */
    predicate Valid() {
      && |kind| == 4 && |crc| == 4 && |data| <= INT_MAX
      && kind != IEND && (kind == IDAT || !Critical(kind))
    }

    function Bytes(): (r: seq<byte>)
      requires |kind| == 4 && |crc| == 4 && |data| <= INT_MAX
      ensures |r| == |data| + 12
    {
      DwordBytes(|data|) + kind + data + crc
    }

    /** What the chunk adds to the image data. */
    function Idat(): seq<byte> {
      if kind == IDAT then data else []
    }
  }

  function DwordBytes(n: nat): (r: seq<byte>)
    requires n <= INT_MAX
    ensures |r| == 4
  {
    [n / 256 / 256 / 256, n / 256 / 256 % 256, n / 256 % 256, n % 256]
  }

  predicate ValidChunks(chunks: seq<Chunk>) {
    forall k :: 0 <= k < |chunks| ==> chunks[k].Valid()
  }

  function ChunksBytes(chunks: seq<Chunk>): seq<byte>
    requires ValidChunks(chunks)
  {
    if chunks == [] then [] else chunks[0].Bytes() + ChunksBytes(chunks[1..])
  }

  function ChunksIdat(chunks: seq<Chunk>): seq<byte> {
    if chunks == [] then [] else chunks[0].Idat() + ChunksIdat(chunks[1..])
  }

  lemma DwordRoundTrip(buf: seq<byte>, p: nat, n: nat)
    requires p + 4 <= |buf| && n <= INT_MAX && buf[p..p + 4] == DwordBytes(n)
    ensures Dword(buf, p) == n
  {
    var s := buf[p..p + 4];
    assert s[0] == buf[p] && s[1] == buf[p + 1] && s[2] == buf[p + 2] && s[3] == buf[p + 3];
    DigitsOf(n);
  }

  lemma DigitsOf(n: nat)
    ensures n == ((n / 256 / 256 / 256 * 256 + n / 256 / 256 % 256) * 256 + n / 256 % 256) * 256 + n % 256
  {
    var x := n / 256;
    var y := x / 256;
    assert y == y / 256 * 256 + y % 256;
    assert x == y * 256 + x % 256;
  }

  /** The fields of a chunk that stands at p. */
  lemma ChunkAt(buf: seq<byte>, p: nat, c: Chunk)
    requires |c.kind| == 4 && |c.crc| == 4 && |c.data| <= INT_MAX
    requires p + |c.Bytes()| <= |buf| && buf[p..p + |c.Bytes()|] == c.Bytes()
    ensures Dword(buf, p) == |c.data| && buf[p + 4..p + 8] == c.kind && buf[p + 8..p + 8 + |c.data|] == c.data
  {
    hide Dword, DwordBytes;
    var s, n := c.Bytes(), |c.data|;
    assert s[0..4] == DwordBytes(n) && s[4..8] == c.kind && s[8..8 + n] == c.data;
    SliceOfSlice(buf, p, p + |s|, 0, 4);
    SliceOfSlice(buf, p, p + |s|, 4, 8);
    SliceOfSlice(buf, p, p + |s|, 8, 8 + n);
    DwordRoundTrip(buf, p, n);
  }

  lemma ScanOne(buf: seq<byte>, p: nat, c: Chunk, before: seq<byte>)
    requires c.Valid() && p + |c.Bytes()| <= |buf| && buf[p..p + |c.Bytes()|] == c.Bytes()
    ensures ScanChunks(buf, p, before) == ScanChunks(buf, p + |c.Bytes()|, before + c.Idat())
  {
    hide Dword, Critical, Chunk.Bytes;
    ChunkAt(buf, p, c);
    assert before + [] == before;
  }

  lemma ScanEnd(buf: seq<byte>, p: nat, end: Chunk, before: seq<byte>)
    requires end.kind == IEND && |end.crc| == 4 && |end.data| <= INT_MAX
    requires p == |buf| || (p <= |buf| && end.Bytes() <= buf[p..])
    ensures ScanChunks(buf, p, before) == Payload(before)
  {
    hide Dword, Critical, Chunk.Bytes;
    if p < |buf| {
      assert buf[p..][..|end.Bytes()|] == end.Bytes();
      ChunkAt(buf, p, end);
    }
  }

  /** A file of any chunks the decoder reads or may skip, ended by an end chunk or by its end, gives the
      concatenation of its image data. */
  lemma {:induction false} ScanRoundTrip(buf: seq<byte>, p: nat, chunks: seq<Chunk>, before: seq<byte>, end: Chunk)
    requires ValidChunks(chunks) && p <= |buf|
    requires end.kind == IEND && |end.crc| == 4 && |end.data| <= INT_MAX
    requires buf[p..] == ChunksBytes(chunks) || ChunksBytes(chunks) + end.Bytes() <= buf[p..]
    ensures ScanChunks(buf, p, before) == Payload(before + ChunksIdat(chunks))
    decreases |chunks|
  {
    hide Dword, Critical, Chunk.Bytes, Chunk.Idat, ScanChunks, ChunksBytes, ChunksIdat;
    ChunksStep(chunks);
    if chunks == [] {
      assert before + [] == before;
      EndAtLast(buf, p, end);
      ScanEnd(buf, p, end, before);
    } else {
      var c, rest := chunks[0], chunks[1..];
      var next, after := p + |c.Bytes()|, before + c.Idat();
      FirstChunk(buf, p, c, ChunksBytes(rest), end.Bytes());
      ScanOne(buf, p, c, before);
      ScanRoundTrip(buf, next, rest, after, end);
      Reassociate(before, c.Idat(), ChunksIdat(rest));
    }
  }

  lemma ChunksStep(chunks: seq<Chunk>)
    requires ValidChunks(chunks)
    ensures chunks == [] ==> ChunksBytes(chunks) == [] && ChunksIdat(chunks) == []
    ensures chunks != [] ==> var c, rest := chunks[0], chunks[1..];
      && c.Valid() && ValidChunks(rest) && ChunksBytes(chunks) == c.Bytes() + ChunksBytes(rest)
      && ChunksIdat(chunks) == c.Idat() + ChunksIdat(rest)
  {
    hide Chunk.Bytes, Chunk.Idat, Chunk.Valid;
  }

  lemma EndAtLast(buf: seq<byte>, p: nat, end: Chunk)
    requires p <= |buf| && |end.kind| == 4 && |end.crc| == 4 && |end.data| <= INT_MAX
    requires buf[p..] == [] || [] + end.Bytes() <= buf[p..]
    ensures p == |buf| || end.Bytes() <= buf[p..]
  {
    hide Chunk.Bytes;
    assert [] + end.Bytes() == end.Bytes();
  }

  lemma Reassociate(a: seq<byte>, b: seq<byte>, c: seq<byte>)
    ensures (a + b) + c == a + (b + c)
  {
  }

  lemma FirstChunk(buf: seq<byte>, p: nat, c: Chunk, rest: seq<byte>, end: seq<byte>)
    requires p <= |buf| && c.Valid()
    requires buf[p..] == c.Bytes() + rest || (c.Bytes() + rest) + end <= buf[p..]
    ensures var q := p + |c.Bytes()|;
            && q <= |buf| && buf[p..q] == c.Bytes()
            && (buf[q..] == rest || rest + end <= buf[q..])
  {
    hide Chunk.Bytes;
    var s, q := c.Bytes(), p + |c.Bytes()|;
    assert buf[p..][..|s|] == s;
    assert buf[q..] == buf[p..][|s|..];
  }

  // ----- The decoder

  /** Size of the buffer for the inflated data. */
  function InflatedSize(w: nat, h: nat, bpp: nat): nat {
    w * (h * bpp + 7) / 8 + h
  }

  /** What inflating the image data of a file gives; tail is what the buffer for it holds behind the data. */
  function InflatedFile(file: seq<byte>, tail: seq<byte>, setup: Zlib.Setup): (r: Inflated)
    requires |tail| >= 2 + SLACK && setup.Valid()
  {
    match ScanChunks(file, FIRST_CHUNK, [])
    case Refused(_) => Failed([])
    case Payload(idat) => Zlib.Inflate(idat + tail, |idat|, setup)
  }

  /** Decode a file whose header gave the image size and the bits of a pixel: compressed and inflated are the two
      work buffers; tail and data are what they hold behind the image data and after inflating. */
  method Decode(file: seq<byte>, w: nat, h: nat, bpp: nat, out: array<byte>, compressed: array<byte>,
                inflated: array<byte>, fixedLitLen: array<nat>, fixedDist: array<nat>, below: nat -> byte, stray: nat)
    returns (error: UpngError, ghost tail: seq<byte>, ghost data: seq<byte>)
    requires w >= 1 && out != inflated && out != compressed && inflated != compressed
    requires compressed.Length < 0x1_0000_0000
    requires var scan := ScanChunks(file, FIRST_CHUNK, []);
             scan.Payload? ==> |scan.idat| + 2 + SLACK <= compressed.Length
    requires InflatedSize(w, h, bpp) <= inflated.Length && InflatedSize(w, h, bpp) < 0x8000_0000
    requires Offset(LineBytes(w, bpp) + 1, h) <= inflated.Length && Offset(LineBytes(w, bpp), h) <= out.Length
    requires fixedLitLen.Length == 2 * DynamicHeader.NUM_DEFLATE_CODE_SYMBOLS && stray <= 15
    requires fixedDist.Length == 2 * DynamicHeader.NUM_DISTANCE_SYMBOLS
    modifies out, compressed, inflated
    ensures |tail| >= 2 + SLACK
    ensures var setup := Zlib.Setup(InflatedSize(w, h, bpp), fixedLitLen[..], fixedDist[..], below, stray);
            Decoded(InflatedFile(file, tail, setup), data, out[..], error, w, h, bpp)
    ensures match ScanChunks(file, FIRST_CHUNK, [])
            case Refused(e) => error == e
            case Payload(_) => error == EOK || error == EMALFORMED
  {
    hide Zlib.Inflate, ScanChunks, GoodRows, Image, Shows, InflatedSize, LineBytes, Offset;
    error, tail, data := EOK, seq<byte>(2 + SLACK, _ => 0), [];
    var compressedSize;
    error, compressedSize := MeasureIdat(file);
    if error != EOK {
      return;
    }
    var compressedIndex := GatherIdat(file, compressed);
    tail := compressed[compressedIndex..];
    assert compressed[..] == compressed[..compressedIndex] + tail;
    var written;
    error, written := Upng.UzInflate(compressed[..], compressedSize, inflated, InflatedSize(w, h, bpp),
                                     fixedLitLen, fixedDist, below, stray);
    data := inflated[..];
    if error != EOK {
      return;
    }
    assert inflated[..written] <= data;
    error := PostProcessScanlines(out, inflated, w, h, bpp);
  }

  /** The outcome of decoding a file whose image data inflates to r: an error if inflating failed, the pixel format is
      empty, or a filter type is unknown; otherwise out shows the image that data, which begins with what was
      inflated, stands for. */
  ghost predicate Decoded(r: Inflated, data: seq<byte>, out: seq<byte>, error: UpngError, w: nat, h: nat, bpp: nat) {
    if r.Failed? || bpp == 0 then error != EOK
    else
      && r.out <= data && Offset(LineBytes(w, bpp) + 1, h) <= |data|
      && (error == EOK <==> GoodRows(data, LineBytes(w, bpp), h) == h)
      && (error == EOK ==> Shows(out, data, w * bpp, LineBytes(w, bpp), h, bpp))
  }

  // ----- The chunks of section 3 of RFC 2083, by letters

  predicate Letter(b: byte) {
    'A' as int <= b <= 'Z' as int || 'a' as int <= b <= 'z' as int
  }

  /** The bytes of a chunk type given by its letters. */
  function TypeOfName(name: string): (kind: seq<byte>)
    requires forall k :: 0 <= k < |name| ==> name[k] as int < 256
    ensures |kind| == |name|
  {
    seq<byte>(|name|, k requires 0 <= k < |name| => name[k] as int)
  }

  /** Numbers have their most significant byte first, the first chunk comes behind eight bytes and a chunk of 13, and
      two types are known by name. */
  lemma FileFormat(buf: seq<byte>, p: nat, header: Chunk)
    requires p + 4 <= |buf| && |header.kind| == 4 && |header.data| == 13 && |header.crc| == 4
    ensures var a: nat, b: nat, c: nat, d: nat := buf[p], buf[p + 1], buf[p + 2], buf[p + 3];
            Dword(buf, p) == 0x100_0000 * a + 0x1_0000 * b + 0x100 * c + d
    ensures FIRST_CHUNK == 8 + |header.Bytes()|
    ensures IDAT == TypeOfName("IDAT") && IEND == TypeOfName("IEND")
  {
  }

  /** Of the types of four letters, those that begin with a capital must be understood. */
  lemma CriticalLetters(kind: seq<byte>)
    requires |kind| == 4 && Letter(kind[0])
    ensures Critical(kind) <==> 'A' as int <= kind[0] <= 'Z' as int
  {
  }

  /** A chunk of an unknown type is skipped if its type begins with a small letter, and refused if with a capital. */
  lemma ForeignChunk(buf: seq<byte>, p: nat, c: Chunk, before: seq<byte>)
    requires |c.kind| == 4 && |c.crc| == 4 && |c.data| < 0x8000_0000 && c.kind != IDAT && c.kind != IEND
    requires Letter(c.kind[0]) && p + |c.Bytes()| <= |buf| && buf[p..p + |c.Bytes()|] == c.Bytes()
    ensures ScanChunks(buf, p, before)
            == if c.kind[0] <= 'Z' as int then Refused(EUNSUPPORTED)
               else ScanChunks(buf, p + |c.Bytes()|, before)
  {
    hide Dword, Critical, Chunk.Bytes;
    CriticalLetters(c.kind);
    ChunkAt(buf, p, c);
  }

  /** The chunk carries image data, or its type begins with a small letter. */
  predicate Ordinary(c: Chunk) {
    && |c.kind| == 4 && |c.crc| == 4 && |c.data| < 0x8000_0000
    && (c.kind == TypeOfName("IDAT") || 'a' as int <= c.kind[0] <= 'z' as int)
  }

  /** Files of such chunks scan to their image data, however many others are between; one more chunk that begins with a
      capital, unless it is the end, and the file is refused. */
  lemma ScanByLetters(buf: seq<byte>, chunks: seq<Chunk>, next: Chunk)
    requires (forall k :: 0 <= k < |chunks| ==> Ordinary(chunks[k])) && |buf| >= FIRST_CHUNK
    requires |next.kind| == 4 && |next.crc| == 4 && |next.data| < 0x8000_0000 && next.kind != TypeOfName("IDAT")
    requires 'A' as int <= next.kind[0] <= 'Z' as int
    ensures ValidChunks(chunks)
    ensures ChunksBytes(chunks) + next.Bytes() <= buf[FIRST_CHUNK..] ==>
              ScanChunks(buf, FIRST_CHUNK, [])
              == if next.kind == TypeOfName("IEND") then Payload(ChunksIdat(chunks)) else Refused(EUNSUPPORTED)
  {
    hide Dword, Critical, Chunk.Bytes, ScanChunks, ChunksBytes, ChunksIdat;
    KnownTypes();
    forall k | 0 <= k < |chunks| ensures chunks[k].Valid() { OrdinaryIsValid(chunks[k]); }
    if ChunksBytes(chunks) + next.Bytes() <= buf[FIRST_CHUNK..] {
      if next.kind == IEND {
        ScanRoundTrip(buf, FIRST_CHUNK, chunks, [], next);
        assert [] + ChunksIdat(chunks) == ChunksIdat(chunks);
      } else {
        ScanUpTo(buf, FIRST_CHUNK, chunks, [], next);
      }
    }
  }

  lemma KnownTypes()
    ensures TypeOfName("IDAT") == IDAT && TypeOfName("IEND") == IEND
  {
  }

  lemma OrdinaryIsValid(c: Chunk)
    requires Ordinary(c)
    ensures c.Valid()
  {
    KnownTypes();
    if c.kind != IDAT { CriticalLetters(c.kind); }
  }

  lemma {:induction false} ScanUpTo(buf: seq<byte>, p: nat, chunks: seq<Chunk>, before: seq<byte>, next: Chunk)
    requires ValidChunks(chunks) && p <= |buf|
    requires |next.kind| == 4 && |next.crc| == 4 && |next.data| < 0x8000_0000 && next.kind != IDAT && next.kind != IEND
    requires 'A' as int <= next.kind[0] <= 'Z' as int
    requires ChunksBytes(chunks) + next.Bytes() <= buf[p..]
    ensures ScanChunks(buf, p, before) == Refused(EUNSUPPORTED)
    decreases |chunks|
  {
    hide Dword, Critical, Chunk.Bytes, Chunk.Idat, ScanChunks, ChunksBytes, ChunksIdat;
    ChunksStep(chunks);
    if chunks == [] {
      assert [] + next.Bytes() == next.Bytes();
      assert buf[p..][..|next.Bytes()|] == buf[p..p + |next.Bytes()|];
      ForeignChunk(buf, p, next, before);
    } else {
      var c, rest := chunks[0], chunks[1..];
      FirstChunk(buf, p, c, ChunksBytes(rest), next.Bytes());
      ScanOne(buf, p, c, before);
      ScanUpTo(buf, p + |c.Bytes()|, rest, before + c.Idat(), next);
    }
  }

  /** A chunk that does not end inside the file, or claims more than INT_MAX bytes, makes the file malformed. */
  lemma TruncatedChunk(buf: seq<byte>, p: nat, before: seq<byte>)
    requires p < |buf|
    requires p + 12 <= |buf| ==> Dword(buf, p) >= 0x8000_0000 || p + 12 + Dword(buf, p) > |buf|
    ensures ScanChunks(buf, p, before) == Refused(EMALFORMED)
  {
    hide Dword, Critical;
  }
}
