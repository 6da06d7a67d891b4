/** Blocks, the DEFLATE stream (section 3.2.3 of RFC 1951) and its zlib wrapper (section 2.2 of RFC 1950). */
module Zlib {
  import opened Bits
  import opened CanonicalCode
  import opened HuffmanTree
  import opened DynamicHeader
  import opened Lz77

  /** What the inflater is given besides its input: the size of the output buffer, the two tables of
      fixed codes, and what it would find where it reads outside its own buffers. */
  datatype Setup = Setup(outsize: nat, fixedLitLen: seq<nat>, fixedDist: seq<nat>, below: nat -> byte, stray: nat) {
    predicate Valid() {
      |fixedLitLen| == 2 * NUM_DEFLATE_CODE_SYMBOLS && |fixedDist| == 2 * NUM_DISTANCE_SYMBOLS
    }
  }

  // ----- What the inflater does

  function ByteAt(src: Source, p: nat): byte
    requires 8 * p + 8 <= |src.bits|
  {
    assert Pow2(8) == 256;
    ValueAt(src.bits, 8 * p, 8)
  }

  function BytesAt(src: Source, p: nat, n: nat): (r: seq<byte>)
    requires 8 * (p + n) <= |src.bits|
    ensures |r| == n
  {
    seq<byte>(n, k requires 0 <= k < n => ByteAt(src, p + k))
  }

  /** Two bytes, least significant first. */
  function WordAt(src: Source, p: nat): (r: nat)
    requires 8 * p + 16 <= |src.bits|
    ensures r < 65536
  {
    ByteAt(src, p) + 256 * ByteAt(src, p + 1)
  }

  /** A stored block whose three header bits end at bp. */
  function InflateStored(src: Source, bp: nat, out: seq<byte>, outsize: nat): (r: Inflated)
    requires src.Padded() && bp <= 8 * (src.inlength + 1) && |out| <= outsize
    ensures |r.out| <= outsize
    ensures r.Inflated? ==> bp < r.bp <= src.Limit()
  {
    var p := (bp + 7) / 8;
    if p >= Sub32(src.inlength, 4) then Failed(out)
    else
      var len, nlen := WordAt(src, p), WordAt(src, p + 2);
      if len + nlen != 65535 || |out| + len >= outsize || p + 4 + len > src.inlength then Failed(out)
      else Inflated(out + BytesAt(src, p + 4, len), 8 * (p + 4 + len))
  }

  /** A compressed block whose three header bits end at bp. */
  function InflateHuffman(src: Source, bp: nat, btype: nat, out: seq<byte>, setup: Setup): (r: Inflated)
    requires src.Padded() && src.inlength >= 2 && setup.Valid()
    requires bp <= src.Limit() && |out| <= setup.outsize
    ensures |r.out| <= setup.outsize
    ensures r.Inflated? ==> bp < r.bp <= src.Limit()
  {
    if btype == 1 then
      InflateTokens(setup.fixedLitLen, setup.fixedDist, src, bp, out, setup.outsize, setup.below)
    else
      match ReadTrees(src, bp, setup.stray)
      case BadTrees => Failed(out)
      case Trees(ll, dd, b) => InflateTokens(ll, dd, src, b, out, setup.outsize, setup.below)
  }

  function InflateBlock(src: Source, bp: nat, btype: nat, out: seq<byte>, setup: Setup): (r: Inflated)
    requires src.Padded() && src.inlength >= 2 && setup.Valid()
    requires bp <= 8 * (src.inlength + 1) && |out| <= setup.outsize
    ensures |r.out| <= setup.outsize
    ensures r.Inflated? ==> bp < r.bp <= src.Limit()
  {
    if btype == 3 then Failed(out)
    else if btype == 0 then InflateStored(src, bp, out, setup.outsize)
    else InflateHuffman(src, bp, btype, out, setup)
  }

  /** The second and third header bits. */
  function BlockType(src: Source, bp: nat): (t: nat)
    requires bp + 3 <= |src.bits|
    ensures t <= 3
  {
    var low: nat, high: nat := src.bits[bp + 1], src.bits[bp + 2];
    low + 2 * high
  }

  /** The block loop. */
  function InflateBlocks(src: Source, bp: nat, out: seq<byte>, setup: Setup): (r: Inflated)
    requires src.Padded() && src.inlength >= 2 && setup.Valid()
    requires bp <= src.Limit() && |out| <= setup.outsize
    ensures |r.out| <= setup.outsize
    decreases src.Limit() - bp
  {
    if bp / 8 >= src.inlength then Failed(out)
    else
      match InflateBlock(src, bp + 3, BlockType(src, bp), out, setup)
      case Failed(o) => Failed(o)
      case Inflated(o, b) => if src.bits[bp] == 1 then Inflated(o, b) else InflateBlocks(src, b, o, setup)
  }

  /** The two header bytes are acceptable: a multiple of 31, method 8, a window of at most 32k, no dictionary. */
  predicate WrapperOk(cmf: byte, flg: byte) {
    (cmf * 256 + flg) % 31 == 0 && cmf % 16 == 8 && (cmf / 16) % 16 <= 7 && (flg / 32) % 2 == 0
  }

  /** A zlib stream of insize bytes; the inflater counts the two header bytes as input left to read. */
  function Inflate(data: seq<byte>, insize: nat, setup: Setup): (r: Inflated)
    requires |data| >= insize + 2 + SLACK && setup.Valid()
    ensures |r.out| <= setup.outsize
  {
    if insize < 2 || !WrapperOk(data[0], data[1]) then Failed([])
    else InflateBlocks(Source(BitsOf(data[2..]), insize), 0, [], setup)
  }

  // ----- What an encoder writes

  /** Code lengths of the fixed codes (section 3.2.6 of RFC 1951). */
  function FixedLens(): (r: seq<nat>)
    ensures |r| == NUM_DEFLATE_CODE_SYMBOLS
  {
    seq(NUM_DEFLATE_CODE_SYMBOLS, i => if i < 144 then 8 else if i < 256 then 9 else if i < 280 then 7 else 8)
  }

  function FixedDistLens(): (r: seq<nat>)
    ensures |r| == NUM_DISTANCE_SYMBOLS
  {
    seq(NUM_DISTANCE_SYMBOLS, _ => 5)
  }

  /** The tables of the fixed codes hold the fixed codes. */
  ghost predicate FixedTablesServe(setup: Setup) {
    Serves(setup.fixedLitLen, FixedLens()) && Serves(setup.fixedDist, FixedDistLens())
  }

  /** They only matter to streams that use them. */
  ghost predicate TablesServe(setup: Setup, blocks: seq<Block>) {
    forall k :: 0 <= k < |blocks| && blocks[k].FixedBlock? ==> FixedTablesServe(setup)
  }

  /** Bits to the next byte boundary. */
  function Padding(bp: nat): (s: seq<bit>)
    ensures (bp + |s|) / 8 == (bp + 7) / 8 && (bp + |s|) % 8 == 0
  {
    seq((8 - bp % 8) % 8, _ => 0)
  }

  /** One block of any of the three kinds. */
  datatype Block = StoredBlock(data: seq<byte>) | FixedBlock(tokens: seq<Token>)
                 | DynamicBlock(header: Header, tokens: seq<Token>)
  {
    /** The block can be written after n bytes of output. */
    predicate Valid(n: nat) {
      match this
      case StoredBlock(data) => |data| <= 65535
      case FixedBlock(tokens) => TokensEncodable(tokens, FixedLens(), FixedDistLens(), n)
      case DynamicBlock(h, tokens) =>
        h.WellFormed() && h.Buildable() && TokensEncodable(tokens, h.LitLen(), h.Dist(), n)
    }

    function Kind(): nat {
      match this
      case StoredBlock(_) => 0
      case FixedBlock(_) => 1
      case DynamicBlock(_, _) => 2
    }

    /** The bits after the three header bits, which end at bp. */
    function Body(bp: nat, n: nat): seq<bit>
      requires Valid(n)
    {
      match this
      case StoredBlock(data) =>
        Padding(bp) + LsbFirst(|data|, 16) + LsbFirst(65535 - |data|, 16) + BitsOf(data)
      case FixedBlock(tokens) => TokensBits(tokens, FixedLens(), FixedDistLens(), n)
      case DynamicBlock(h, tokens) => h.Bits() + TokensBits(tokens, h.LitLen(), h.Dist(), n)
    }

    /** The output after the block. */
    function Output(out: seq<byte>): (r: seq<byte>)
      requires Valid(|out|)
    {
      match this
      case StoredBlock(data) => out + data
      case FixedBlock(tokens) => Expansion(tokens, FixedLens(), FixedDistLens(), out)
      case DynamicBlock(h, tokens) => Expansion(tokens, h.LitLen(), h.Dist(), out)
    }

    /** The block fits an output buffer that holds n bytes so far; a stored block must leave one byte free. */
    predicate Fits(n: nat, outsize: nat)
      requires Valid(n)
    {
      match this
      case StoredBlock(data) => n + |data| < outsize
      case FixedBlock(tokens) => AllFit(tokens, FixedLens(), FixedDistLens(), n, outsize)
      case DynamicBlock(h, tokens) => AllFit(tokens, h.LitLen(), h.Dist(), n, outsize)
    }
  }

  predicate ValidBlocks(blocks: seq<Block>, out: seq<byte>)
    decreases |blocks|
  {
    blocks == [] || (blocks[0].Valid(|out|) && ValidBlocks(blocks[1..], blocks[0].Output(out)))
  }

  function HeaderBits(final: bool, kind: nat): seq<bit> {
    [if final then 1 else 0, kind % 2, (kind / 2) % 2]
  }

  /** The bits of the first block; the last block of a stream is marked final. */
  function FirstBits(blocks: seq<Block>, bp: nat, out: seq<byte>): (s: seq<bit>)
    requires blocks != [] && blocks[0].Valid(|out|)
    ensures |s| >= 3
  {
    HeaderBits(|blocks| == 1, blocks[0].Kind()) + blocks[0].Body(bp + 3, |out|)
  }

  /** The bits of a stream of blocks that starts at bit position bp after output out. */
  function StreamBits(blocks: seq<Block>, bp: nat, out: seq<byte>): seq<bit>
    requires ValidBlocks(blocks, out)
    decreases |blocks|
  {
    if blocks == [] then []
    else
      var b := blocks[0];
      var head := FirstBits(blocks, bp, out);
      head + StreamBits(blocks[1..], bp + |head|, b.Output(out))
  }

  function StreamOutput(blocks: seq<Block>, out: seq<byte>): seq<byte>
    requires ValidBlocks(blocks, out)
    decreases |blocks|
  {
    if blocks == [] then out else StreamOutput(blocks[1..], blocks[0].Output(out))
  }

  predicate StreamFits(blocks: seq<Block>, out: seq<byte>, outsize: nat)
    requires ValidBlocks(blocks, out)
    decreases |blocks|
  {
    blocks == [] || (blocks[0].Fits(|out|, outsize) && StreamFits(blocks[1..], blocks[0].Output(out), outsize))
  }

  // ----- Stored blocks

  /** The same bits elsewhere are the same number. */
  lemma {:induction false} ValueElsewhere(a: seq<bit>, i: nat, b: seq<bit>, j: nat, n: nat)
    requires i + n <= |a| && j + n <= |b| && a[i..i + n] == b[j..j + n]
    ensures ValueAt(a, i, n) == ValueAt(b, j, n)
    decreases n
  {
    if n > 0 {
      assert a[i] == a[i..i + n][0] && b[j] == b[j..j + n][0];
      assert a[i + 1..i + n] == a[i..i + n][1..] && b[j + 1..j + n] == b[j..j + n][1..];
      ValueElsewhere(a, i + 1, b, j + 1, n - 1);
    }
  }

  lemma StoredBytes(src: Source, p: nat, data: seq<byte>)
    requires BitsAt(src.bits, 8 * p, BitsOf(data))
    ensures BytesAt(src, p, |data|) == data
  {
    var r := BytesAt(src, p, |data|);
    forall k | 0 <= k < |data| ensures r[k] == data[k] {
      assert r[k] == ByteAt(src, p + k);
      StoredByte(src, p, data, k);
    }
  }

  lemma StoredByte(src: Source, p: nat, data: seq<byte>, k: nat)
    requires BitsAt(src.bits, 8 * p, BitsOf(data)) && k < |data|
    ensures ByteAt(src, p + k) == data[k]
  {
    var d := BitsOf(data);
    hide BitsOf;
    SliceOfSlice(src.bits, 8 * p, 8 * p + |d|, 8 * k, 8 * k + 8);
    ValueElsewhere(src.bits, 8 * (p + k), d, 8 * k, 8);
    ValueOfByte(data, k);
  }

  lemma {:induction false} ValueAtConcat(bits: seq<bit>, bp: nat, a: nat, b: nat)
    requires bp + a + b <= |bits|
    ensures ValueAt(bits, bp, a + b) == ValueAt(bits, bp, a) + Shl(ValueAt(bits, bp + a, b), a)
    decreases a
  {
    if a > 0 {
      ValueAtConcat(bits, bp + 1, a - 1, b);
    }
  }

  lemma ShlEight(x: nat)
    ensures Shl(x, 8) == 256 * x
  {
  }

  lemma StoredWord(src: Source, p: nat, v: nat)
    requires v < 65536 && BitsAt(src.bits, 8 * p, LsbFirst(v, 16))
    ensures WordAt(src, p) == v
  {
    assert 8 * p + 16 <= |src.bits|;
    hide BitsAt, LsbFirst, ValueAt;
    assert Pow2(16) == 65536 by {
      assert Pow2(4) == 16 && Pow2(8) == 256 && Pow2(12) == 4096;
    }
    ValueOfLsbFirst(src.bits, 8 * p, v, 16);
    ValueAtConcat(src.bits, 8 * p, 8, 8);
    ShlEight(ValueAt(src.bits, 8 * p + 8, 8));
  }

  lemma SplitFour(bits: seq<bit>, bp: nat, a: seq<bit>, b: seq<bit>, c: seq<bit>, d: seq<bit>)
    requires BitsAt(bits, bp, a + b + c + d)
    ensures BitsAt(bits, bp, a) && BitsAt(bits, bp + |a|, b) && BitsAt(bits, bp + |a| + |b|, c)
    ensures BitsAt(bits, bp + |a| + |b| + |c|, d)
  {
    BitsAtSplit(bits, bp, a + b + c, d);
    BitsAtSplit(bits, bp, a + b, c);
    BitsAtSplit(bits, bp, a, b);
  }

  /** A stored block is copied from the next byte boundary on, provided it leaves a byte free. */
  lemma StoredRoundTrip(src: Source, bp: nat, data: seq<byte>, out: seq<byte>, outsize: nat)
    requires src.Padded() && |data| <= 65535 && |out| <= outsize && src.inlength >= 4
    requires BitsAt(src.bits, bp, StoredBlock(data).Body(bp, |out|))
    requires bp + |StoredBlock(data).Body(bp, |out|)| + 16 <= 8 * src.inlength
    ensures InflateStored(src, bp, out, outsize)
            == if |out| + |data| < outsize then Inflated(out + data, bp + |StoredBlock(data).Body(bp, |out|)|)
               else Failed(out)
  {
    hide Padding, LsbFirst, BitsOf, WordAt, BytesAt, BitsAt;
    var a, b, c, d := Padding(bp), LsbFirst(|data|, 16), LsbFirst(65535 - |data|, 16), BitsOf(data);
    var p := (bp + 7) / 8;
    assert 8 * p == bp + |a|;
    SplitFour(src.bits, bp, a, b, c, d);
    StoredWord(src, p, |data|);
    StoredWord(src, p + 2, 65535 - |data|);
    StoredBytes(src, p + 4, data);
  }

  // ----- One block and the stream

  lemma CompressedRoundTrip(src: Source, bp: nat, block: Block, out: seq<byte>, setup: Setup)
    requires src.Padded() && src.inlength >= 2 && setup.Valid()
    requires block.FixedBlock? ==> FixedTablesServe(setup)
    requires !block.StoredBlock? && block.Valid(|out|) && |out| <= setup.outsize
    requires BitsAt(src.bits, bp, block.Body(bp, |out|)) && bp + |block.Body(bp, |out|)| + 16 <= 8 * src.inlength
    ensures bp <= src.Limit()
    ensures var r := InflateHuffman(src, bp, block.Kind(), out, setup);
            if block.Fits(|out|, setup.outsize)
            then r == Inflated(block.Output(out), bp + |block.Body(bp, |out|)|) else r.Failed?
  {
    hide BitsAt, Serves, TokensBits, InflateTokens, TokensEncodable, Expansion, AllFit, FixedLens, FixedDistLens,
         ReadTrees, Tree, TreeFits, Feasible, Header.Bits, Header.WellFormed, Header.LitLen, Header.Dist;
    if block.FixedBlock? {
      FixedLensUseEnd();
      TokensRoundTrip(setup.fixedLitLen, setup.fixedDist, FixedLens(), FixedDistLens(), src, bp, out, setup.outsize,
                      setup.below, block.tokens);
    } else {
      var h := block.header;
      var tail := TokensBits(block.tokens, h.LitLen(), h.Dist(), |out|);
      BitsAtSplit(src.bits, bp, h.Bits(), tail);
      HeaderRoundTrip(h, src, bp, setup.stray);
      TreeServes(h.LitLen(), DEFLATE_CODE_BITLEN);
      TreeServes(h.Dist(), DEFLATE_CODE_BITLEN);
      TokensRoundTrip(Tree(h.LitLen()), Tree(h.Dist()), h.LitLen(), h.Dist(), src, bp + |h.Bits()|, out, setup.outsize,
                      setup.below, block.tokens);
    }
  }

  lemma FixedLensUseEnd()
    ensures FixedLens()[END_CODE] > 0
  {
  }

  /** What a stretch of the input must inflate to: the expected output and end position if it fits, else an error. */
  ghost predicate Gives(r: Inflated, fits: bool, out: seq<byte>, bp: nat) {
    if fits then r == Inflated(out, bp) else r.Failed?
  }

  lemma BlockRoundTrip(src: Source, bp: nat, block: Block, out: seq<byte>, setup: Setup)
    requires src.Padded() && src.inlength >= 4 && setup.Valid()
    requires block.FixedBlock? ==> FixedTablesServe(setup)
    requires block.Valid(|out|) && |out| <= setup.outsize
    requires BitsAt(src.bits, bp, block.Body(bp, |out|)) && bp + |block.Body(bp, |out|)| + 16 <= 8 * src.inlength
    ensures bp <= 8 * (src.inlength + 1)
    ensures Gives(InflateBlock(src, bp, block.Kind(), out, setup), block.Fits(|out|, setup.outsize),
                  block.Output(out), bp + |block.Body(bp, |out|)|)
  {
    hide BitsAt, FixedTablesServe, InflateStored, InflateHuffman, TokensEncodable, TokensBits, Expansion, AllFit,
         Header.Bits, Header.WellFormed, Header.Buildable, Header.LitLen, Header.Dist, Padding, LsbFirst, BitsOf;
    if block.StoredBlock? {
      StoredRoundTrip(src, bp, block.data, out, setup.outsize);
    } else {
      CompressedRoundTrip(src, bp, block, out, setup);
    }
  }

  lemma HeaderBitsAt(src: Source, bp: nat, final: bool, kind: nat)
    requires kind <= 2 && BitsAt(src.bits, bp, HeaderBits(final, kind))
    ensures src.bits[bp] == (if final then 1 else 0) && BlockType(src, bp) == kind
  {
    var s := src.bits[bp..bp + 3];
    assert s[0] == src.bits[bp] && s[1] == src.bits[bp + 1] && s[2] == src.bits[bp + 2];
  }

  /** The definitions above, unfolded at the first block. */
  lemma FirstBlock(blocks: seq<Block>, bp: nat, out: seq<byte>, outsize: nat)
    requires blocks != [] && ValidBlocks(blocks, out)
    ensures var b, rest := blocks[0], blocks[1..];
            && b.Valid(|out|) && ValidBlocks(rest, b.Output(out))
            && StreamBits(blocks, bp, out) == FirstBits(blocks, bp, out)
                                              + StreamBits(rest, bp + |FirstBits(blocks, bp, out)|, b.Output(out))
            && StreamOutput(blocks, out) == StreamOutput(rest, b.Output(out))
            && (StreamFits(blocks, out, outsize)
                <==> b.Fits(|out|, outsize) && StreamFits(rest, b.Output(out), outsize))
  {
    hide Block.Valid, Block.Body, Block.Output, Block.Fits, HeaderBits;
  }

  lemma NoBlocks(bp: nat, out: seq<byte>, outsize: nat)
    ensures ValidBlocks([], out) && StreamBits([], bp, out) == [] && StreamOutput([], out) == out
    ensures StreamFits([], out, outsize)
  {
  }

  lemma BlocksStep(src: Source, bp: nat, out: seq<byte>, setup: Setup)
    requires src.Padded() && src.inlength >= 2 && setup.Valid() && |out| <= setup.outsize
    requires bp + 3 <= 8 * src.inlength
    ensures bp <= src.Limit()
    ensures var r := InflateBlocks(src, bp, out, setup);
            var one := InflateBlock(src, bp + 3, BlockType(src, bp), out, setup);
            if one.Failed? || src.bits[bp] == 1 then r == one else r == InflateBlocks(src, one.bp, one.out, setup)
  {
    hide InflateBlock, BlockType;
  }

  /** A stream of any blocks inflates to the concatenation of their meanings, up to the end of the last one,
      exactly when every block fits. */
  lemma {:induction false} BlocksRoundTrip(src: Source, bp: nat, blocks: seq<Block>, out: seq<byte>, setup: Setup)
    requires src.Padded() && src.inlength >= 4 && setup.Valid() && TablesServe(setup, blocks)
    requires blocks != [] && ValidBlocks(blocks, out) && |out| <= setup.outsize
    requires BitsAt(src.bits, bp, StreamBits(blocks, bp, out))
    requires bp + |StreamBits(blocks, bp, out)| + 16 <= 8 * src.inlength
    ensures bp <= src.Limit()
    ensures Gives(InflateBlocks(src, bp, out, setup), StreamFits(blocks, out, setup.outsize),
                  StreamOutput(blocks, out), bp + |StreamBits(blocks, bp, out)|)
    decreases |blocks|
  {
    hide BitsAt, FixedTablesServe, InflateBlock, InflateBlocks, BlockType, StreamBits, StreamFits, StreamOutput,
         ValidBlocks, Block.Valid, Block.Body, Block.Output, Block.Fits;
    FirstBlock(blocks, bp, out, setup.outsize);
    var b, rest := blocks[0], blocks[1..];
    var final, next := |blocks| == 1, b.Output(out);
    var header, body := HeaderBits(final, b.Kind()), b.Body(bp + 3, |out|);
    var end := bp + |header + body|;
    BitsAtSplit(src.bits, bp, header + body, StreamBits(rest, end, next));
    BitsAtSplit(src.bits, bp, header, body);
    HeaderBitsAt(src, bp, final, b.Kind());
    BlockRoundTrip(src, bp + 3, b, out, setup);
    BlocksStep(src, bp, out, setup);
    if final {
      NoBlocks(end, next, setup.outsize);
      assert rest == [];
    } else if b.Fits(|out|, setup.outsize) {
      BlocksRoundTrip(src, end, rest, next, setup);
    }
  }

  lemma BlockRoom(block: Block, out: seq<byte>, outsize: nat)
    requires block.Valid(|out|) && |out| <= outsize
    ensures |block.Output(out)| >= |out|
    ensures |block.Output(out)| < outsize ==> block.Fits(|out|, outsize)
    ensures block.Fits(|out|, outsize) ==> |block.Output(out)| <= outsize
  {
    hide TokensEncodable, Expansion, AllFit, FixedLens, FixedDistLens, Header.LitLen, Header.Dist;
    match block
    case StoredBlock(data) =>
    case FixedBlock(tokens) => AllFitRoom(tokens, FixedLens(), FixedDistLens(), out, outsize);
    case DynamicBlock(h, tokens) => AllFitRoom(tokens, h.LitLen(), h.Dist(), out, outsize);
  }

  /** Blocks whose output leaves a byte free fit, and the output of blocks that fit is no larger than the buffer. */
  lemma {:induction false} StreamRoom(blocks: seq<Block>, out: seq<byte>, outsize: nat)
    requires ValidBlocks(blocks, out) && |out| <= outsize
    ensures |StreamOutput(blocks, out)| >= |out|
    ensures |StreamOutput(blocks, out)| < outsize ==> StreamFits(blocks, out, outsize)
    ensures StreamFits(blocks, out, outsize) ==> |StreamOutput(blocks, out)| <= outsize
    decreases |blocks|
  {
    hide StreamOutput, StreamFits, ValidBlocks, Block.Valid, Block.Output, Block.Fits;
    if blocks == [] {
      NoBlocks(0, out, outsize);
    } else {
      FirstBlock(blocks, 0, out, outsize);
      BlockRoom(blocks[0], out, outsize);
      var next := blocks[0].Output(out);
      StreamGrows(blocks[1..], next);
      if |next| <= outsize { StreamRoom(blocks[1..], next, outsize); }
    }
  }

  lemma {:induction false} StreamGrows(blocks: seq<Block>, out: seq<byte>)
    requires ValidBlocks(blocks, out)
    ensures |StreamOutput(blocks, out)| >= |out|
    decreases |blocks|
  {
    hide Block.Valid, Block.Output;
    if blocks != [] {
      BlockRoom(blocks[0], out, |out|);
      StreamGrows(blocks[1..], blocks[0].Output(out));
    }
  }

  /** Round trip of the whole stream: a zlib header, any blocks packed into bytes and whatever follows them
      inflate to what the blocks mean, exactly when the output buffer has room for them. */
  lemma StreamRoundTrip(cmf: byte, flg: byte, blocks: seq<Block>, rest: seq<byte>, insize: nat, setup: Setup)
    requires WrapperOk(cmf, flg) && setup.Valid() && TablesServe(setup, blocks)
    requires blocks != [] && ValidBlocks(blocks, [])
    requires 2 + |Pack(StreamBits(blocks, 0, []))| <= insize <= |Pack(StreamBits(blocks, 0, []))| + |rest| - SLACK
    ensures Gives(Inflate([cmf, flg] + Pack(StreamBits(blocks, 0, [])) + rest, insize, setup),
                  StreamFits(blocks, [], setup.outsize), StreamOutput(blocks, []), |StreamBits(blocks, 0, [])|)
  {
    hide StreamBits, StreamFits, StreamOutput, ValidBlocks, InflateBlocks, WrapperOk, FixedTablesServe, Pack, BitsOf,
         BitsAt;
    var bits := StreamBits(blocks, 0, []);
    var data := [cmf, flg] + Pack(bits) + rest;
    assert data[2..] == Pack(bits) + rest;
    PackCarries(bits, rest);
    StreamNotEmpty(blocks, 0, []);
    BlocksRoundTrip(Source(BitsOf(data[2..]), insize), 0, blocks, [], setup);
  }

  lemma StreamNotEmpty(blocks: seq<Block>, bp: nat, out: seq<byte>)
    requires blocks != [] && ValidBlocks(blocks, out)
    ensures |StreamBits(blocks, bp, out)| > 8
  {
    FirstBlock(blocks, bp, out, 0);
  }

  // ----- Stored data

  function Concatenated(chunks: seq<seq<byte>>): seq<byte> {
    if chunks == [] then [] else chunks[0] + Concatenated(chunks[1..])
  }

  function StoredBlocks(chunks: seq<seq<byte>>): (blocks: seq<Block>)
    ensures |blocks| == |chunks| && forall k :: 0 <= k < |blocks| ==> blocks[k] == StoredBlock(chunks[k])
  {
    seq(|chunks|, k requires 0 <= k < |chunks| => StoredBlock(chunks[k]))
  }

  predicate Storable(chunks: seq<seq<byte>>) {
    forall k :: 0 <= k < |chunks| ==> |chunks[k]| <= 65535
  }

  lemma AppendAssociative(a: seq<byte>, b: seq<byte>, c: seq<byte>)
    ensures (a + b) + c == a + (b + c)
  {
  }

  lemma {:induction false} StoredStream(chunks: seq<seq<byte>>, out: seq<byte>, outsize: nat)
    requires Storable(chunks)
    ensures var blocks := StoredBlocks(chunks);
            && ValidBlocks(blocks, out)
            && StreamOutput(blocks, out) == out + Concatenated(chunks)
            && (chunks != [] ==> (StreamFits(blocks, out, outsize) <==> |out| + |Concatenated(chunks)| < outsize))
    decreases |chunks|
  {
    hide StreamBits, FirstBits, TokensEncodable, Expansion, AllFit;
    var blocks := StoredBlocks(chunks);
    if chunks != [] {
      var head, rest := chunks[0], chunks[1..];
      assert Storable(rest);
      StoredStream(rest, out + head, outsize);
      assert blocks[0] == StoredBlock(head) && blocks[1..] == StoredBlocks(rest);
      assert blocks[0].Valid(|out|) && blocks[0].Output(out) == out + head;
      assert ValidBlocks(blocks, out);
      AppendAssociative(out, head, Concatenated(rest));
    }
  }

  /** Data cut into pieces of at most n bytes. */
  function Cut(data: seq<byte>, n: nat): (pieces: seq<seq<byte>>)
    requires n > 0
    ensures pieces != [] && forall k :: 0 <= k < |pieces| ==> |pieces[k]| <= n
    decreases |data|
  {
    if |data| <= n then [data] else [data[..n]] + Cut(data[n..], n)
  }

  lemma {:induction false} CutJoins(data: seq<byte>, n: nat)
    requires n > 0
    ensures Concatenated(Cut(data, n)) == data
    decreases |data|
  {
    if |data| <= n {
      assert Concatenated([data][1..]) == [];
    } else {
      CutJoins(data[n..], n);
      assert ([data[..n]] + Cut(data[n..], n))[1..] == Cut(data[n..], n);
    }
  }

  /** Any data as stored blocks. */
  function StoredData(data: seq<byte>): (blocks: seq<Block>)
    ensures blocks != []
  {
    StoredBlocks(Cut(data, 65535))
  }

  /** They need a byte more than the data. */
  lemma StoredDataFits(data: seq<byte>, outsize: nat)
    ensures ValidBlocks(StoredData(data), []) && StreamOutput(StoredData(data), []) == data
    ensures StreamFits(StoredData(data), [], outsize) <==> |data| < outsize
  {
    hide ValidBlocks, StreamOutput, StreamFits, Concatenated, Cut, StoredBlocks;
    CutJoins(data, 65535);
    StoredStream(Cut(data, 65535), [], outsize);
    assert [] + data == data;
  }

  /** Any data as a fixed block of literals, which does without that byte. */
  lemma LiteralsFitExactly(data: seq<byte>, outsize: nat)
    ensures var blocks := [FixedBlock(Literals(data))];
            && ValidBlocks(blocks, []) && StreamOutput(blocks, []) == data
            && (StreamFits(blocks, [], outsize) <==> |data| <= outsize)
  {
    hide ValidBlocks, StreamOutput, StreamFits, TokensEncodable, Expansion, AllFit, Literals;
    var b := FixedBlock(Literals(data));
    LiteralsFit(data, FixedLens(), FixedDistLens(), [], outsize);
    assert [] + data == data;
    OneBlock(b, outsize);
  }

  lemma OneBlock(b: Block, outsize: nat)
    requires b.Valid(0)
    ensures ValidBlocks([b], []) && StreamOutput([b], []) == b.Output([])
    ensures StreamFits([b], [], outsize) <==> b.Fits(0, outsize)
  {
    hide Block.Valid, Block.Output, Block.Fits;
    assert [b][1..] == [];
  }

  /** The bits of a stream of stored blocks. */
  function StoredBits(chunks: seq<seq<byte>>): seq<bit>
    requires Storable(chunks)
  {
    StoredStream(chunks, [], 0);
    StreamBits(StoredBlocks(chunks), 0, [])
  }

  /** Any data cut into stored blocks of at most 65535 bytes inflates to itself, if and only if the output
      buffer is larger than the data. */
  lemma StoredDataRoundTrip(cmf: byte, flg: byte, chunks: seq<seq<byte>>, rest: seq<byte>, insize: nat, setup: Setup)
    requires WrapperOk(cmf, flg) && setup.Valid() && chunks != [] && Storable(chunks)
    requires 2 + |Pack(StoredBits(chunks))| <= insize <= |Pack(StoredBits(chunks))| + |rest| - SLACK
    ensures var r := Inflate([cmf, flg] + Pack(StoredBits(chunks)) + rest, insize, setup);
            && (r.Inflated? <==> |Concatenated(chunks)| < setup.outsize)
            && (r.Inflated? ==> r.out == Concatenated(chunks))
  {
    hide StreamBits, StreamFits, StreamOutput, ValidBlocks, Inflate, WrapperOk, FixedTablesServe, Pack, StoredBlocks,
         Storable;
    StoredStream(chunks, [], setup.outsize);
    assert [] + Concatenated(chunks) == Concatenated(chunks);
    StreamRoundTrip(cmf, flg, StoredBlocks(chunks), rest, insize, setup);
  }

  // ----- The formats of RFC 1950 and RFC 1951, field by field

  lemma HeaderFields(method': nat, info: nat, check: nat, dict: nat, level: nat)
    requires method' < 16 && info < 16 && check < 32 && dict < 2 && level < 4
    ensures var cmf, flg := method' + 16 * info, check + 32 * dict + 64 * level;
            cmf % 16 == method' && (cmf / 16) % 16 == info && (flg / 32) % 2 == dict
  {
    var flg := check + 32 * (dict + 2 * level);
    assert flg / 32 == dict + 2 * level;
  }

  /** The zlib header (section 2.2 of RFC 1950): of its fields the method must be 8, the window at most 32k, the
      dictionary absent and the check such that the 16 bits are a multiple of 31. */
  lemma WrapperMeans(method': nat, info: nat, check: nat, dict: nat, level: nat)
    requires method' < 16 && info < 16 && check < 32 && dict < 2 && level < 4
    ensures var cmf, flg := method' + 16 * info, check + 32 * dict + 64 * level;
            WrapperOk(cmf, flg) <==> method' == 8 && info <= 7 && dict == 0 && (256 * cmf + flg) % 31 == 0
  {
    HeaderFields(method', info, check, dict, level);
  }

  /** Every window size and level has a check. */
  lemma SomeCheck(info: nat, level: nat) returns (check: nat)
    requires info <= 7 && level < 4
    ensures check < 32 && WrapperOk(8 + 16 * info, check + 64 * level)
  {
    hide WrapperOk;
    var n := 256 * (8 + 16 * info) + 64 * level;
    check := 31 - n % 31;
    assert (n + check) % 31 == 0;
    WrapperMeans(8, info, check, 0, level);
  }

  /** The two bits after the final bit tell the kind of a block, the low one first: stored, fixed, dynamic; both set is
      an error. */
  lemma KindMeans(src: Source, bp: nat, out: seq<byte>, setup: Setup)
    requires src.Padded() && src.inlength >= 2 && setup.Valid() && |out| <= setup.outsize && bp + 3 <= 8 * src.inlength
    ensures bp + 3 <= src.Limit()
    ensures var one := InflateBlock(src, bp + 3, BlockType(src, bp), out, setup);
            var low, high := src.bits[bp + 1], src.bits[bp + 2];
            && (low == 0 && high == 0 ==> one == InflateStored(src, bp + 3, out, setup.outsize))
            && (low == 1 && high == 0 ==>
                  one == InflateTokens(setup.fixedLitLen, setup.fixedDist, src, bp + 3, out, setup.outsize,
                                       setup.below))
            && (low == 0 && high == 1 ==>
                  match ReadTrees(src, bp + 3, setup.stray)
                  case BadTrees => one == Failed(out)
                  case Trees(ll, dd, b) => one == InflateTokens(ll, dd, src, b, out, setup.outsize, setup.below))
            && (low == 1 && high == 1 ==> one == Failed(out))
  {
    hide InflateStored, InflateTokens, ReadTrees;
  }

  /** A stored block, from the next byte boundary on: its length and the complement of that, 16 bits each; it is refused
      if they do not fit together, if the data would not leave a byte of the output free, or if it ends behind the
      input. */
  lemma StoredMeans(src: Source, bp: nat, len: nat, nlen: nat, out: seq<byte>, outsize: nat)
    requires src.Padded() && src.inlength >= 4 && |out| <= outsize && len < 65536 && nlen < 65536
    requires BitsAt(src.bits, bp, Padding(bp) + LsbFirst(len, 16) + LsbFirst(nlen, 16))
    requires bp + |Padding(bp)| < 8 * (src.inlength - 4)
    ensures var start, r := bp + |Padding(bp)| + 32, InflateStored(src, bp, out, outsize);
            if len + nlen != 65535 || |out| + len >= outsize || start + 8 * len > 8 * src.inlength then r == Failed(out)
            else r.Inflated? && r.bp == start + 8 * len && |r.out| == |out| + len && out <= r.out
  {
    hide Padding, LsbFirst, WordAt, BytesAt, BitsAt;
    var a, b, c := Padding(bp), LsbFirst(len, 16), LsbFirst(nlen, 16);
    var p := (bp + 7) / 8;
    assert 8 * p == bp + |a|;
    BitsAtSplit(src.bits, bp, a + b, c);
    BitsAtSplit(src.bits, bp, a, b);
    StoredWord(src, p, len);
    StoredWord(src, p + 2, nlen);
  }

  /** A stored block needs four bytes and one more behind them. */
  lemma StoredMissing(src: Source, bp: nat, out: seq<byte>, outsize: nat)
    requires src.Padded() && src.inlength >= 4 && bp <= 8 * (src.inlength + 1) && |out| <= outsize
    requires bp + |Padding(bp)| >= 8 * (src.inlength - 4)
    ensures InflateStored(src, bp, out, outsize) == Failed(out)
  {
    hide WordAt, BytesAt;
  }

  // ----- The fixed codes of section 3.2.6 of RFC 1951

  lemma {:induction false} FixedCount(k: nat, b: nat)
    requires k <= 288 && 7 <= b <= 9
    ensures Count(FixedLens()[..k], b)
            == if b == 9 then (if k <= 144 then 0 else if k <= 256 then k - 144 else 112)
               else if b == 7 then (if k <= 256 then 0 else if k <= 280 then k - 256 else 24)
               else if k <= 144 then k else if k <= 280 then 144 else k - 136
    decreases k
  {
    var lens := FixedLens()[..k];
    if k > 0 {
      FixedCount(k - 1, b);
      assert lens[..k - 1] == FixedLens()[..k - 1] && lens[k - 1] == FixedLens()[k - 1];
    }
  }

  lemma FixedFirst()
    ensures First(FixedLens(), 7) == 0 && First(FixedLens(), 8) == 48 && First(FixedLens(), 9) == 400
  {
    hide Count, FixedLens, First;
    var lens := FixedLens();
    assert lens[..288] == lens;
    FixedCount(288, 7);
    FixedCount(288, 8);
    FixedCount(288, 9);
    FixedLensAre();
    NothingShorter(lens, 7);
    FirstStep(lens, 8);
    FirstStep(lens, 9);
  }

  lemma FixedLensAre()
    ensures forall k :: 0 <= k < 288 ==>
              FixedLens()[k] == if k < 144 then 8 else if k < 256 then 9 else if k < 280 then 7 else 8
  {
  }

  lemma FirstStep(lens: seq<nat>, b: nat)
    requires b > 1
    ensures First(lens, b) == 2 * (First(lens, b - 1) + Count(lens, b - 1))
  {
    hide Count;
  }

  /** The fixed literal/length codes: 8 bits from 00110000 for 0 to 143, 9 bits from 110010000 for 144 to 255, 7 bits
      from 0000000 for 256 to 279 and 8 bits from 11000000 for 280 to 287; the distance codes are five-bit numbers. */
  lemma FixedCodes(n: nat)
    requires n < 288
    ensures Code(FixedLens(), n)
            == if n < 144 then MsbFirst(48 + n, 8)
               else if n < 256 then MsbFirst(400 + (n - 144), 9)
               else if n < 280 then MsbFirst(n - 256, 7) else MsbFirst(192 + (n - 280), 8)
    ensures n < 32 ==> Code(FixedDistLens(), n) == MsbFirst(n, 5)
  {
    hide Count, FixedLens, FixedDistLens, First, MsbFirst;
    FixedFirst();
    FixedLensAre();
    FixedCount(n, FixedLens()[n]);
    if n < 32 { FixedDistCode(n); }
  }

  lemma FixedDistCode(n: nat)
    requires n < 32
    ensures Code(FixedDistLens(), n) == MsbFirst(n, 5)
  {
    hide Count, First, MsbFirst;
    var lens := FixedDistLens();
    FixedDistCount(n);
    NothingShorter(lens, 5);
  }

  lemma {:induction false} FixedDistCount(k: nat)
    requires k <= 32
    ensures Count(FixedDistLens()[..k], 5) == k
    decreases k
  {
    var lens := FixedDistLens()[..k];
    if k > 0 {
      FixedDistCount(k - 1);
      assert lens[..k - 1] == FixedDistLens()[..k - 1];
    }
  }

  /** The fixed codes use up the code space, so that the trees of their lengths serve them. */
  lemma FixedTreesServe(setup: Setup)
    requires setup.fixedLitLen == Tree(FixedLens()) && setup.fixedDist == Tree(FixedDistLens())
    ensures setup.Valid() && FixedTablesServe(setup)
  {
    hide Tree, TreeFits, KraftSum, Serves, FixedLens, FixedDistLens;
    FixedComplete();
    CompleteFits(FixedLens(), 9);
    CompleteFits(FixedDistLens(), 5);
    TreeServes(FixedLens(), 9);
    TreeServes(FixedDistLens(), 5);
  }

  lemma FixedComplete()
    ensures Complete(FixedLens(), 9) && Complete(FixedDistLens(), 5)
  {
    hide Count, FixedLens, First, KraftSum;
    var lens := FixedLens();
    FixedFirst();
    FixedLensAre();
    assert lens[..288] == lens;
    FixedCount(288, 9);
    EndIsKraft(lens, 9);
    assert Pow2(9) == 512 && Pow2(5) == 32;
    FixedDistComplete();
  }

  lemma FixedDistComplete()
    ensures (forall k :: 0 <= k < 32 ==> FixedDistLens()[k] == 5) && KraftSum(FixedDistLens(), 5) == 32
  {
    hide Count, First, KraftSum;
    var lens := FixedDistLens();
    assert lens[..32] == lens;
    FixedDistCount(32);
    NothingShorter(lens, 5);
    EndIsKraft(lens, 5);
  }
}
