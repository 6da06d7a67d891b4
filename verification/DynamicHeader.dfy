/** The header of a dynamic block (section 3.2.7 of RFC 1951): counts, the lengths of the code
    length code, and the run-length coded lengths of the literal/length and distance codes. */
module DynamicHeader {
  import opened Bits
  import opened CanonicalCode
  import opened HuffmanTree

  const NUM_DEFLATE_CODE_SYMBOLS := 288
  const NUM_DISTANCE_SYMBOLS := 32
  const NUM_CODE_LENGTH_CODES := 19
  const CODE_LENGTH_BITLEN := 7
  const DEFLATE_CODE_BITLEN := 15
  const END_CODE := 256

  /** Order in which the lengths of the code length code are stored. */
  const CLCL: seq<nat> := [16, 17, 18, 0, 8, 7, 9, 6, 10, 5, 11, 4, 12, 3, 13, 2, 14, 1, 15]

  /** Where the length of symbol s is stored: the inverse of CLCL. */
  const CLCL_INDEX: seq<nat> := [3, 17, 15, 13, 11, 9, 7, 5, 4, 6, 8, 10, 12, 14, 16, 18, 0, 1, 2]

  lemma ClclInverse(k: nat)
    requires k < NUM_CODE_LENGTH_CODES
    ensures CLCL[k] < NUM_CODE_LENGTH_CODES && CLCL_INDEX[CLCL[k]] == k
    ensures CLCL_INDEX[k] < NUM_CODE_LENGTH_CODES && CLCL[CLCL_INDEX[k]] == k
  {
  }

  function Repeat(v: nat, n: nat): (s: seq<nat>)
    ensures |s| == n && forall k :: 0 <= k < n ==> s[k] == v
  {
    seq(n, _ => v)
  }

  // ----- What the decoder reads

  /** Outcome of reading one code length symbol, or all of them: the lengths so far and the bit position. */
  datatype Lengths = Lengths(lens: seq<nat>, bp: nat) | BadLengths

  /** Append a run unless it would overflow the table. */
  function AppendRun(lens: seq<nat>, total: nat, v: nat, n: nat, bp: nat): Lengths {
    if |lens| + n > total then BadLengths else Lengths(lens + Repeat(v, n), bp)
  }

  /** Lengths seen so far: symbol 16 repeats the last one. With none seen the decoder reads
      outside its table; stray stands for what it finds there. */
  function Previous(lens: seq<nat>, stray: nat): nat {
    if lens == [] then stray else lens[|lens| - 1]
  }

  /** Extra bits of the run symbols 16, 17 and 18. */
  function RunWidth(code: nat): nat {
    if code <= 15 then 0 else if code == 16 then 2 else if code == 17 then 3 else 7
  }

  /** Shortest run of the run symbols. */
  function RunBase(code: nat): nat {
    if code <= 17 then 3 else 11
  }

  /** After symbol code, whose extra bits start at b. */
  function FinishLength(src: Source, code: nat, b: nat, total: nat, stray: nat, lens: seq<nat>): (r: Lengths)
    requires src.Padded() && |lens| < total && b <= src.Limit()
    ensures r.Lengths? ==> |lens| < |r.lens| <= total && b <= r.bp <= src.Limit()
  {
    if code <= 15 then Lengths(lens + [code], b)
    else if b / 8 >= src.inlength || code > 18 then BadLengths
    else
      var v := if code == 16 then Previous(lens, stray) else 0;
      var w := RunWidth(code);
      AppendRun(lens, total, v, RunBase(code) + ValueAt(src.bits, b, w), b + w)
  }

  function ReadLength(cells: seq<nat>, src: Source, bp: nat, total: nat, stray: nat, lens: seq<nat>): (r: Lengths)
    requires |cells| == 2 * NUM_CODE_LENGTH_CODES && src.Padded() && bp <= src.Limit() && |lens| < total
    ensures r.Lengths? ==> |lens| < |r.lens| <= total && bp < r.bp <= src.Limit()
  {
    match Decode(cells, NUM_CODE_LENGTH_CODES, src, bp)
    case Malformed => BadLengths
    case Symbol(code, b) => FinishLength(src, code, b, total, stray, lens)
  }

  function ReadLengths(cells: seq<nat>, src: Source, bp: nat, total: nat, stray: nat, lens: seq<nat>): (r: Lengths)
    requires |cells| == 2 * NUM_CODE_LENGTH_CODES && src.Padded() && bp <= src.Limit() && |lens| <= total
    ensures r.Lengths? ==> |r.lens| == total && bp <= r.bp <= src.Limit()
    decreases total - |lens|
  {
    if |lens| == total then Lengths(lens, bp)
    else
      match ReadLength(cells, src, bp, total, stray, lens)
      case BadLengths => BadLengths
      case Lengths(lens', bp') => ReadLengths(cells, src, bp', total, stray, lens')
  }

  /** The lengths of the code length code: the first hclen in CLCL order are stored, the others are 0. */
  function CodeLengthLens(src: Source, bp: nat, hclen: nat): (cl: seq<nat>)
    requires hclen <= NUM_CODE_LENGTH_CODES && bp + 3 * hclen <= |src.bits|
    ensures |cl| == NUM_CODE_LENGTH_CODES
    ensures forall s :: 0 <= s < |cl| ==> cl[s] <= CODE_LENGTH_BITLEN
  {
    assert Pow2(3) == 8;
    seq(NUM_CODE_LENGTH_CODES, s requires 0 <= s < NUM_CODE_LENGTH_CODES =>
      if CLCL_INDEX[s] < hclen then ValueAt(src.bits, bp + 3 * CLCL_INDEX[s], 3) else 0)
  }

  /** A table of n entries: the given lengths, then zeros. */
  function PaddedTo(lens: seq<nat>, n: nat): (r: seq<nat>)
    requires |lens| <= n
    ensures |r| == n
  {
    lens + Repeat(0, n - |lens|)
  }

  /** The two trees of a dynamic block and the position after its header. */
  datatype Trees = Trees(litLen: seq<nat>, dist: seq<nat>, bp: nat) | BadTrees

  /** From the code length code on. */
  function ReadTreesWith(src: Source, bp: nat, cl: seq<nat>, hlit: nat, hdist: nat, stray: nat): (r: Trees)
    requires src.Padded() && bp <= src.Limit() && |cl| == NUM_CODE_LENGTH_CODES
    requires hlit <= NUM_DEFLATE_CODE_SYMBOLS && hdist <= NUM_DISTANCE_SYMBOLS
    ensures r.Trees? ==> |r.litLen| == 2 * NUM_DEFLATE_CODE_SYMBOLS && |r.dist| == 2 * NUM_DISTANCE_SYMBOLS
    ensures r.Trees? ==> bp <= r.bp <= src.Limit()
  {
    if !TreeFits(cl) then BadTrees
    else
      match ReadLengths(Tree(cl), src, bp, hlit + hdist, stray, [])
      case BadLengths => BadTrees
      case Lengths(lens, bp') => BuildTrees(lens, hlit, bp')
  }

  function ReadTrees(src: Source, bp: nat, stray: nat): (r: Trees)
    requires src.Padded() && src.inlength >= 2
    ensures r.Trees? ==> |r.litLen| == 2 * NUM_DEFLATE_CODE_SYMBOLS && |r.dist| == 2 * NUM_DISTANCE_SYMBOLS
    ensures r.Trees? ==> bp < r.bp <= src.Limit()
  {
    if bp / 8 >= src.inlength - 2 then BadTrees
    else
      assert Pow2(5) == 32 && Pow2(4) == 16;
      var hlit := ValueAt(src.bits, bp, 5) + 257;
      var hdist := ValueAt(src.bits, bp + 5, 5) + 1;
      var hclen := ValueAt(src.bits, bp + 10, 4) + 4;
      ReadTreesWith(src, bp + 14 + 3 * hclen, CodeLengthLens(src, bp + 14, hclen), hlit, hdist, stray)
  }

  function LitLenLens(lens: seq<nat>, hlit: nat): (r: seq<nat>)
    requires hlit <= |lens| && hlit <= NUM_DEFLATE_CODE_SYMBOLS
    ensures |r| == NUM_DEFLATE_CODE_SYMBOLS
  {
    PaddedTo(lens[..hlit], NUM_DEFLATE_CODE_SYMBOLS)
  }

  function DistLens(lens: seq<nat>, hlit: nat): (r: seq<nat>)
    requires hlit <= |lens| <= hlit + NUM_DISTANCE_SYMBOLS
    ensures |r| == NUM_DISTANCE_SYMBOLS
  {
    PaddedTo(lens[hlit..], NUM_DISTANCE_SYMBOLS)
  }

  function BuildTrees(lens: seq<nat>, hlit: nat, bp: nat): (r: Trees)
    requires hlit <= NUM_DEFLATE_CODE_SYMBOLS && hlit <= |lens| <= hlit + NUM_DISTANCE_SYMBOLS
    ensures r.Trees? ==> |r.litLen| == 2 * NUM_DEFLATE_CODE_SYMBOLS && |r.dist| == 2 * NUM_DISTANCE_SYMBOLS
    ensures r.Trees? ==> r.bp == bp
  {
    var ll, dd := LitLenLens(lens, hlit), DistLens(lens, hlit);
    if ll[END_CODE] != 0 && TreeFits(ll) && TreeFits(dd) then Trees(Tree(ll), Tree(dd), bp) else BadTrees
  }

  // ----- What an encoder writes

  /** The code length alphabet: a length, or a run. */
  datatype LengthSymbol = Len(v: nat) | CopyPrevious(extra: nat) | Zeros(extra: nat) | ManyZeros(extra: nat)
  {
    function Number(): nat {
      match this
      case Len(v) => v
      case CopyPrevious(_) => 16
      case Zeros(_) => 17
      case ManyZeros(_) => 18
    }

    predicate Valid() {
      if Len? then v <= 15 else extra < Pow2(RunWidth(Number()))
    }

    function ExtraBits(): seq<bit> {
      if Len? then [] else LsbFirst(extra, RunWidth(Number()))
    }
  }

  /** The lengths after one more symbol. */
  function Extended(sym: LengthSymbol, lens: seq<nat>): (r: seq<nat>)
    requires lens != [] || !sym.CopyPrevious?
    ensures |r| > |lens|
  {
    match sym
    case Len(v) => lens + [v]
    case CopyPrevious(e) => lens + Repeat(lens[|lens| - 1], 3 + e)
    case Zeros(e) => lens + Repeat(0, 3 + e)
    case ManyZeros(e) => lens + Repeat(0, 11 + e)
  }

  /** The run-length expansion of section 3.2.7 of RFC 1951, appended to what precedes it. */
  function Expand(syms: seq<LengthSymbol>, before: seq<nat>): (r: seq<nat>)
    requires before != [] || syms == [] || !syms[0].CopyPrevious?
    ensures |r| >= |before| + |syms|
    decreases |syms|
  {
    if syms == [] then before else Expand(syms[1..], Extended(syms[0], before))
  }

  /** Every symbol is well formed and has a code. */
  predicate SymbolsEncodable(cl: seq<nat>, syms: seq<LengthSymbol>)
    requires |cl| == NUM_CODE_LENGTH_CODES
  {
    forall k :: 0 <= k < |syms| ==> syms[k].Valid() && cl[syms[k].Number()] > 0
  }

  function SymbolsBits(cl: seq<nat>, syms: seq<LengthSymbol>): seq<bit>
    requires |cl| == NUM_CODE_LENGTH_CODES && SymbolsEncodable(cl, syms)
    decreases |syms|
  {
    if syms == [] then []
    else Code(cl, syms[0].Number()) + syms[0].ExtraBits() + SymbolsBits(cl, syms[1..])
  }

  lemma FinishRoundTrip(src: Source, b: nat, total: nat, stray: nat, lens: seq<nat>, sym: LengthSymbol)
    requires src.Padded() && sym.Valid() && |lens| < total && b + |sym.ExtraBits()| <= 8 * src.inlength
    requires lens != [] || !sym.CopyPrevious?
    requires BitsAt(src.bits, b, sym.ExtraBits()) && |Extended(sym, lens)| <= total
    ensures FinishLength(src, sym.Number(), b, total, stray, lens)
            == Lengths(Extended(sym, lens), b + |sym.ExtraBits()|)
  {
    if !sym.Len? {
      ValueOfLsbFirst(src.bits, b, sym.extra, RunWidth(sym.Number()));
    }
  }

  lemma ReadLengthRoundTrip(cells: seq<nat>, cl: seq<nat>, src: Source, bp: nat, total: nat, stray: nat,
                            lens: seq<nat>, sym: LengthSymbol)
    requires |cl| == NUM_CODE_LENGTH_CODES && Serves(cells, cl)
    requires src.Padded() && sym.Valid() && cl[sym.Number()] > 0 && |lens| < total
    requires lens != [] || !sym.CopyPrevious?
    requires BitsAt(src.bits, bp, Code(cl, sym.Number()) + sym.ExtraBits())
    requires bp + cl[sym.Number()] + |sym.ExtraBits()| <= 8 * src.inlength
    requires |Extended(sym, lens)| <= total
    ensures ReadLength(cells, src, bp, total, stray, lens)
            == Lengths(Extended(sym, lens), bp + cl[sym.Number()] + |sym.ExtraBits()|)
  {
    hide Code, BitsAt, Serves, FinishLength, Extended, Decode;
    BitsAtSplit(src.bits, bp, Code(cl, sym.Number()), sym.ExtraBits());
    ServedSymbol(cells, cl, src, bp, sym.Number());
    FinishRoundTrip(src, bp + cl[sym.Number()], total, stray, lens, sym);
  }

  /** Run-length decoding gives back the expansion, runs crossing from one table into the other included. */
  lemma {:induction false} LengthsRoundTrip(cells: seq<nat>, cl: seq<nat>, src: Source, bp: nat, total: nat, stray: nat,
                                            lens: seq<nat>, syms: seq<LengthSymbol>)
    requires |cl| == NUM_CODE_LENGTH_CODES && Serves(cells, cl)
    requires src.Padded() && SymbolsEncodable(cl, syms)
    requires lens != [] || syms == [] || !syms[0].CopyPrevious?
    requires |Expand(syms, lens)| == total
    requires BitsAt(src.bits, bp, SymbolsBits(cl, syms)) && bp + |SymbolsBits(cl, syms)| <= 8 * src.inlength
    ensures ReadLengths(cells, src, bp, total, stray, lens)
            == Lengths(Expand(syms, lens), bp + |SymbolsBits(cl, syms)|)
    decreases |syms|
  {
    hide Code, BitsAt, Serves, Extended, ReadLength;
    if syms != [] {
      var sym, tail := syms[0], SymbolsBits(cl, syms[1..]);
      var head := Code(cl, sym.Number()) + sym.ExtraBits();
      assert SymbolsBits(cl, syms) == head + tail;
      BitsAtSplit(src.bits, bp, head, tail);
      ReadLengthRoundTrip(cells, cl, src, bp, total, stray, lens, sym);
      LengthsRoundTrip(cells, cl, src, bp + |head|, total, stray, Extended(sym, lens), syms[1..]);
    }
  }

  // ----- The whole header

  /** A dynamic header as an encoder sees it. */
  datatype Header = Header(hlit: nat, hdist: nat, hclen: nat, cl: seq<nat>, syms: seq<LengthSymbol>)
  {
    /** The fields fit their widths, unstored code length lengths are 0, every symbol has a code,
        and the run-length coded lengths fill both tables exactly. */
    predicate WellFormed() {
      && 257 <= hlit < 257 + 32 && 1 <= hdist < 1 + 32 && 4 <= hclen <= NUM_CODE_LENGTH_CODES
      && |cl| == NUM_CODE_LENGTH_CODES
      && (forall s :: 0 <= s < |cl| ==> cl[s] < 8 && (CLCL_INDEX[s] >= hclen ==> cl[s] == 0))
      && SymbolsEncodable(cl, syms)
      && syms != [] && !syms[0].CopyPrevious?
      && |Expand(syms, [])| == hlit + hdist
    }

    /** Literal/length code lengths the header stands for. */
    function LitLen(): (r: seq<nat>)
      requires WellFormed()
      ensures |r| == NUM_DEFLATE_CODE_SYMBOLS
    {
      LitLenLens(Expand(syms, []), hlit)
    }

    /** Distance code lengths the header stands for. */
    function Dist(): (r: seq<nat>)
      requires WellFormed()
      ensures |r| == NUM_DISTANCE_SYMBOLS
    {
      DistLens(Expand(syms, []), hlit)
    }

    /** The three codes can be built and the end code has a code. */
    predicate Buildable()
      requires WellFormed()
    {
      && Feasible(cl, CODE_LENGTH_BITLEN) && TreeFits(cl)
      && Feasible(LitLen(), DEFLATE_CODE_BITLEN) && TreeFits(LitLen())
      && Feasible(Dist(), DEFLATE_CODE_BITLEN) && TreeFits(Dist())
      && LitLen()[END_CODE] > 0
    }

    function Bits(): seq<bit>
      requires WellFormed()
    {
      LsbFirst(hlit - 257, 5) + LsbFirst(hdist - 1, 5) + LsbFirst(hclen - 4, 4)
      + StoredLens(cl, hclen) + SymbolsBits(cl, syms)
    }
  }

  /** The stored lengths of the code length code, three bits each. */
  function StoredLens(cl: seq<nat>, k: nat): (s: seq<bit>)
    requires |cl| == NUM_CODE_LENGTH_CODES && k <= NUM_CODE_LENGTH_CODES
    ensures |s| == 3 * k
  {
    if k == 0 then [] else StoredLens(cl, k - 1) + LsbFirst(cl[CLCL[k - 1]], 3)
  }

  lemma {:induction false} StoredLensAt(cl: seq<nat>, src: Source, bp: nat, k: nat, i: nat)
    requires |cl| == NUM_CODE_LENGTH_CODES && i < k <= NUM_CODE_LENGTH_CODES && cl[CLCL[i]] < 8
    requires BitsAt(src.bits, bp, StoredLens(cl, k))
    ensures ValueAt(src.bits, bp + 3 * i, 3) == cl[CLCL[i]]
  {
    hide LsbFirst, ValueAt, BitsAt;
    BitsAtSplit(src.bits, bp, StoredLens(cl, k - 1), LsbFirst(cl[CLCL[k - 1]], 3));
    if i == k - 1 {
      assert Pow2(3) == 8;
      ValueOfLsbFirst(src.bits, bp + 3 * i, cl[CLCL[i]], 3);
    } else {
      StoredLensAt(cl, src, bp, k - 1, i);
    }
  }

  lemma CodeLengthLensRoundTrip(h: Header, src: Source, bp: nat)
    requires h.WellFormed() && BitsAt(src.bits, bp, StoredLens(h.cl, h.hclen))
    ensures CodeLengthLens(src, bp, h.hclen) == h.cl
  {
    var cl := CodeLengthLens(src, bp, h.hclen);
    forall s | 0 <= s < NUM_CODE_LENGTH_CODES ensures cl[s] == h.cl[s] {
      ClclInverse(s);
      if CLCL_INDEX[s] < h.hclen {
        StoredLensAt(h.cl, src, bp, h.hclen, CLCL_INDEX[s]);
      }
    }
  }

  lemma SplitFive(bits: seq<bit>, bp: nat, a: seq<bit>, b: seq<bit>, c: seq<bit>, d: seq<bit>, e: seq<bit>)
    requires BitsAt(bits, bp, a + b + c + d + e)
    ensures BitsAt(bits, bp, a) && BitsAt(bits, bp + |a|, b) && BitsAt(bits, bp + |a| + |b|, c)
    ensures BitsAt(bits, bp + |a| + |b| + |c|, d) && BitsAt(bits, bp + |a| + |b| + |c| + |d|, e)
  {
    BitsAtSplit(bits, bp, a + b + c + d, e);
    BitsAtSplit(bits, bp, a + b + c, d);
    BitsAtSplit(bits, bp, a + b, c);
    BitsAtSplit(bits, bp, a, b);
  }

  lemma FieldsRoundTrip(bits: seq<bit>, bp: nat, x: nat, y: nat, z: nat, d: seq<bit>, e: seq<bit>)
    requires x < 32 && y < 32 && z < 16
    requires BitsAt(bits, bp, LsbFirst(x, 5) + LsbFirst(y, 5) + LsbFirst(z, 4) + d + e)
    ensures ValueAt(bits, bp, 5) == x && ValueAt(bits, bp + 5, 5) == y && ValueAt(bits, bp + 10, 4) == z
    ensures BitsAt(bits, bp + 14, d) && BitsAt(bits, bp + 14 + |d|, e)
  {
    SplitFive(bits, bp, LsbFirst(x, 5), LsbFirst(y, 5), LsbFirst(z, 4), d, e);
    assert Pow2(5) == 32 && Pow2(4) == 16;
    ValueOfLsbFirst(bits, bp, x, 5);
    ValueOfLsbFirst(bits, bp + 5, y, 5);
    ValueOfLsbFirst(bits, bp + 10, z, 4);
  }

  lemma CountsRoundTrip(h: Header, src: Source, bp: nat)
    requires h.WellFormed() && BitsAt(src.bits, bp, h.Bits())
    ensures ValueAt(src.bits, bp, 5) + 257 == h.hlit
    ensures ValueAt(src.bits, bp + 5, 5) + 1 == h.hdist
    ensures ValueAt(src.bits, bp + 10, 4) + 4 == h.hclen
    ensures BitsAt(src.bits, bp + 14, StoredLens(h.cl, h.hclen))
    ensures BitsAt(src.bits, bp + 14 + 3 * h.hclen, SymbolsBits(h.cl, h.syms))
  {
    hide ValueAt, LsbFirst, BitsAt, StoredLens, SymbolsBits, SymbolsEncodable, Expand;
    FieldsRoundTrip(src.bits, bp, h.hlit - 257, h.hdist - 1, h.hclen - 4,
                    StoredLens(h.cl, h.hclen), SymbolsBits(h.cl, h.syms));
  }

  lemma ReadTreesWithRoundTrip(h: Header, src: Source, bp: nat, stray: nat)
    requires h.WellFormed() && h.Buildable() && src.Padded()
    requires BitsAt(src.bits, bp, SymbolsBits(h.cl, h.syms))
    requires bp + |SymbolsBits(h.cl, h.syms)| <= 8 * src.inlength
    ensures ReadTreesWith(src, bp, h.cl, h.hlit, h.hdist, stray)
            == Trees(Tree(h.LitLen()), Tree(h.Dist()), bp + |SymbolsBits(h.cl, h.syms)|)
  {
    hide Feasible, TreeFits, Tree, Serves, BitsAt, SymbolsBits, SymbolsEncodable, Expand, ReadLengths, LitLenLens,
         DistLens;
    TreeServes(h.cl, CODE_LENGTH_BITLEN);
    LengthsRoundTrip(Tree(h.cl), h.cl, src, bp, h.hlit + h.hdist, stray, [], h.syms);
  }

  /** A dynamic header decodes to the trees of exactly the lengths it was made from. */
  lemma HeaderRoundTrip(h: Header, src: Source, bp: nat, stray: nat)
    requires h.WellFormed() && h.Buildable() && src.Padded()
    requires BitsAt(src.bits, bp, h.Bits()) && bp + |h.Bits()| + 16 <= 8 * src.inlength
    ensures ReadTrees(src, bp, stray) == Trees(Tree(h.LitLen()), Tree(h.Dist()), bp + |h.Bits()|)
  {
    hide Feasible, TreeFits, Tree, BitsAt, SymbolsBits, StoredLens, LsbFirst, SymbolsEncodable, Expand, ReadTreesWith,
         CodeLengthLens;
    CountsRoundTrip(h, src, bp);
    CodeLengthLensRoundTrip(h, src, bp + 14);
    ReadTreesWithRoundTrip(h, src, bp + 14 + 3 * h.hclen, stray);
  }

  // ----- The numbers of section 3.2.7 of RFC 1951

  /** Symbols up to 15 are lengths. Symbol 16 repeats the length before it 3 to 6 times, 17 gives 3 to 10 zeros and
      18 gives 11 to 138, by 2, 3 and 7 extra bits; a run that would overflow the tables is an error, as are 19 and
      more. */
  lemma SymbolMeans(src: Source, code: nat, b: nat, total: nat, stray: nat, lens: seq<nat>)
    requires src.Padded() && |lens| < total && b <= src.Limit()
    ensures var r := FinishLength(src, code, b, total, stray, lens);
            && (code <= 15 ==> r == Lengths(lens + [code], b))
            && (code >= 16 && b >= 8 * src.inlength ==> r == BadLengths)
            && (code >= 19 ==> r == BadLengths)
    ensures code == 16 && b < 8 * src.inlength ==>
              var n := 3 + ValueAt(src.bits, b, 2);
              && 3 <= n <= 6
              && FinishLength(src, code, b, total, stray, lens)
                 == if |lens| + n > total then BadLengths
                    else Lengths(lens + Repeat(if lens == [] then stray else lens[|lens| - 1], n), b + 2)
    ensures code == 17 && b < 8 * src.inlength ==>
              var n := 3 + ValueAt(src.bits, b, 3);
              && 3 <= n <= 10
              && FinishLength(src, code, b, total, stray, lens)
                 == if |lens| + n > total then BadLengths else Lengths(lens + Repeat(0, n), b + 3)
    ensures code == 18 && b < 8 * src.inlength ==>
              var n := 11 + ValueAt(src.bits, b, 7);
              && 11 <= n <= 138
              && FinishLength(src, code, b, total, stray, lens)
                 == if |lens| + n > total then BadLengths else Lengths(lens + Repeat(0, n), b + 7)
  {
    assert Pow2(2) == 4 && Pow2(3) == 8 && Pow2(7) == 128;
    hide Pow2, ValueAt;
  }

  /** The symbols are runs of the same kind. */
  predicate Alike(s: LengthSymbol, t: LengthSymbol) {
    (s.CopyPrevious? && t.CopyPrevious?) || (s.Zeros? && t.Zeros?) || (s.ManyZeros? && t.ManyZeros?)
  }

  /** Which runs can be written: each length in its range by exactly one value of the extra bits. */
  lemma RunsOf(sym: LengthSymbol, lens: seq<nat>, n: nat)
    requires lens != [] || !sym.CopyPrevious?
    ensures var added := |Extended(sym, lens)| - |lens|;
            && (sym.Len? ==> added == 1 && sym.ExtraBits() == [])
            && (sym.CopyPrevious? ==> |sym.ExtraBits()| == 2 && (sym.Valid() ==> 3 <= added <= 6))
            && (sym.Zeros? ==> |sym.ExtraBits()| == 3 && (sym.Valid() ==> 3 <= added <= 10))
            && (sym.ManyZeros? ==> |sym.ExtraBits()| == 7 && (sym.Valid() ==> 11 <= added <= 138))
    ensures forall u: LengthSymbol :: Alike(u, sym) && |Extended(u, lens)| == |Extended(sym, lens)| ==> u == sym
    ensures 3 <= n ==> (CopyPrevious(n - 3).Valid() <==> n <= 6) && (Zeros(n - 3).Valid() <==> n <= 10)
    ensures 11 <= n ==> (ManyZeros(n - 11).Valid() <==> n <= 138)
  {
    assert Pow2(2) == 4 && Pow2(3) == 8 && Pow2(7) == 128;
    hide Pow2, LsbFirst;
  }

  /** The lengths of the code length code are stored for 16, 17, 18, 0 and then, alternating, for 8, 9, ... and for 7,
      6, ... down to 1; those not stored are 0. */
  lemma StoredOrder(src: Source, bp: nat, hclen: nat, k: nat)
    requires hclen <= 19 && bp + 3 * hclen <= |src.bits| && k < 19
    ensures var s := if k < 3 then 16 + k else if k == 3 then 0 else if k % 2 == 0 then 6 + k / 2 else (19 - k) / 2;
            && s < 19
            && CodeLengthLens(src, bp, hclen)[s] == if k < hclen then ValueAt(src.bits, bp + 3 * k, 3) else 0
  {
    hide ValueAt;
    ClclInverse(k);
  }

  /** The three counts begin at 257, 1 and 4 and are 5, 5 and 4 bits wide; then come the lengths of the code length
      code, three bits each, and the run-length coded lengths. */
  lemma CountsMean(src: Source, bp: nat, x: nat, y: nat, z: nat, stray: nat)
    requires src.Padded() && src.inlength >= 2 && x < 32 && y < 32 && z < 16 && bp < 8 * (src.inlength - 2)
    requires BitsAt(src.bits, bp, LsbFirst(x, 5) + LsbFirst(y, 5) + LsbFirst(z, 4))
    ensures ReadTrees(src, bp, stray)
            == ReadTreesWith(src, bp + 14 + 3 * (z + 4), CodeLengthLens(src, bp + 14, z + 4), x + 257, y + 1, stray)
  {
    hide ReadTreesWith, CodeLengthLens, LsbFirst;
    var counts := LsbFirst(x, 5) + LsbFirst(y, 5) + LsbFirst(z, 4);
    assert counts + [] + [] == counts;
    FieldsRoundTrip(src.bits, bp, x, y, z, [], []);
  }

  /** A header that begins in the last two bytes of the input or behind it is an error. */
  lemma CountsMissing(src: Source, bp: nat, stray: nat)
    requires src.Padded() && src.inlength >= 2 && bp >= 8 * (src.inlength - 2)
    ensures ReadTrees(src, bp, stray) == BadTrees
  {
  }

  /** The first hlit lengths are those of the literal/length code, the others those of the distance code, and the rest
      of both is 0; the end code, 256, must have a code. */
  lemma TablesMean(lens: seq<nat>, hlit: nat, bp: nat, k: nat)
    requires 257 <= hlit <= 288 && hlit <= |lens| <= hlit + 32
    ensures k < 288 ==> LitLenLens(lens, hlit)[k] == if k < hlit then lens[k] else 0
    ensures k < 32 ==> DistLens(lens, hlit)[k] == if hlit + k < |lens| then lens[hlit + k] else 0
    ensures BuildTrees(lens, hlit, bp).BadTrees?
            <==> lens[256] == 0 || !TreeFits(LitLenLens(lens, hlit)) || !TreeFits(DistLens(lens, hlit))
    ensures var r := BuildTrees(lens, hlit, bp);
            r.Trees? ==> r.litLen == Tree(LitLenLens(lens, hlit)) && r.dist == Tree(DistLens(lens, hlit)) && r.bp == bp
  {
    hide TreeFits, Tree;
  }
}
