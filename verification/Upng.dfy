/** The inflater as it runs: loops that advance the bit pointer and the output position, fill trees and the
    output buffer in place and set the error code. Every method is proved equal to its specification in
    HuffmanTree, DynamicHeader, Lz77 and Zlib. */
module Upng {
  import opened Bits
  import opened UpngErrors
  import opened CanonicalCode
  import opened HuffmanTree
  import opened DynamicHeader
  import opened Lz77
  import Zlib

  /** State of one inflate run: uz_inflate, uz_inflate_data and the functions they pass bp, pos and the error to. */
  class Inflater {
    const input: seq<byte>
    const inpos: nat
    const insize: nat
    const out: array<byte>
    const outsize: nat
    const fixedDeflateCodeTree: array<nat>
    const fixedDistanceTree: array<nat>
    /** Bytes in front of the output buffer, nearest first. */
    const below: nat -> byte
    /** What bitlenD holds outside its bounds. */
    const stray: nat

    var bp: nat
    var pos: nat
    var error: UpngError

    ghost const src: Source

    ghost predicate Valid()
      reads this
    {
      && inpos + insize + SLACK <= |input|
      && src == Source(BitsOf(input[inpos..]), insize) && src.Padded() && 2 <= insize < 0x1_0000_0000
      && pos <= outsize <= out.Length && outsize < 0x8000_0000
      && fixedDeflateCodeTree.Length == 2 * NUM_DEFLATE_CODE_SYMBOLS
      && fixedDistanceTree.Length == 2 * NUM_DISTANCE_SYMBOLS
      && stray <= MAX_BIT_LENGTH
    }

    /** The bytes written so far. */
    ghost function Output(): seq<byte>
      reads this, out
      requires pos <= out.Length
    {
      out[..pos]
    }

    ghost function Setup(): Zlib.Setup
      reads fixedDeflateCodeTree, fixedDistanceTree
    {
      Zlib.Setup(outsize, fixedDeflateCodeTree[..], fixedDistanceTree[..], below, stray)
    }

    /** The run has reached what r says: output and position, or the error with the output until then. */
    ghost predicate Reached(r: Inflated)
      reads this, out
      requires Valid()
    {
      && Output() == r.out
      && (if r.Inflated? then error == EOK && bp == r.bp else error == EMALFORMED)
    }

    // ----- Bits

    method ReadBit() returns (b: bit)
      requires Valid() && bp < |src.bits|
      modifies this`bp
      ensures b == src.bits[old(bp)] && bp == old(bp) + 1
    {
      b := Shr(input[inpos + bp / 8], bp % 8) % 2;
      bp := bp + 1;
    }

    method ReadBits(nbits: nat) returns (result: nat)
      requires Valid() && bp + nbits <= |src.bits|
      modifies this`bp
      ensures result == ValueAt(src.bits, old(bp), nbits) && bp == old(bp) + nbits
    {
      hide BitsOf, ValueAt;
      result := 0;
      var i := 0;
      NoValue(src.bits, bp);
      while i < nbits
        invariant i <= nbits && bp == old(bp) + i
        invariant result == ValueAt(src.bits, old(bp), i)
      {
        ValueAtSnoc(src.bits, old(bp), i);
        var b := ReadBit();
        result := result + Weighted(b, i);
        i := i + 1;
      }
    }

    // ----- Trees

    method DecodeSymbol(tree2d: array<nat>, numcodes: nat) returns (n: nat)
      requires Valid() && bp <= src.Limit() && numcodes > 0 && tree2d.Length == 2 * numcodes
      modifies this`bp, this`error
      ensures var d := Decode(tree2d[..], numcodes, src, old(bp));
              if d.Symbol? then n == d.n && bp == d.bp && error == old(error) else error == EMALFORMED
      ensures bp <= src.Limit()
    {
      hide DecodeFrom, Decode, BitsOf;
      ghost var cells := tree2d[..];
      ghost var d := Decode(cells, numcodes, src, bp);
      var treepos: nat := 0;
      DecodeStart(cells, numcodes, src, bp);
      while true
        invariant bp <= src.Limit() && treepos < numcodes && error == old(error)
        invariant DecodeFrom(cells, numcodes, src, bp, treepos) == d
        modifies this`bp, this`error
        decreases src.Limit() - bp
      {
        DecodeStep(cells, numcodes, src, bp, treepos);
        if bp % 8 == 0 && bp / 8 > insize {
          error := EMALFORMED;
          return 0;
        }
        var b := ReadBit();
        var ct := tree2d[2 * treepos + b];
        assert ct == cells[2 * treepos + src.bits[bp - 1]];
        if ct < numcodes {
          return ct;
        }
        treepos := ct - numcodes;
        if treepos >= numcodes {
          error := EMALFORMED;
          return 0;
        }
      }
    }

    lemma DecodeStart(cells: seq<nat>, numcodes: nat, src: Source, bp: nat)
      requires numcodes > 0 && |cells| == 2 * numcodes && src.Padded() && bp <= src.Limit()
      ensures Decode(cells, numcodes, src, bp) == DecodeFrom(cells, numcodes, src, bp, 0)
    {
      hide DecodeFrom;
    }

    /** Step 1: count the code lengths. */
    method CountLengths(bitlen: array<nat>) returns (blcount: array<nat>)
      requires forall n :: 0 <= n < bitlen.Length ==> bitlen[n] <= MAX_BIT_LENGTH
      ensures fresh(blcount) && blcount.Length == MAX_BIT_LENGTH + 1
      ensures forall b :: 0 <= b <= MAX_BIT_LENGTH ==> blcount[b] == Count(bitlen[..], b)
    {
      blcount := new nat[MAX_BIT_LENGTH + 1](_ => 0);
      var n := 0;
      while n < bitlen.Length
        invariant n <= bitlen.Length
        invariant forall b :: 0 <= b <= MAX_BIT_LENGTH ==> blcount[b] == Count(bitlen[..n], b)
      {
        CountSnoc(bitlen[..], n);
        assert bitlen[..][..n] == bitlen[..n] && bitlen[..][..n + 1] == bitlen[..n + 1];
        blcount[bitlen[n]] := blcount[bitlen[n]] + 1;
        n := n + 1;
      }
      assert bitlen[..bitlen.Length] == bitlen[..];
    }

    /** Step 2: the first code of each length. */
    method FirstCodes(bitlen: array<nat>, maxbitlen: nat) returns (nextcode: array<nat>)
      requires maxbitlen <= MAX_BIT_LENGTH
      requires forall n :: 0 <= n < bitlen.Length ==> bitlen[n] <= MAX_BIT_LENGTH
      ensures fresh(nextcode) && nextcode.Length == MAX_BIT_LENGTH + 1
      ensures forall b :: 0 <= b <= maxbitlen ==> nextcode[b] == SourceFirst(bitlen[..], b)
    {
      hide SourceFirst, Count;
      ghost var lens := bitlen[..];
      var blcount := CountLengths(bitlen);
      SourceFirstStep(lens, 0);
      nextcode := new nat[MAX_BIT_LENGTH + 1](_ => 0);
      var bits := 1;
      while bits <= maxbitlen
        invariant 1 <= bits <= maxbitlen + 1
        invariant forall b :: 0 <= b < bits ==> nextcode[b] == SourceFirst(lens, b)
        modifies nextcode
      {
        SourceFirstStep(lens, bits - 1);
        nextcode[bits] := (nextcode[bits - 1] + blcount[bits - 1]) * 2;
        bits := bits + 1;
      }
    }

    /** Step 3: the codes of the symbols in use. */
    method AssignCodes(bitlen: array<nat>, maxbitlen: nat) returns (tree1d: array<nat>)
      requires maxbitlen <= MAX_BIT_LENGTH
      requires forall n :: 0 <= n < bitlen.Length ==> bitlen[n] <= maxbitlen
      ensures fresh(tree1d) && tree1d.Length == bitlen.Length
      ensures forall n :: 0 <= n < bitlen.Length && bitlen[n] != 0 ==> tree1d[n] == SourceCode(bitlen[..], n)
    {
      hide SourceFirst, Count;
      ghost var lens := bitlen[..];
      var nextcode := FirstCodes(bitlen, maxbitlen);
      CountNone(lens);
      tree1d := new nat[bitlen.Length];
      var n := 0;
      while n < bitlen.Length
        invariant n <= bitlen.Length
        invariant forall b :: 1 <= b <= maxbitlen ==> nextcode[b] == SourceFirst(lens, b) + Count(lens[..n], b)
        invariant forall k :: 0 <= k < n && lens[k] != 0 ==> tree1d[k] == SourceCode(lens, k)
        modifies nextcode, tree1d
      {
        CountSnoc(lens, n);
        if bitlen[n] != 0 {
          tree1d[n] := nextcode[bitlen[n]];
          nextcode[bitlen[n]] := nextcode[bitlen[n]] + 1;
        }
        n := n + 1;
      }
    }

    /** Insert the bits of the code of symbol n into the tree, whose last node in use is nodefilled. */
    method InsertSymbol(tree2d: array<nat>, bitlen: array<nat>, n: nat, tree1d: array<nat>, nodefilled: nat,
                        treepos: nat)
      returns (nodefilled': nat, treepos': nat)
      requires error == EOK
      requires tree2d != bitlen && tree2d != tree1d && 2 <= bitlen.Length <= MAX_SYMBOLS
      requires tree2d.Length == 2 * bitlen.Length && tree1d.Length == bitlen.Length && n < bitlen.Length
      requires bitlen[n] != 0 ==> tree1d[n] == SourceCode(bitlen[..], n)
      modifies tree2d, this`error
      ensures var before := Trie(old(tree2d[..]), nodefilled, treepos, true);
              var r := InsertCode(before, bitlen.Length, Code(bitlen[..], n), n);
              if r.ok then r == Trie(tree2d[..], nodefilled', treepos', true) && error == EOK
              else error == EMALFORMED
    {
      hide InsertCode, Code, SourceCode;
      var numcodes, len := bitlen.Length, bitlen[n];
      ghost var lens := bitlen[..];
      ghost var code := Code(lens, n);
      ghost var goal := InsertCode(Trie(tree2d[..], nodefilled, treepos, true), numcodes, code, n);
      nodefilled', treepos' := nodefilled, treepos;
      var i := 0;
      assert code[0..] == code;
      while i < len
        invariant 0 <= i <= len && error == EOK
        invariant InsertCode(Trie(tree2d[..], nodefilled', treepos', true), numcodes, code[i..], n) == goal
        modifies tree2d, this`error
      {
        SymbolBit(lens, n, i);
        var b: bit := Shr(tree1d[n], len - i - 1) % 2;
        ghost var t := Trie(tree2d[..], nodefilled', treepos', true);
        InsertCodeStep(t, numcodes, code, i, n);
        if treepos' > numcodes - 2 {
          StuckStaysStuck(t.(ok := false), numcodes, code[i + 1..], n);
          error := EMALFORMED;
          return;
        }
        var cell := 2 * treepos' + b;
        if tree2d[cell] == EMPTY {
          if i + 1 == len {
            tree2d[cell] := n;
            treepos' := 0;
          } else {
            nodefilled' := nodefilled' + 1;
            tree2d[cell] := nodefilled' + numcodes;
            treepos' := nodefilled';
          }
        } else {
          treepos' := Sub32(tree2d[cell], numcodes);
        }
        assert Trie(tree2d[..], nodefilled', treepos', true) == InsertBit(t, numcodes, b, i + 1 == len, n);
        i := i + 1;
      }
      assert code[len..] == [];
      NoBitsLeft(Trie(tree2d[..], nodefilled', treepos', true), numcodes, n);
    }

    /** Mark all cells as unused. */
    method FillEmpty(tree2d: array<nat>)
      requires tree2d.Length % 2 == 0
      modifies tree2d
      ensures tree2d[..] == EmptyTrie(tree2d.Length / 2).cells
    {
      var n := 0;
      while n < tree2d.Length
        invariant n <= tree2d.Length
        invariant forall k :: 0 <= k < n ==> tree2d[k] == EMPTY
      {
        tree2d[n] := EMPTY;
        n := n + 1;
      }
    }

    /** Turn the cells that are still unused into symbol 0. */
    method ClearEmpty(tree2d: array<nat>)
      modifies tree2d
      ensures tree2d[..] == Cleaned(old(tree2d[..]))
    {
      var n := 0;
      while n < tree2d.Length
        invariant n <= tree2d.Length
        invariant forall k :: 0 <= k < n ==> tree2d[k] == Cleaned(old(tree2d[..]))[k]
        invariant forall k :: n <= k < tree2d.Length ==> tree2d[k] == old(tree2d[k])
      {
        if tree2d[n] == EMPTY {
          tree2d[n] := 0;
        }
        n := n + 1;
      }
    }

    /** Build the tree for the given code lengths, or fail when it has too many nodes. */
    method CreateLengths(tree2d: array<nat>, bitlen: array<nat>, maxbitlen: nat)
      requires error == EOK
      requires tree2d != bitlen && 2 <= bitlen.Length <= MAX_SYMBOLS && tree2d.Length == 2 * bitlen.Length
      requires maxbitlen <= MAX_BIT_LENGTH && forall n :: 0 <= n < bitlen.Length ==> bitlen[n] <= maxbitlen
      modifies tree2d, this`error
      ensures TreeFits(bitlen[..]) ==> tree2d[..] == Tree(bitlen[..]) && error == EOK
      ensures !TreeFits(bitlen[..]) ==> error == EMALFORMED
    {
      hide InsertCode, Code, SourceCode;
      ghost var lens := bitlen[..];
      var numcodes := bitlen.Length;
      var tree1d := AssignCodes(bitlen, maxbitlen);
      FillEmpty(tree2d);
      var nodefilled: nat, treepos: nat := 0, 0;
      var n := 0;
      while n < numcodes
        invariant 0 <= n <= numcodes && error == EOK
        invariant Trie(tree2d[..], nodefilled, treepos, true) == Grow(lens, n)
        modifies tree2d, this`error
      {
        nodefilled, treepos := InsertSymbol(tree2d, bitlen, n, tree1d, nodefilled, treepos);
        if error != EOK {
          StaysStuck(lens, n + 1, numcodes);
          return;
        }
        n := n + 1;
      }
      ClearEmpty(tree2d);
    }

    // ----- Header of a dynamic block

    /** bitlen followed by bitlenD holds the lengths read so far, then zeros. */
    ghost predicate Tables(bitlen: array<nat>, bitlenD: array<nat>, hlit: nat, lens: seq<nat>)
      reads bitlen, bitlenD
    {
      && bitlen.Length == NUM_DEFLATE_CODE_SYMBOLS && bitlenD.Length == NUM_DISTANCE_SYMBOLS && bitlen != bitlenD
      && hlit <= bitlen.Length && |lens| <= hlit + bitlenD.Length
      && (forall k :: 0 <= k < |lens| ==> lens[k] <= MAX_BIT_LENGTH)
      && (forall k :: 0 <= k < bitlen.Length ==> bitlen[k] == if k < hlit && k < |lens| then lens[k] else 0)
      && (forall k :: 0 <= k < bitlenD.Length ==> bitlenD[k] == if hlit + k < |lens| then lens[hlit + k] else 0)
    }

    /** Store one code length as number i. */
    method StoreLength(bitlen: array<nat>, bitlenD: array<nat>, hlit: nat, i: nat, value: nat, ghost lens: seq<nat>)
      requires Tables(bitlen, bitlenD, hlit, lens) && i == |lens| < hlit + bitlenD.Length && value <= MAX_BIT_LENGTH
      modifies bitlen, bitlenD
      ensures Tables(bitlen, bitlenD, hlit, lens + [value])
    {
      if i < hlit {
        bitlen[i] := value;
      } else {
        bitlenD[i - hlit] := value;
      }
    }

    /** Store a run of code lengths from number i on, unless it overflows the tables. */
    method StoreRun(bitlen: array<nat>, bitlenD: array<nat>, hlit: nat, total: nat, i: nat, value: nat, replength: nat,
                    ghost lens: seq<nat>)
      returns (i': nat, ghost lens': seq<nat>)
      requires Tables(bitlen, bitlenD, hlit, lens) && i == |lens| <= total <= hlit + bitlenD.Length
      requires value <= MAX_BIT_LENGTH && error == EOK
      modifies bitlen, bitlenD, this`error
      ensures Tables(bitlen, bitlenD, hlit, lens') && i <= i' == |lens'| <= total
      ensures if i + replength <= total then error == EOK && lens' == lens + Repeat(value, replength)
              else error == EMALFORMED
    {
      i', lens' := i, lens;
      var n := 0;
      while n < replength
        invariant 0 <= n <= replength && i' == |lens'| == i + n <= total && error == EOK
        invariant Tables(bitlen, bitlenD, hlit, lens') && lens' == lens + Repeat(value, n)
      {
        if i' >= total {
          error := EMALFORMED;
          break;
        }
        StoreLength(bitlen, bitlenD, hlit, i', value, lens');
        lens' := lens' + [value];
        i' := i' + 1;
        n := n + 1;
      }
    }

    /** One symbol of the code length alphabet and what it stands for. */
    method ReadOneLength(tree2d: array<nat>, bitlen: array<nat>, bitlenD: array<nat>, hlit: nat, total: nat, i: nat,
                         ghost lens: seq<nat>)
      returns (i': nat, ghost lens': seq<nat>)
      requires Valid() && bp <= src.Limit() && error == EOK && tree2d.Length == 2 * NUM_CODE_LENGTH_CODES
      requires Tables(bitlen, bitlenD, hlit, lens) && i == |lens| < total <= hlit + bitlenD.Length
      requires tree2d != bitlen && tree2d != bitlenD
      modifies this`bp, this`error, bitlen, bitlenD
      ensures bp <= src.Limit() && Tables(bitlen, bitlenD, hlit, lens') && i <= i' == |lens'| <= total
      ensures var r := ReadLength(tree2d[..], src, old(bp), total, stray, lens);
              if r.Lengths? then error == EOK && lens' == r.lens && bp == r.bp else error == EMALFORMED
    {
      hide Decode, FinishLength, Tables, BitsOf;
      i', lens' := i, lens;
      var code := DecodeSymbol(tree2d, NUM_CODE_LENGTH_CODES);
      if error == EOK {
        i', lens' := FinishOneLength(code, bitlen, bitlenD, hlit, total, i, lens);
      }
    }

    /** What symbol code stands for. */
    method FinishOneLength(code: nat, bitlen: array<nat>, bitlenD: array<nat>, hlit: nat, total: nat, i: nat,
                           ghost lens: seq<nat>)
      returns (i': nat, ghost lens': seq<nat>)
      requires Valid() && bp <= src.Limit() && error == EOK && code < NUM_CODE_LENGTH_CODES
      requires Tables(bitlen, bitlenD, hlit, lens) && i == |lens| < total <= hlit + bitlenD.Length
      modifies this`bp, this`error, bitlen, bitlenD
      ensures bp <= src.Limit() && Tables(bitlen, bitlenD, hlit, lens') && i <= i' == |lens'| <= total
      ensures var r := FinishLength(src, code, old(bp), total, stray, lens);
              if r.Lengths? then error == EOK && lens' == r.lens && bp == r.bp else error == EMALFORMED
    {
      hide BitsOf, Tables, ValueAt, Repeat;
      i', lens' := i, lens;
      if code <= 15 {
        StoreLength(bitlen, bitlenD, hlit, i, code, lens);
        i', lens' := i + 1, lens + [code];
      } else if bp / 8 >= insize {
        error := EMALFORMED;
      } else if code == 16 {
        var extra := ReadBits(2);
        var value := PreviousLength(bitlen, bitlenD, hlit, i, lens);
        i', lens' := StoreRun(bitlen, bitlenD, hlit, total, i, value, 3 + extra, lens);
      } else if code == 17 {
        var extra := ReadBits(3);
        i', lens' := StoreRun(bitlen, bitlenD, hlit, total, i, 0, 3 + extra, lens);
      } else if code == 18 {
        var extra := ReadBits(7);
        i', lens' := StoreRun(bitlen, bitlenD, hlit, total, i, 0, 11 + extra, lens);
      } else {
        // There is no such code.
        assert false;
      }
    }

    /** The length that symbol 16 repeats; the index is unsigned. */
    method PreviousLength(bitlen: array<nat>, bitlenD: array<nat>, hlit: nat, i: nat,
                          ghost lens: seq<nat>) returns (value: nat)
      requires Valid() && Tables(bitlen, bitlenD, hlit, lens) && i == |lens| < hlit + bitlenD.Length
      ensures value == Previous(lens, stray) && value <= MAX_BIT_LENGTH
    {
      if Sub32(i, 1) < hlit {
        value := bitlen[i - 1];
      } else if i == 0 {
        value := stray;
      } else {
        value := bitlenD[i - hlit - 1];
      }
    }

    /** The lengths of the code length code. */
    method ReadCodeLengthLens(hclen: nat) returns (codelengthcode: array<nat>)
      requires Valid() && hclen <= NUM_CODE_LENGTH_CODES && bp + 3 * hclen <= |src.bits|
      modifies this`bp
      ensures fresh(codelengthcode) && codelengthcode[..] == CodeLengthLens(src, old(bp), hclen)
      ensures bp == old(bp) + 3 * hclen
    {
      codelengthcode := new nat[NUM_CODE_LENGTH_CODES];
      ghost var cl := CodeLengthLens(src, bp, hclen);
      var i := 0;
      while i < NUM_CODE_LENGTH_CODES
        invariant 0 <= i <= NUM_CODE_LENGTH_CODES
        invariant bp == old(bp) + 3 * (if i < hclen then i else hclen)
        invariant forall s :: 0 <= s < NUM_CODE_LENGTH_CODES && CLCL_INDEX[s] < i ==> codelengthcode[s] == cl[s]
        modifies this`bp, codelengthcode
      {
        ClclInverse(i);
        ClclDistinct(i);
        var value := 0;
        if i < hclen {
          value := ReadBits(3);
        }
        codelengthcode[CLCL[i]] := value;
        i := i + 1;
      }
      forall s | 0 <= s < NUM_CODE_LENGTH_CODES ensures codelengthcode[s] == cl[s] {
        ClclInverse(s);
      }
    }

    /** The header of a dynamic block: read the code lengths and build both trees. */
    method GetTreeInflateDynamic(codetree: array<nat>, codetreeD: array<nat>)
      requires Valid() && bp <= 8 * (insize + 1) && error == EOK
      requires codetree.Length == 2 * NUM_DEFLATE_CODE_SYMBOLS && codetreeD.Length == 2 * NUM_DISTANCE_SYMBOLS
      modifies this`bp, this`error, codetree, codetreeD
      ensures bp <= src.Limit()
      ensures var r := ReadTrees(src, old(bp), stray);
              if r.Trees? then error == EOK && codetree[..] == r.litLen && codetreeD[..] == r.dist && bp == r.bp
              else error == EMALFORMED
    {
      hide Decode, ValueAt, ReadLengths, TreeFits, Tree, CodeLengthLens;
      if bp / 8 >= Sub32(insize, 2) {
        error := EMALFORMED;
        return;
      }
      assert Pow2(5) == 32 && Pow2(4) == 16;
      ghost var start := bp;
      var hlit := ReadBits(5);
      hlit := hlit + 257;
      var hdist := ReadBits(5);
      hdist := hdist + 1;
      var hclen := ReadBits(4);
      hclen := hclen + 4;
      var codelengthcode := ReadCodeLengthLens(hclen);
      ghost var cl := codelengthcode[..];
      assert ReadTrees(src, start, stray) == ReadTreesWith(src, bp, cl, hlit, hdist, stray);
      var codelengthcodetree := new nat[2 * NUM_CODE_LENGTH_CODES];
      CreateLengths(codelengthcodetree, codelengthcode, CODE_LENGTH_BITLEN);
      if error != EOK {
        return;
      }
      ReadAllLengths(codetree, codetreeD, codelengthcodetree, hlit, hdist, cl);
    }

    /** The run-length coded code lengths and the two trees they give. */
    method ReadAllLengths(codetree: array<nat>, codetreeD: array<nat>, codelengthcodetree: array<nat>,
                          hlit: nat, hdist: nat, ghost cl: seq<nat>)
      requires Valid() && bp <= src.Limit() && error == EOK
      requires codetree.Length == 2 * NUM_DEFLATE_CODE_SYMBOLS && codetreeD.Length == 2 * NUM_DISTANCE_SYMBOLS
      requires 257 <= hlit <= NUM_DEFLATE_CODE_SYMBOLS && hdist <= NUM_DISTANCE_SYMBOLS
      requires |cl| == NUM_CODE_LENGTH_CODES && TreeFits(cl) && codelengthcodetree[..] == Tree(cl)
      requires codetree != codelengthcodetree && codetreeD != codelengthcodetree
      modifies this`bp, this`error, codetree, codetreeD
      ensures bp <= src.Limit()
      ensures var r := ReadTreesWith(src, old(bp), cl, hlit, hdist, stray);
              if r.Trees? then error == EOK && codetree[..] == r.litLen && codetreeD[..] == r.dist && bp == r.bp
              else error == EMALFORMED
    {
      hide Decode, ReadLength, TreeFits, Tree;
      var total := hlit + hdist;
      ghost var cells := codelengthcodetree[..];
      ghost var goal := ReadLengths(cells, src, bp, total, stray, []);
      var bitlen := new nat[NUM_DEFLATE_CODE_SYMBOLS](_ => 0);
      var bitlenD := new nat[NUM_DISTANCE_SYMBOLS](_ => 0);
      ghost var lens: seq<nat> := [];
      var i: nat := 0;
      while i < total && error == EOK
        invariant bp <= src.Limit() && Tables(bitlen, bitlenD, hlit, lens) && i == |lens| <= total
        invariant if error == EOK then ReadLengths(cells, src, bp, total, stray, lens) == goal
                  else error == EMALFORMED && goal.BadLengths?
        decreases total - i, if error == EOK then 1 else 0
        modifies this`bp, this`error, bitlen, bitlenD
      {
        ReadLengthsStep(cells, src, bp, total, stray, lens);
        i, lens := ReadOneLength(codelengthcodetree, bitlen, bitlenD, hlit, total, i, lens);
      }
      if error == EOK {
        assert goal == Lengths(lens, bp);
        TablesAreLens(bitlen, bitlenD, hlit, lens);
        if bitlen[END_CODE] == 0 {
          error := EMALFORMED;
        }
      }
      if error == EOK {
        CreateLengths(codetree, bitlen, DEFLATE_CODE_BITLEN);
      }
      if error == EOK {
        CreateLengths(codetreeD, bitlenD, DEFLATE_CODE_BITLEN);
      }
    }

    lemma TablesAreLens(bitlen: array<nat>, bitlenD: array<nat>, hlit: nat, lens: seq<nat>)
      requires Tables(bitlen, bitlenD, hlit, lens) && hlit <= |lens|
      ensures bitlen[..] == LitLenLens(lens, hlit) && bitlenD[..] == DistLens(lens, hlit)
    {
    }

    // ----- Blocks

    /** A byte of the output buffer, or of the memory in front of it when a 32-bit index has wrapped. */
    method Load(index: nat) returns (b: byte)
      requires Valid() && index < 0x1_0000_0000 && (index < out.Length || index >= 0x8000_0000)
      ensures b == if index < 0x8000_0000 then out[index] else below(0xFFFF_FFFF - index)
    {
      if index < 0x8000_0000 {
        b := out[index];
      } else {
        b := below(0xFFFF_FFFF - index);
      }
    }

    /** Copy length bytes from distance back, reading only what stood there before the copy. */
    method CopyMatch(length: nat, distance: nat)
      requires Valid() && 1 <= distance <= 0x8000 && pos + length < outsize
      modifies this`pos, out
      ensures pos == old(pos) + length && Output() == Copied(old(Output()), length, distance, below)
      ensures out[pos..] == old(out[..])[pos..]
    {
      hide CopiedByte, BackwardIndex, BitsOf;
      ghost var start := pos;
      ghost var before := Output();
      var first := Sub32(pos, distance);
      var stop := pos;
      var backward := first;
      var forward := 0;
      FirstIndex(stop, distance);
      while forward < length
        invariant 0 <= forward <= length && pos == start + forward
        invariant backward == BackwardIndex(start, distance, forward)
        invariant out[..start] == before
        invariant forall k :: 0 <= k < forward ==> out[start + k] == CopiedByte(before, distance, below, k)
        invariant forall k :: pos <= k < out.Length ==> out[k] == old(out[k])
        modifies this`pos, out
      {
        IndexedByte(before, distance, below, forward);
        NextIndex(start, distance, forward);
        var b := Load(backward);
        out[pos] := b;
        pos := pos + 1;
        backward := (backward + 1) % 0x1_0000_0000;
        if backward >= stop {
          backward := first;
        }
        forward := forward + 1;
      }
    }

    /** The run stands where step says; the rest of the buffer is untouched. */
    ghost predicate Stepped(step: Step)
      reads this, out
      requires Valid()
    {
      && Output() == step.out
      && (if step.Fail? then error == EMALFORMED else error == EOK && bp == step.bp)
    }

    /** The match whose length code has been read. */
    method InflateMatch(code: nat, codetreeD: array<nat>)
      requires Valid() && bp <= src.Limit() && error == EOK && codetreeD.Length == 2 * NUM_DISTANCE_SYMBOLS
      requires FIRST_LENGTH_CODE_INDEX <= code <= LAST_LENGTH_CODE_INDEX
      modifies this`bp, this`pos, this`error, out
      ensures Valid() && bp <= src.Limit() && pos >= old(pos) && out[pos..] == old(out[..])[pos..]
      ensures Stepped(SymbolStep(code, codetreeD[..], src, old(bp), old(Output()), outsize, below))
    {
      hide Decode, ValueAt, LengthBase, LengthExtra, DistanceBase, DistanceExtra, Copied, BitsOf;
      var length := LengthBase(code - FIRST_LENGTH_CODE_INDEX);
      var numextrabits := LengthExtra(code - FIRST_LENGTH_CODE_INDEX);
      if bp / 8 >= insize {
        error := EMALFORMED;
        return;
      }
      var extra := ReadBits(numextrabits);
      length := length + extra;
      var codeD := DecodeSymbol(codetreeD, NUM_DISTANCE_SYMBOLS);
      if error != EOK {
        return;
      }
      if codeD > 29 {
        error := EMALFORMED;
        return;
      }
      var distance := DistanceBase(codeD);
      var numextrabitsD := DistanceExtra(codeD);
      if bp / 8 >= insize {
        error := EMALFORMED;
        return;
      }
      var extraD := ReadBits(numextrabitsD);
      DistanceBound(codeD, extraD);
      distance := distance + extraD;
      if pos + length >= outsize {
        error := EMALFORMED;
        return;
      }
      CopyMatch(length, distance);
    }

    /** One token of a compressed block; done is set by the end code. */
    method InflateToken(codetree: array<nat>, codetreeD: array<nat>) returns (done: bool)
      requires Valid() && bp <= src.Limit() && error == EOK
      requires codetree.Length == 2 * NUM_DEFLATE_CODE_SYMBOLS && codetreeD.Length == 2 * NUM_DISTANCE_SYMBOLS
      modifies this`bp, this`pos, this`error, out
      ensures Valid() && bp <= src.Limit() && pos >= old(pos) && out[pos..] == old(out[..])[pos..]
      ensures var step := TokenStep(codetree[..], codetreeD[..], src, old(bp), old(Output()), outsize, below);
              Stepped(step) && (done <==> step.End?)
    {
      hide Decode, DistanceStep, BitsOf;
      done := false;
      var code := DecodeSymbol(codetree, NUM_DEFLATE_CODE_SYMBOLS);
      if error != EOK {
        return;
      }
      if code == END_CODE {
        done := true;
      } else if code <= 255 {
        if pos >= outsize {
          error := EMALFORMED;
          return;
        }
        out[pos] := code;
        pos := pos + 1;
      } else if FIRST_LENGTH_CODE_INDEX <= code <= LAST_LENGTH_CODE_INDEX {
        InflateMatch(code, codetreeD);
      }
    }

    /** The token loop. */
    method InflateTokenLoop(codetree: array<nat>, codetreeD: array<nat>)
      requires Valid() && bp <= src.Limit() && error == EOK
      requires codetree.Length == 2 * NUM_DEFLATE_CODE_SYMBOLS && codetreeD.Length == 2 * NUM_DISTANCE_SYMBOLS
      modifies this`bp, this`pos, this`error, out
      ensures Valid() && pos >= old(pos) && out[pos..] == old(out[..])[pos..]
      ensures Reached(InflateTokens(codetree[..], codetreeD[..], src, old(bp), old(Output()), outsize, below))
    {
      hide TokenStep, InflateTokens, BitsOf;
      ghost var ll, dd := codetree[..], codetreeD[..];
      ghost var goal := InflateTokens(ll, dd, src, bp, Output(), outsize, below);
      var done := false;
      while !done
        invariant Valid() && bp <= src.Limit() && error == EOK && pos >= old(pos)
        invariant out[pos..] == old(out[..])[pos..]
        invariant if done then goal == Inflated(Output(), bp)
                  else InflateTokens(ll, dd, src, bp, Output(), outsize, below) == goal
        decreases if done then 0 else 1 + src.Limit() - bp
        modifies this`bp, this`pos, this`error, out
      {
        FirstStep(ll, dd, src, bp, Output(), outsize, below);
        done := InflateToken(codetree, codetreeD);
        if error != EOK {
          return;
        }
      }
    }

    /** A block compressed with the fixed codes or with codes of its own. */
    method InflateHuffman(btype: nat)
      requires Valid() && bp <= 8 * (insize + 1) && error == EOK && 1 <= btype <= 2
      modifies this`bp, this`pos, this`error, out
      ensures Valid() && pos >= old(pos) && out[pos..] == old(out[..])[pos..]
      ensures Reached(Zlib.InflateHuffman(src, old(bp), btype, old(Output()), Setup()))
    {
      hide InflateTokens, ReadTrees, BitsOf;
      var codetree, codetreeD;
      if btype == 1 {
        codetree, codetreeD := fixedDeflateCodeTree, fixedDistanceTree;
      } else {
        codetree := new nat[2 * NUM_DEFLATE_CODE_SYMBOLS];
        codetreeD := new nat[2 * NUM_DISTANCE_SYMBOLS];
        GetTreeInflateDynamic(codetree, codetreeD);
        if error != EOK {
          // The token loop of the source decodes one more symbol with the unfinished tree and then gives up.
          var _ := DecodeSymbol(codetree, NUM_DEFLATE_CODE_SYMBOLS);
          return;
        }
      }
      InflateTokenLoop(codetree, codetreeD);
    }

    /** Go to the next byte boundary. */
    method AlignToByte()
      modifies this`bp
      ensures bp == 8 * ((old(bp) + 7) / 8)
    {
      while bp % 8 != 0
        invariant old(bp) <= bp <= 8 * ((old(bp) + 7) / 8)
        decreases 8 * ((old(bp) + 7) / 8) - bp
        modifies this`bp
      {
        bp := bp + 1;
      }
    }

    /** Two input bytes, least significant first. */
    method InputWord(p: nat) returns (w: nat)
      requires Valid() && p + 1 < insize + SLACK
      ensures w == Zlib.WordAt(src, p)
    {
      hide Zlib.ByteAt, BitsOf;
      var lo: nat := InputByte(p);
      var hi: nat := InputByte(p + 1);
      w := lo + 256 * hi;
    }

    /** Copy len input bytes to the output. */
    method CopyStored(p: nat, len: nat)
      requires Valid() && p + len <= insize && pos + len <= outsize
      modifies this`pos, out
      ensures pos == old(pos) + len && out[pos..] == old(out[..])[pos..]
      ensures Output() == old(Output()) + Zlib.BytesAt(src, p, len)
    {
      hide Zlib.ByteAt, BitsOf;
      ghost var before, bytes := Output(), Zlib.BytesAt(src, p, len);
      var n := 0;
      while n < len
        invariant 0 <= n <= len && pos == |before| + n
        invariant out[..pos] == before + bytes[..n]
        invariant forall k :: pos <= k < out.Length ==> out[k] == old(out[k])
        modifies this`pos, out
      {
        var b := InputByte(p + n);
        assert bytes[..n + 1] == bytes[..n] + [b];
        out[pos] := b;
        pos := pos + 1;
        n := n + 1;
      }
      assert bytes[..len] == bytes;
    }

    /** A stored block. */
    method InflateUncompressed()
      requires Valid() && bp <= 8 * (insize + 1) && error == EOK
      modifies this`bp, this`pos, this`error, out
      ensures Valid() && pos >= old(pos) && out[pos..] == old(out[..])[pos..]
      ensures Reached(Zlib.InflateStored(src, old(bp), old(Output()), outsize))
    {
      hide BitsOf, Zlib.WordAt, Zlib.BytesAt;
      AlignToByte();
      var p := bp / 8;
      if p >= Sub32(insize, 4) {
        error := EMALFORMED;
        return;
      }
      var len := InputWord(p);
      p := p + 2;
      var nlen := InputWord(p);
      p := p + 2;
      if len + nlen != 65535 {
        error := EMALFORMED;
        return;
      }
      if pos + len >= outsize {
        error := EMALFORMED;
        return;
      }
      if p + len > insize {
        error := EMALFORMED;
        return;
      }
      CopyStored(p, len);
      bp := (p + len) * 8;
    }

    /** Byte p of the input. */
    method InputByte(p: nat) returns (b: byte)
      requires Valid() && p < insize + SLACK
      ensures b == Zlib.ByteAt(src, p)
    {
      b := input[inpos + p];
      ValueOfByte(input[inpos..], p);
    }

    /** One block, its three header bits included. */
    method InflateBlock() returns (final: bool)
      requires Valid() && bp / 8 < insize && error == EOK
      modifies this`bp, this`pos, this`error, out
      ensures Valid() && pos >= old(pos) && out[pos..] == old(out[..])[pos..]
      ensures final <==> src.bits[old(bp)] == 1
      ensures Reached(Zlib.InflateBlock(src, old(bp) + 3, Zlib.BlockType(src, old(bp)), old(Output()), Setup()))
    {
      hide BitsOf, Zlib.InflateStored, Zlib.InflateHuffman;
      var done := ReadBit();
      var low := ReadBit();
      var high := ReadBit();
      final := done == 1;
      var btype := (low as nat) + 2 * (high as nat);
      if btype == 3 {
        error := EMALFORMED;
      } else if btype == 0 {
        InflateUncompressed();
      } else {
        InflateHuffman(btype);
      }
    }

    /** The block loop. */
    method UzInflateData()
      requires Valid() && bp == 0 && pos == 0 && error == EOK
      modifies this`bp, this`pos, this`error, out
      ensures Valid() && out[pos..] == old(out[..])[pos..]
      ensures Reached(Zlib.InflateBlocks(src, 0, [], Setup()))
    {
      hide BitsOf, Zlib.InflateBlock, Zlib.InflateBlocks, Zlib.BlockType;
      var done := false;
      ghost var setup := Setup();
      ghost var goal := Zlib.InflateBlocks(src, 0, [], setup);
      while !done
        invariant Valid() && error == EOK
        invariant out[pos..] == old(out[..])[pos..]
        invariant if done then goal == Inflated(Output(), bp)
                  else bp <= src.Limit() && Zlib.InflateBlocks(src, bp, Output(), setup) == goal
        decreases if done then 0 else 1 + src.Limit() - bp
        modifies this`bp, this`pos, this`error, out
      {
        BlockLoopStep(src, bp, Output(), setup);
        if bp / 8 >= insize {
          error := EMALFORMED;
          return;
        }
        ghost var before, from := out[..], pos;
        ghost var one := Zlib.InflateBlock(src, bp + 3, Zlib.BlockType(src, bp), Output(), setup);
        done := InflateBlock();
        TailKept(old(out[..]), before, out[..], from, pos);
        assert Reached(one);
        if error != EOK {
          return;
        }
      }
    }

    lemma TailKept(a: seq<byte>, b: seq<byte>, c: seq<byte>, p: nat, q: nat)
      requires p <= q <= |a| == |b| == |c| && b[p..] == a[p..] && c[q..] == b[q..]
      ensures c[q..] == a[q..]
    {
      assert forall k :: q <= k < |a| ==> b[k] == b[p..][k - p] && a[k] == a[p..][k - p];
    }

    /** A run over input from its third byte on, at the start of the output buffer. */
    constructor (input: seq<byte>, insize: nat, out: array<byte>, outsize: nat, fixedLitLen: array<nat>,
                 fixedDist: array<nat>, below: nat -> byte, stray: nat)
      requires insize + 2 + SLACK <= |input| && 2 <= insize < 0x1_0000_0000
      requires outsize <= out.Length && outsize < 0x8000_0000 && stray <= MAX_BIT_LENGTH
      requires fixedLitLen.Length == 2 * NUM_DEFLATE_CODE_SYMBOLS && fixedDist.Length == 2 * NUM_DISTANCE_SYMBOLS
      ensures Valid() && bp == 0 && pos == 0 && error == EOK
      ensures this.input == input && this.insize == insize && inpos == 2
      ensures this.out == out && this.outsize == outsize && this.below == below && this.stray == stray
      ensures fixedDeflateCodeTree == fixedLitLen && fixedDistanceTree == fixedDist
    {
      this.input, this.insize, inpos := input, insize, 2;
      this.out, this.outsize, this.below, this.stray := out, outsize, below, stray;
      fixedDeflateCodeTree, fixedDistanceTree := fixedLitLen, fixedDist;
      bp, pos, error := 0, 0, EOK;
      src := Source(BitsOf(input[2..]), insize);
    }
  }

  /** Inflate a zlib stream of insize bytes into out: check its two header bytes, then inflate the blocks. */
  method UzInflate(input: seq<byte>, insize: nat, out: array<byte>, outsize: nat, fixedLitLen: array<nat>,
                   fixedDist: array<nat>, below: nat -> byte, stray: nat)
    returns (error: UpngError, written: nat)
    requires insize + 2 + SLACK <= |input| && insize < 0x1_0000_0000
    requires outsize <= out.Length && outsize < 0x8000_0000 && stray <= MAX_BIT_LENGTH
    requires fixedLitLen.Length == 2 * NUM_DEFLATE_CODE_SYMBOLS && fixedDist.Length == 2 * NUM_DISTANCE_SYMBOLS
    modifies out
    ensures var r := Zlib.Inflate(input, insize, Zlib.Setup(outsize, fixedLitLen[..], fixedDist[..], below, stray));
            && error == (if r.Inflated? then EOK else EMALFORMED)
            && written == |r.out| && out[..written] == r.out && out[written..] == old(out[..])[written..]
  {
    hide Zlib.InflateBlocks, BitsOf;
    error, written := EMALFORMED, 0;
    if insize < 2 {
      return;
    }
    if (input[0] as nat * 256 + input[1] as nat) % 31 != 0 {
      return;
    }
    if input[0] % 16 != 8 || (input[0] / 16) % 16 > 7 {
      return;
    }
    if (input[1] / 32) % 2 != 0 {
      return;
    }
    var run := new Inflater(input, insize, out, outsize, fixedLitLen, fixedDist, below, stray);
    run.UzInflateData();
    error, written := run.error, run.pos;
  }

  lemma DistanceBound(code: nat, extra: nat)
    requires code < 30 && extra < Pow2(DistanceExtra(code))
    ensures DistanceBase(code) + extra <= 0x8000
  {
    TableEntries();
    Powers();
    hide DISTANCE_BASE, DISTANCE_EXTRA, Pow2;
    if code >= 2 {
      DistanceRanges((code - 2) / 2);
    }
  }

  lemma BlockLoopStep(src: Source, bp: nat, out: seq<byte>, setup: Zlib.Setup)
    requires src.Padded() && src.inlength >= 2 && setup.Valid() && bp <= src.Limit() && |out| <= setup.outsize
    ensures var r := Zlib.InflateBlocks(src, bp, out, setup);
            if bp / 8 >= src.inlength then r == Failed(out)
            else
              var one := Zlib.InflateBlock(src, bp + 3, Zlib.BlockType(src, bp), out, setup);
              if one.Failed? || src.bits[bp] == 1 then r == one
              else r == Zlib.InflateBlocks(src, one.bp, one.out, setup)
  {
    hide Zlib.InflateBlock, Zlib.BlockType;
  }

  /** Where the copy loop reads its k-th byte, as a 32-bit index. */
  ghost function BackwardIndex(start: nat, distance: nat, k: nat): nat
    requires 1 <= distance <= 0x8000 && start < 0x8000_0000
  {
    if distance <= start then start - distance + k % distance
    else if distance == start + 1 && k % distance != 0 then k % distance - 1
    else 0x1_0000_0000 + start - distance
  }

  lemma FirstIndex(start: nat, distance: nat)
    requires 1 <= distance <= 0x8000 && start < 0x8000_0000
    ensures Sub32(start, distance) == BackwardIndex(start, distance, 0)
  {
  }

  /** The byte at that index is the byte to copy. */
  lemma IndexedByte(before: seq<byte>, distance: nat, below: nat -> byte, k: nat)
    requires 1 <= distance <= 0x8000 && |before| < 0x8000_0000
    ensures var index := BackwardIndex(|before|, distance, k);
            && (index < |before| || 0x8000_0000 <= index < 0x1_0000_0000)
            && CopiedByte(before, distance, below, k)
               == if index < |before| then before[index] else below(0xFFFF_FFFF - index)
  {
  }

  /** How the index moves on. */
  lemma NextIndex(start: nat, distance: nat, k: nat)
    requires 1 <= distance <= 0x8000 && start < 0x8000_0000
    ensures var next := (BackwardIndex(start, distance, k) + 1) % 0x1_0000_0000;
            BackwardIndex(start, distance, k + 1) == if next >= start then Sub32(start, distance) else next
  {
    NextRemainder(distance, k);
  }

  lemma NextRemainder(d: nat, k: nat)
    requires d >= 1
    ensures 0 % d == 0 && 0 <= k % d < d
    ensures (k + 1) % d == if k % d + 1 == d then 0 else k % d + 1
  {
    var q, r := k / d, k % d;
    assert k == d * q + r;
    if r + 1 == d {
      assert k + 1 == d * (q + 1) + 0;
      QuotientUnique(k + 1, d, q + 1, 0);
    } else {
      QuotientUnique(k + 1, d, q, r + 1);
    }
  }

  lemma ClclDistinct(i: nat)
    requires i < NUM_CODE_LENGTH_CODES
    ensures forall s :: 0 <= s < NUM_CODE_LENGTH_CODES && s != CLCL[i] ==> CLCL_INDEX[s] != i
  {
    forall s | 0 <= s < NUM_CODE_LENGTH_CODES ensures CLCL[CLCL_INDEX[s]] == s {
      ClclInverse(s);
    }
  }

  lemma ReadLengthsStep(cells: seq<nat>, src: Source, bp: nat, total: nat, stray: nat, lens: seq<nat>)
    requires |cells| == 2 * NUM_CODE_LENGTH_CODES && src.Padded() && bp <= src.Limit() && |lens| < total
    ensures var r := ReadLengths(cells, src, bp, total, stray, lens);
            var one := ReadLength(cells, src, bp, total, stray, lens);
            if one.Lengths? then r == ReadLengths(cells, src, one.bp, total, stray, one.lens) else r.BadLengths?
  {
    hide ReadLength;
  }

  lemma NoBitsLeft(t: Trie, m: nat, n: nat)
    requires 2 <= m <= MAX_SYMBOLS && |t.cells| == 2 * m
    ensures InsertCode(t, m, [], n) == t
  {
  }

  lemma {:induction false} StaysStuck(lens: seq<nat>, n: nat, k: nat)
    requires 2 <= |lens| <= MAX_SYMBOLS && n <= k <= |lens| && !Grow(lens, n).ok
    ensures !Grow(lens, k).ok
    decreases k
  {
    if n < k {
      StaysStuck(lens, n, k - 1);
      StuckStaysStuck(Grow(lens, k - 1), |lens|, Code(lens, k - 1), k - 1);
    }
  }

  lemma NoValue(bits: seq<bit>, bp: nat)
    requires bp <= |bits|
    ensures ValueAt(bits, bp, 0) == 0
  {
  }

  lemma DecodeStep(cells: seq<nat>, m: nat, src: Source, bp: nat, pos: nat)
    requires |cells| == 2 * m && src.Padded() && bp <= src.Limit() && pos < m
    ensures var d := DecodeFrom(cells, m, src, bp, pos);
            if src.PastEnd(bp) then d == Malformed
            else
              && bp < src.Limit()
              && var c := cells[2 * pos + src.bits[bp]];
                 d == if c < m then Symbol(c, bp + 1)
                      else if c - m >= m then Malformed
                      else DecodeFrom(cells, m, src, bp + 1, c - m)
  {
  }

  lemma SourceFirstStep(lens: seq<nat>, b: nat)
    ensures SourceFirst(lens, 0) == 0
    ensures SourceFirst(lens, b + 1) == 2 * (SourceFirst(lens, b) + Count(lens, b))
  {
  }

  lemma CountNone(lens: seq<nat>)
    ensures forall b :: Count(lens[..0], b) == 0
  {
  }

  /** The bit taken from the decoder's code number is the one of the standard code. */
  lemma SymbolBit(lens: seq<nat>, n: nat, i: nat)
    requires n < |lens| && i < lens[n]
    ensures Shr(SourceCode(lens, n), lens[n] - i - 1) % 2 == Code(lens, n)[i]
  {
    hide SourceCode, Code;
    SourceCodeBits(lens, n);
    MsbFirstBit(SourceCode(lens, n), lens[n], i);
  }

  lemma InsertCodeStep(t: Trie, m: nat, code: seq<bit>, i: nat, n: nat)
    requires 2 <= m <= MAX_SYMBOLS && |t.cells| == 2 * m && i < |code|
    ensures InsertCode(t, m, code[i..], n)
            == InsertCode(InsertBit(t, m, code[i], i + 1 == |code|, n), m, code[i + 1..], n)
  {
    hide InsertBit;
    assert code[i..][1..] == code[i + 1..];
  }

  lemma CountSnoc(lens: seq<nat>, n: nat)
    requires n < |lens|
    ensures forall b :: Count(lens[..n + 1], b) == Count(lens[..n], b) + (if lens[n] == b then 1 else 0)
  {
    assert lens[..n + 1][..n] == lens[..n];
  }
}
