/** Literal and match tokens of a compressed block (sections 3.2.3 to 3.2.5 of RFC 1951):
    what the inflater does with them and what they mean. */
module Lz77 {
  import opened Bits
  import opened CanonicalCode
  import opened HuffmanTree
  import opened DynamicHeader

  const FIRST_LENGTH_CODE_INDEX := 257
  const LAST_LENGTH_CODE_INDEX := 285

  const LENGTH_BASE: seq<nat> :=
    [3, 4, 5, 6, 7, 8, 9, 10, 11, 13, 15, 17, 19, 23, 27, 31, 35, 43, 51, 59,
     67, 83, 99, 115, 131, 163, 195, 227, 258]
  const LENGTH_EXTRA: seq<nat> :=
    [0, 0, 0, 0, 0, 0, 0, 0, 1, 1, 1, 1, 2, 2, 2, 2, 3, 3, 3, 3, 4, 4, 4, 4, 5, 5, 5, 5, 0]
  const DISTANCE_BASE: seq<nat> :=
    [1, 2, 3, 4, 5, 7, 9, 13, 17, 25, 33, 49, 65, 97, 129, 193, 257, 385, 513,
     769, 1025, 1537, 2049, 3073, 4097, 6145, 8193, 12289, 16385, 24577]
  const DISTANCE_EXTRA: seq<nat> :=
    [0, 0, 0, 0, 1, 1, 2, 2, 3, 3, 4, 4, 5, 5, 6, 6, 7, 7, 8, 8, 9, 9, 10, 10, 11, 11, 12, 12, 13, 13]

  function LengthBase(i: nat): (r: nat)
    requires i < 29
    ensures 3 <= r <= 258
  {
    LENGTH_BASE[i]
  }

  function LengthExtra(i: nat): (r: nat)
    requires i < 29
    ensures r <= 5
  {
    LENGTH_EXTRA[i]
  }

  function DistanceBase(i: nat): (r: nat)
    requires i < 30
    ensures 1 <= r <= 24577
  {
    DISTANCE_BASE[i]
  }

  function DistanceExtra(i: nat): (r: nat)
    requires i < 30
    ensures r <= 13
  {
    DISTANCE_EXTRA[i]
  }

  // ----- The copy of a match

  /** The meaning of a match: append, byte by byte, what stands distance back, new bytes included. */
  function CopyBytes(out: seq<byte>, length: nat, distance: nat): (r: seq<byte>)
    requires 1 <= distance <= |out|
    ensures |r| == |out| + length
    decreases length
  {
    if length == 0 then out else CopyBytes(out + [out[|out| - distance]], length - 1, distance)
  }

  /** The k-th byte the inflater copies. It only reads bytes in front of the match, wrapping back to
      its start. The distance is not checked: below(i) is the byte i + 1 places in front of the buffer. */
  function CopiedByte(out: seq<byte>, distance: nat, below: nat -> byte, k: nat): byte
    requires distance >= 1
  {
    if distance <= |out| then out[|out| - distance + k % distance]
    else if distance == |out| + 1 && k % distance != 0 then out[k % distance - 1]
    else below(distance - |out| - 1)
  }

  function Copied(out: seq<byte>, length: nat, distance: nat, below: nat -> byte): (r: seq<byte>)
    requires distance >= 1
    ensures |r| == |out| + length
  {
    out + seq(length, k requires 0 <= k < length => CopiedByte(out, distance, below, k))
  }

  lemma {:induction false} CopyBytesAt(out: seq<byte>, length: nat, distance: nat, i: nat)
    requires 1 <= distance <= |out| && i < |out| + length
    ensures var r := CopyBytes(out, length, distance);
            r[i] == if i < |out| then out[i] else r[i - distance]
    decreases length
  {
    if length > 0 {
      var out' := out + [out[|out| - distance]];
      CopyBytesAt(out', length - 1, distance, i);
      if i >= |out| {
        CopyBytesAt(out', length - 1, distance, i - distance);
      }
    }
  }

  lemma ModStep(k: nat, d: nat)
    requires d >= 1
    ensures k >= d ==> k % d == (k - d) % d
    ensures k < d ==> k % d == k
  {
    if k >= d {
      var q, r := k / d, k % d;
      assert k - d == d * (q - 1) + r;
      QuotientUnique(k - d, d, q - 1, r);
    }
  }

  lemma QuotientUnique(c: nat, d: nat, q: int, r: nat)
    requires r < d && c == d * q + r
    ensures c / d == q && c % d == r
  {
    var q', r' := c / d, c % d;
    assert c == d * q' + r';
    if q < q' {
      MulMonotone(d, q + 1, q');
    } else if q' < q {
      MulMonotone(d, q' + 1, q);
    }
  }

  lemma MulMonotone(d: nat, a: int, b: int)
    requires a <= b
    ensures d * a <= d * b
  {
  }

  /** Byte k of an overlapping copy repeats with the distance as period. */
  lemma {:induction false} CopyIsPeriodic(out: seq<byte>, length: nat, distance: nat, k: nat)
    requires 1 <= distance <= |out| && k < length
    ensures CopyBytes(out, length, distance)[|out| + k] == out[|out| - distance + k % distance]
    decreases k
  {
    CopyBytesAt(out, length, distance, |out| + k);
    ModStep(k, distance);
    if k >= distance {
      CopyIsPeriodic(out, length, distance, k - distance);
    } else {
      CopyBytesAt(out, length, distance, |out| + k - distance);
    }
  }

  lemma CopiedAt(out: seq<byte>, length: nat, distance: nat, below: nat -> byte, i: nat)
    requires 1 <= distance <= |out| && i < |out| + length
    ensures Copied(out, length, distance, below)[i] == CopyBytes(out, length, distance)[i]
  {
    if i < |out| {
      CopyBytesAt(out, length, distance, i);
    } else {
      CopyIsPeriodic(out, length, distance, i - |out|);
    }
  }

  /** The wrap-around copy is the byte-by-byte copy, for overlapping matches too:
      every copied byte equals the one distance places before it. */
  lemma MatchCopy(out: seq<byte>, length: nat, distance: nat, below: nat -> byte)
    requires 1 <= distance <= |out|
    ensures var r := Copied(out, length, distance, below);
            && r == CopyBytes(out, length, distance)
            && forall i :: |out| <= i < |r| ==> r[i] == r[i - distance]
  {
    hide CopyBytes, Copied;
    var r, s := Copied(out, length, distance, below), CopyBytes(out, length, distance);
    forall i | 0 <= i < |r| ensures r[i] == s[i] {
      CopiedAt(out, length, distance, below, i);
    }
    forall i | |out| <= i < |s| ensures s[i] == s[i - distance] {
      CopyBytesAt(out, length, distance, i);
    }
  }

  // ----- One token, as the inflater reads it

  /** After a token: the output so far and the bit position; or the end code; or an error,
      with the output as it stands then. */
  datatype Step = More(out: seq<byte>, bp: nat) | End(out: seq<byte>, bp: nat) | Fail(out: seq<byte>)

  /** Part of a match from the distance code on; the length is known, bp is behind its extra bits. */
  function DistanceStep(dd: seq<nat>, src: Source, bp: nat, length: nat, out: seq<byte>, outsize: nat,
                        below: nat -> byte)
    : (r: Step)
    requires |dd| == 2 * NUM_DISTANCE_SYMBOLS && src.Padded() && bp <= src.Limit() && |out| <= outsize
    ensures r.More? ==> bp < r.bp <= src.Limit()
    ensures |r.out| <= outsize && !r.End?
  {
    match Decode(dd, NUM_DISTANCE_SYMBOLS, src, bp)
    case Malformed => Fail(out)
    case Symbol(code, b) =>
      if code > 29 || b / 8 >= src.inlength then Fail(out)
      else
        var w := DistanceExtra(code);
        var distance := DistanceBase(code) + ValueAt(src.bits, b, w);
        if |out| + length >= outsize then Fail(out)
        else More(Copied(out, length, distance, below), b + w)
  }

  /** A token whose literal/length code has been read up to b. */
  function SymbolStep(code: nat, dd: seq<nat>, src: Source, b: nat, out: seq<byte>, outsize: nat, below: nat -> byte)
    : (r: Step)
    requires |dd| == 2 * NUM_DISTANCE_SYMBOLS && src.Padded() && b <= src.Limit() && |out| <= outsize
    ensures !r.Fail? ==> b <= r.bp <= src.Limit()
    ensures |r.out| <= outsize
  {
    if code == END_CODE then End(out, b)
    else if code <= 255 then
      if |out| >= outsize then Fail(out) else More(out + [code], b)
    else if FIRST_LENGTH_CODE_INDEX <= code <= LAST_LENGTH_CODE_INDEX then
      if b / 8 >= src.inlength then Fail(out)
      else
        var w := LengthExtra(code - FIRST_LENGTH_CODE_INDEX);
        var length := LengthBase(code - FIRST_LENGTH_CODE_INDEX) + ValueAt(src.bits, b, w);
        DistanceStep(dd, src, b + w, length, out, outsize, below)
    else More(out, b)
  }

  function TokenStep(ll: seq<nat>, dd: seq<nat>, src: Source, bp: nat, out: seq<byte>, outsize: nat, below: nat -> byte)
    : (r: Step)
    requires |ll| == 2 * NUM_DEFLATE_CODE_SYMBOLS && |dd| == 2 * NUM_DISTANCE_SYMBOLS
    requires src.Padded() && bp <= src.Limit() && |out| <= outsize
    ensures !r.Fail? ==> bp < r.bp <= src.Limit()
    ensures |r.out| <= outsize
  {
    match Decode(ll, NUM_DEFLATE_CODE_SYMBOLS, src, bp)
    case Malformed => Fail(out)
    case Symbol(code, b) => SymbolStep(code, dd, src, b, out, outsize, below)
  }

  /** Outcome of a block or a stream: output and bit position after it, or an error and the output until then. */
  datatype Inflated = Inflated(out: seq<byte>, bp: nat) | Failed(out: seq<byte>)

  /** The token loop of a compressed block. */
  function InflateTokens(ll: seq<nat>, dd: seq<nat>, src: Source, bp: nat, out: seq<byte>, outsize: nat,
                         below: nat -> byte)
    : (r: Inflated)
    requires |ll| == 2 * NUM_DEFLATE_CODE_SYMBOLS && |dd| == 2 * NUM_DISTANCE_SYMBOLS
    requires src.Padded() && bp <= src.Limit() && |out| <= outsize
    ensures |r.out| <= outsize
    ensures r.Inflated? ==> bp < r.bp <= src.Limit()
    decreases src.Limit() - bp
  {
    match TokenStep(ll, dd, src, bp, out, outsize, below)
    case Fail(o) => Failed(o)
    case End(o, b) => Inflated(o, b)
    case More(o, b) => InflateTokens(ll, dd, src, b, o, outsize, below)
  }

  // ----- What an encoder writes

  /** A literal, or a match given by its length and distance codes and their extra bits. */
  datatype Token = Literal(b: byte) | Match(lc: nat, le: nat, dc: nat, de: nat)
  {
    predicate Valid() {
      Match? ==> lc < 29 && dc < 30 && le < Pow2(LengthExtra(lc)) && de < Pow2(DistanceExtra(dc))
    }

    function Length(): (n: nat)
      requires Valid()
    {
      if Literal? then 1 else LengthBase(lc) + le
    }

    function Distance(): (n: nat)
      requires Valid() && Match?
      ensures n >= 1
    {
      DistanceBase(dc) + de
    }

    /** The symbol of the literal/length alphabet. */
    function Number(): nat {
      if Literal? then b else FIRST_LENGTH_CODE_INDEX + lc
    }

    /** The token has codes in the two alphabets. */
    predicate HasCodes(lens: seq<nat>, dlens: seq<nat>)
      requires |lens| == NUM_DEFLATE_CODE_SYMBOLS && |dlens| == NUM_DISTANCE_SYMBOLS
    {
      Valid() && lens[Number()] > 0 && (Match? ==> dlens[dc] > 0)
    }

    /** The match does not reach back beyond n bytes of output. */
    predicate Reaches(n: nat)
      requires Valid()
    {
      Match? ==> Distance() <= n
    }

    /** The token fits an output buffer that holds n bytes so far; matches must leave one byte free. */
    predicate Fits(n: nat, outsize: nat)
      requires Valid()
    {
      if Literal? then n < outsize else n + Length() < outsize
    }

    function DistanceBits(dlens: seq<nat>): seq<bit>
      requires |dlens| == NUM_DISTANCE_SYMBOLS && Valid() && Match?
    {
      Code(dlens, dc) + LsbFirst(de, DistanceExtra(dc))
    }

    function Bits(lens: seq<nat>, dlens: seq<nat>): seq<bit>
      requires |lens| == NUM_DEFLATE_CODE_SYMBOLS && |dlens| == NUM_DISTANCE_SYMBOLS && Valid()
    {
      if Literal? then Code(lens, b)
      else Code(lens, FIRST_LENGTH_CODE_INDEX + lc) + LsbFirst(le, LengthExtra(lc)) + DistanceBits(dlens)
    }

    /** The output after the token. */
    function Apply(out: seq<byte>): (r: seq<byte>)
      requires Valid() && Reaches(|out|)
      ensures |r| == |out| + Length()
    {
      if Literal? then out + [b] else CopyBytes(out, Length(), Distance())
    }
  }

  /** Every token can be encoded and no match reaches back beyond the start of the output. */
  predicate TokensEncodable(tokens: seq<Token>, lens: seq<nat>, dlens: seq<nat>, n: nat)
    requires |lens| == NUM_DEFLATE_CODE_SYMBOLS && |dlens| == NUM_DISTANCE_SYMBOLS
    decreases |tokens|
  {
    tokens == [] ||
    (tokens[0].HasCodes(lens, dlens) && tokens[0].Reaches(n)
     && TokensEncodable(tokens[1..], lens, dlens, n + tokens[0].Length()))
  }

  /** The LZ77 expansion of the tokens, appended to out. */
  function Expansion(tokens: seq<Token>, lens: seq<nat>, dlens: seq<nat>, out: seq<byte>): (r: seq<byte>)
    requires |lens| == NUM_DEFLATE_CODE_SYMBOLS && |dlens| == NUM_DISTANCE_SYMBOLS
    requires TokensEncodable(tokens, lens, dlens, |out|)
    ensures |r| >= |out|
    decreases |tokens|
  {
    if tokens == [] then out else Expansion(tokens[1..], lens, dlens, tokens[0].Apply(out))
  }

  /** Every token fits the output buffer when its turn comes. */
  predicate AllFit(tokens: seq<Token>, lens: seq<nat>, dlens: seq<nat>, n: nat, outsize: nat)
    requires |lens| == NUM_DEFLATE_CODE_SYMBOLS && |dlens| == NUM_DISTANCE_SYMBOLS
    requires TokensEncodable(tokens, lens, dlens, n)
    decreases |tokens|
  {
    tokens == [] ||
    (tokens[0].Fits(n, outsize) && AllFit(tokens[1..], lens, dlens, n + tokens[0].Length(), outsize))
  }

  /** Tokens whose expansion leaves a byte free fit, and the expansion of tokens that fit is no larger than the
      buffer. */
  lemma {:induction false} AllFitRoom(tokens: seq<Token>, lens: seq<nat>, dlens: seq<nat>, out: seq<byte>, outsize: nat)
    requires |lens| == NUM_DEFLATE_CODE_SYMBOLS && |dlens| == NUM_DISTANCE_SYMBOLS
    requires TokensEncodable(tokens, lens, dlens, |out|) && |out| <= outsize
    ensures |Expansion(tokens, lens, dlens, out)| < outsize ==> AllFit(tokens, lens, dlens, |out|, outsize)
    ensures AllFit(tokens, lens, dlens, |out|, outsize) ==> |Expansion(tokens, lens, dlens, out)| <= outsize
    decreases |tokens|
  {
    hide CopyBytes;
    if tokens != [] && |out| + tokens[0].Length() <= outsize {
      AllFitRoom(tokens[1..], lens, dlens, tokens[0].Apply(out), outsize);
    }
  }

  /** Data as literals only. */
  function Literals(data: seq<byte>): (tokens: seq<Token>)
    ensures |tokens| == |data| && forall k :: 0 <= k < |data| ==> tokens[k] == Literal(data[k])
  {
    seq(|data|, k requires 0 <= k < |data| => Literal(data[k]))
  }

  /** Literals may fill the buffer to the last byte. */
  lemma {:induction false} LiteralsFit(data: seq<byte>, lens: seq<nat>, dlens: seq<nat>, out: seq<byte>, outsize: nat)
    requires |lens| == NUM_DEFLATE_CODE_SYMBOLS && |dlens| == NUM_DISTANCE_SYMBOLS
    requires (forall b :: 0 <= b < END_CODE ==> lens[b] > 0) && |out| <= outsize
    ensures TokensEncodable(Literals(data), lens, dlens, |out|)
    ensures Expansion(Literals(data), lens, dlens, out) == out + data
    ensures AllFit(Literals(data), lens, dlens, |out|, outsize) <==> |out| + |data| <= outsize
    decreases |data|
  {
    if data == [] {
      assert out + data == out;
    } else {
      var next := out + [data[0]];
      assert Literals(data)[0] == Literal(data[0]) && Literals(data)[1..] == Literals(data[1..]);
      assert out + data == next + data[1..];
      if |out| < outsize {
        LiteralsFit(data[1..], lens, dlens, next, outsize);
      } else {
        LiteralsFit(data[1..], lens, dlens, next, outsize + 1);
      }
    }
  }

  /** The bits of the tokens, ended by the end code. */
  function TokensBits(tokens: seq<Token>, lens: seq<nat>, dlens: seq<nat>, n: nat): seq<bit>
    requires |lens| == NUM_DEFLATE_CODE_SYMBOLS && |dlens| == NUM_DISTANCE_SYMBOLS
    requires TokensEncodable(tokens, lens, dlens, n)
    decreases |tokens|
  {
    if tokens == [] then Code(lens, END_CODE)
    else tokens[0].Bits(lens, dlens) + TokensBits(tokens[1..], lens, dlens, n + tokens[0].Length())
  }

  lemma DistanceRoundTrip(dd: seq<nat>, dlens: seq<nat>, src: Source, bp: nat, out: seq<byte>, outsize: nat,
                          below: nat -> byte, token: Token)
    requires |dlens| == NUM_DISTANCE_SYMBOLS && Serves(dd, dlens) && src.Padded() && |out| <= outsize
    requires token.Valid() && token.Match? && dlens[token.dc] > 0 && token.Reaches(|out|)
    requires BitsAt(src.bits, bp, token.DistanceBits(dlens)) && bp + |token.DistanceBits(dlens)| < 8 * src.inlength
    ensures DistanceStep(dd, src, bp, token.Length(), out, outsize, below)
            == if token.Fits(|out|, outsize) then More(token.Apply(out), bp + |token.DistanceBits(dlens)|)
               else Fail(out)
  {
    hide Code, LsbFirst, BitsAt, Serves, Decode, DistanceBase, DistanceExtra, LengthBase, ValueAt, CopyBytes, Copied;
    var w := DistanceExtra(token.dc);
    BitsAtSplit(src.bits, bp, Code(dlens, token.dc), LsbFirst(token.de, w));
    ServedSymbol(dd, dlens, src, bp, token.dc);
    ValueOfLsbFirst(src.bits, bp + dlens[token.dc], token.de, w);
    MatchCopy(out, token.Length(), token.Distance(), below);
  }

  /** One token decodes to its effect on the output, or to an error if it does not fit. */
  lemma TokenRoundTrip(ll: seq<nat>, dd: seq<nat>, lens: seq<nat>, dlens: seq<nat>, src: Source, bp: nat,
                       out: seq<byte>, outsize: nat, below: nat -> byte, token: Token)
    requires |lens| == NUM_DEFLATE_CODE_SYMBOLS && Serves(ll, lens)
    requires |dlens| == NUM_DISTANCE_SYMBOLS && Serves(dd, dlens) && src.Padded() && |out| <= outsize
    requires token.HasCodes(lens, dlens) && token.Reaches(|out|)
    requires BitsAt(src.bits, bp, token.Bits(lens, dlens)) && bp + |token.Bits(lens, dlens)| < 8 * src.inlength
    ensures TokenStep(ll, dd, src, bp, out, outsize, below)
            == if token.Fits(|out|, outsize) then More(token.Apply(out), bp + |token.Bits(lens, dlens)|) else Fail(out)
  {
    hide Code, LsbFirst, BitsAt, Serves, Decode, DistanceStep, DistanceExtra, DistanceBase, LengthBase, LengthExtra,
         ValueAt, CopyBytes;
    if token.Literal? {
      ServedSymbol(ll, lens, src, bp, token.b);
    } else {
      var n, w := token.Number(), LengthExtra(token.lc);
      var code, extra, rest := Code(lens, n), LsbFirst(token.le, w), token.DistanceBits(dlens);
      BitsAtSplit(src.bits, bp, code + extra, rest);
      BitsAtSplit(src.bits, bp, code, extra);
      ServedSymbol(ll, lens, src, bp, n);
      ValueOfLsbFirst(src.bits, bp + lens[n], token.le, w);
      DistanceRoundTrip(dd, dlens, src, bp + lens[n] + w, out, outsize, below, token);
    }
  }

  /** The definitions above, unfolded at the first token. */
  lemma FirstToken(tokens: seq<Token>, lens: seq<nat>, dlens: seq<nat>, out: seq<byte>, outsize: nat)
    requires |lens| == NUM_DEFLATE_CODE_SYMBOLS && |dlens| == NUM_DISTANCE_SYMBOLS
    requires tokens != [] && TokensEncodable(tokens, lens, dlens, |out|)
    ensures var t, rest := tokens[0], tokens[1..];
            && t.Valid() && t.HasCodes(lens, dlens) && t.Reaches(|out|)
            && TokensEncodable(rest, lens, dlens, |t.Apply(out)|)
            && TokensBits(tokens, lens, dlens, |out|)
               == t.Bits(lens, dlens) + TokensBits(rest, lens, dlens, |t.Apply(out)|)
            && Expansion(tokens, lens, dlens, out) == Expansion(rest, lens, dlens, t.Apply(out))
            && (AllFit(tokens, lens, dlens, |out|, outsize)
                <==> t.Fits(|out|, outsize) && AllFit(rest, lens, dlens, |t.Apply(out)|, outsize))
  {
    hide Code, Token.Bits, Token.Fits, Token.Reaches, CopyBytes;
  }

  lemma FirstStep(ll: seq<nat>, dd: seq<nat>, src: Source, bp: nat, out: seq<byte>, outsize: nat, below: nat -> byte)
    requires |ll| == 2 * NUM_DEFLATE_CODE_SYMBOLS && |dd| == 2 * NUM_DISTANCE_SYMBOLS
    requires src.Padded() && bp <= src.Limit() && |out| <= outsize
    ensures var r := InflateTokens(ll, dd, src, bp, out, outsize, below);
            match TokenStep(ll, dd, src, bp, out, outsize, below)
            case Fail(o) => r == Failed(o)
            case End(o, b) => r == Inflated(o, b)
            case More(o, b) => r == InflateTokens(ll, dd, src, b, o, outsize, below)
  {
    hide TokenStep;
  }

  /** What a compressed block that starts at bp must decode to. */
  ghost predicate DecodesTo(r: Inflated, lens: seq<nat>, dlens: seq<nat>, bp: nat, out: seq<byte>, outsize: nat,
                            tokens: seq<Token>)
    requires |lens| == NUM_DEFLATE_CODE_SYMBOLS && |dlens| == NUM_DISTANCE_SYMBOLS
    requires TokensEncodable(tokens, lens, dlens, |out|)
  {
    if AllFit(tokens, lens, dlens, |out|, outsize) then
      r == Inflated(Expansion(tokens, lens, dlens, out), bp + |TokensBits(tokens, lens, dlens, |out|)|)
    else
      r.Failed?
  }

  lemma DecodesToCons(r: Inflated, lens: seq<nat>, dlens: seq<nat>, bp: nat, out: seq<byte>, outsize: nat,
                      tokens: seq<Token>)
    requires |lens| == NUM_DEFLATE_CODE_SYMBOLS && |dlens| == NUM_DISTANCE_SYMBOLS
    requires tokens != [] && TokensEncodable(tokens, lens, dlens, |out|)
    ensures var t, rest := tokens[0], tokens[1..];
            && t.Valid() && t.HasCodes(lens, dlens) && t.Reaches(|out|)
            && TokensEncodable(rest, lens, dlens, |t.Apply(out)|)
            && (t.Fits(|out|, outsize)
                && DecodesTo(r, lens, dlens, bp + |t.Bits(lens, dlens)|, t.Apply(out), outsize, rest)
                ==> DecodesTo(r, lens, dlens, bp, out, outsize, tokens))
            && (!t.Fits(|out|, outsize) && r.Failed? ==> DecodesTo(r, lens, dlens, bp, out, outsize, tokens))
  {
    hide Code, Token.Bits, Token.Fits, Token.Reaches, CopyBytes;
    FirstToken(tokens, lens, dlens, out, outsize);
  }

  lemma NoTokens(ll: seq<nat>, dd: seq<nat>, lens: seq<nat>, dlens: seq<nat>, src: Source, bp: nat,
                 out: seq<byte>, outsize: nat, below: nat -> byte)
    requires |lens| == NUM_DEFLATE_CODE_SYMBOLS && Serves(ll, lens) && lens[END_CODE] > 0
    requires |dlens| == NUM_DISTANCE_SYMBOLS && |ll| == 2 * |lens| && |dd| == 2 * |dlens|
    requires src.Padded() && |out| <= outsize
    requires BitsAt(src.bits, bp, TokensBits([], lens, dlens, |out|))
    requires bp + |TokensBits([], lens, dlens, |out|)| <= 8 * src.inlength
    ensures DecodesTo(InflateTokens(ll, dd, src, bp, out, outsize, below), lens, dlens, bp, out, outsize, [])
  {
    hide Code, BitsAt, Serves, TokenStep, InflateTokens;
    FirstStep(ll, dd, src, bp, out, outsize, below);
    EndRoundTrip(ll, dd, lens, src, bp, out, outsize, below);
  }

  /** A compressed block decodes to the LZ77 expansion of its tokens and stops just after the end code,
      exactly when every token fits the output buffer. */
  lemma {:induction false} TokensRoundTrip(ll: seq<nat>, dd: seq<nat>, lens: seq<nat>, dlens: seq<nat>, src: Source,
                                           bp: nat, out: seq<byte>, outsize: nat, below: nat -> byte,
                                           tokens: seq<Token>)
    requires |lens| == NUM_DEFLATE_CODE_SYMBOLS && Serves(ll, lens) && lens[END_CODE] > 0
    requires |dlens| == NUM_DISTANCE_SYMBOLS && Serves(dd, dlens)
    requires |ll| == 2 * |lens| && |dd| == 2 * |dlens|
    requires src.Padded() && |out| <= outsize && TokensEncodable(tokens, lens, dlens, |out|)
    requires BitsAt(src.bits, bp, TokensBits(tokens, lens, dlens, |out|))
    requires bp + |TokensBits(tokens, lens, dlens, |out|)| <= 8 * src.inlength
    ensures bp <= src.Limit()
    ensures DecodesTo(InflateTokens(ll, dd, src, bp, out, outsize, below), lens, dlens, bp, out, outsize, tokens)
    decreases |tokens|
  {
    hide *;
    src.InsideLimit(bp);
    if tokens == [] {
      NoTokens(ll, dd, lens, dlens, src, bp, out, outsize, below);
    } else {
      FirstStep(ll, dd, src, bp, out, outsize, below);
      FirstToken(tokens, lens, dlens, out, outsize);
      DecodesToCons(InflateTokens(ll, dd, src, bp, out, outsize, below), lens, dlens, bp, out, outsize, tokens);
      var token, rest := tokens[0], tokens[1..];
      var head := token.Bits(lens, dlens);
      var tail := TokensBits(rest, lens, dlens, |token.Apply(out)|);
      BitsAtSplit(src.bits, bp, head, tail);
      SomeBitsFollow(rest, lens, dlens, |token.Apply(out)|);
      TokenRoundTrip(ll, dd, lens, dlens, src, bp, out, outsize, below, token);
      if token.Fits(|out|, outsize) {
        TokensRoundTrip(ll, dd, lens, dlens, src, bp + |head|, token.Apply(out), outsize, below, rest);
      }
    }
  }

  lemma EndRoundTrip(ll: seq<nat>, dd: seq<nat>, lens: seq<nat>, src: Source, bp: nat, out: seq<byte>, outsize: nat,
                     below: nat -> byte)
    requires |lens| == NUM_DEFLATE_CODE_SYMBOLS && Serves(ll, lens) && lens[END_CODE] > 0
    requires |dd| == 2 * NUM_DISTANCE_SYMBOLS && src.Padded() && |out| <= outsize
    requires BitsAt(src.bits, bp, Code(lens, END_CODE)) && bp + lens[END_CODE] <= 8 * src.inlength
    ensures TokenStep(ll, dd, src, bp, out, outsize, below) == End(out, bp + lens[END_CODE])
  {
    hide Code, BitsAt, Serves, Decode;
    ServedSymbol(ll, lens, src, bp, END_CODE);
  }

  lemma {:induction false} SomeBitsFollow(tokens: seq<Token>, lens: seq<nat>, dlens: seq<nat>, n: nat)
    requires |lens| == NUM_DEFLATE_CODE_SYMBOLS && |dlens| == NUM_DISTANCE_SYMBOLS && lens[END_CODE] > 0
    requires TokensEncodable(tokens, lens, dlens, n)
    ensures |TokensBits(tokens, lens, dlens, n)| > 0
    decreases |tokens|
  {
    hide Code;
    if tokens != [] {
      SomeBitsFollow(tokens[1..], lens, dlens, n + tokens[0].Length());
    }
  }

  // ----- Every length and distance has codes

  /** The length code for a match length. */
  function LengthCode(n: nat): nat
    requires 3 <= n <= 258
  {
    if n == 258 then 28
    else if n < 11 then n - 3
    else if n < 19 then 8 + (n - 11) / 2
    else if n < 35 then 12 + (n - 19) / 4
    else if n < 67 then 16 + (n - 35) / 8
    else if n < 131 then 20 + (n - 67) / 16
    else 24 + (n - 131) / 32
  }

  /** Number of extra bits of the distance code for distance d. */
  function DistanceWidth(d: nat): (w: nat)
    requires 1 <= d <= 32768
    ensures w <= 13 && (d > 2 ==> 2 * Pow2(w) < d <= 4 * Pow2(w))
  {
    assert Pow2(13) == 8192;
    SearchWidth(d, 13)
  }

  function SearchWidth(d: nat, w: nat): (r: nat)
    requires 1 <= d <= 4 * Pow2(w)
    ensures r <= w && (d > 2 ==> 2 * Pow2(r) < d <= 4 * Pow2(r))
  {
    if w == 0 || 2 * Pow2(w) < d then w else SearchWidth(d, w - 1)
  }

  function DistanceCode(d: nat): nat
    requires 1 <= d <= 32768
  {
    var w := DistanceWidth(d);
    if d <= 2 then d - 1 else if d <= 3 * Pow2(w) then 2 * w + 2 else 2 * w + 3
  }

  lemma Powers()
    ensures Pow2(0) == 1 && Pow2(1) == 2 && Pow2(2) == 4 && Pow2(3) == 8 && Pow2(4) == 16 && Pow2(5) == 32
    ensures Pow2(6) == 64
    ensures Pow2(7) == 128 && Pow2(8) == 256 && Pow2(9) == 512 && Pow2(10) == 1024 && Pow2(11) == 2048
    ensures Pow2(12) == 4096 && Pow2(13) == 8192
  {
  }

  /** The distance codes with w extra bits start behind 2 * 2^w and 3 * 2^w. */
  lemma DistanceRanges(w: nat)
    requires w <= 13
    ensures DistanceBase(2 * w + 2) == 2 * Pow2(w) + 1 && DistanceBase(2 * w + 3) == 3 * Pow2(w) + 1
    ensures DistanceExtra(2 * w + 2) == DistanceExtra(2 * w + 3) == w
  {
    TableEntries();
    Powers();
    hide DISTANCE_BASE, DISTANCE_EXTRA, Pow2;
    match w
    case 0 => case 1 => case 2 => case 3 => case 4 => case 5 => case 6 =>
    case 7 => case 8 => case 9 => case 10 => case 11 => case 12 => case 13 =>
  }

  lemma TableEntries()
    ensures |DISTANCE_BASE| == |DISTANCE_EXTRA| == 30
    ensures DISTANCE_BASE[0] == 1 && DISTANCE_BASE[1] == 2 && DISTANCE_EXTRA[0] == DISTANCE_EXTRA[1] == 0
    ensures DISTANCE_BASE[2] == 3 && DISTANCE_BASE[4] == 5 && DISTANCE_BASE[6] == 9 && DISTANCE_BASE[8] == 17
    ensures DISTANCE_BASE[10] == 33 && DISTANCE_BASE[12] == 65 && DISTANCE_BASE[14] == 129 && DISTANCE_BASE[16] == 257
    ensures DISTANCE_BASE[18] == 513 && DISTANCE_BASE[20] == 1025 && DISTANCE_BASE[22] == 2049
    ensures DISTANCE_BASE[24] == 4097 && DISTANCE_BASE[26] == 8193 && DISTANCE_BASE[28] == 16385
    ensures DISTANCE_BASE[3] == 4 && DISTANCE_BASE[5] == 7 && DISTANCE_BASE[7] == 13 && DISTANCE_BASE[9] == 25
    ensures DISTANCE_BASE[11] == 49 && DISTANCE_BASE[13] == 97 && DISTANCE_BASE[15] == 193 && DISTANCE_BASE[17] == 385
    ensures DISTANCE_BASE[19] == 769 && DISTANCE_BASE[21] == 1537 && DISTANCE_BASE[23] == 3073
    ensures DISTANCE_BASE[25] == 6145 && DISTANCE_BASE[27] == 12289 && DISTANCE_BASE[29] == 24577
    ensures forall k :: 2 <= k < 30 ==> DISTANCE_EXTRA[k] == (k - 2) / 2
  {
  }

  lemma LengthHasCode(n: nat)
    requires 3 <= n <= 258
    ensures var lc := LengthCode(n);
            lc < 29 && LengthBase(lc) <= n && n - LengthBase(lc) < Pow2(LengthExtra(lc))
  {
    Powers();
    hide Pow2;
  }

  lemma DistanceHasCode(d: nat)
    requires 1 <= d <= 32768
    ensures var dc := DistanceCode(d);
            dc < 30 && DistanceBase(dc) <= d && d - DistanceBase(dc) < Pow2(DistanceExtra(dc))
  {
    hide DISTANCE_BASE, DISTANCE_EXTRA, DistanceWidth, SearchWidth;
    TableEntries();
    if d > 2 {
      DistanceRanges(DistanceWidth(d));
    }
  }

  /** Every match length 3..258 and distance 1..32768 can be written as a valid token. */
  lemma EveryMatchHasCodes(n: nat, d: nat)
    requires 3 <= n <= 258 && 1 <= d <= 32768
    ensures exists t: Token :: t.Valid() && t.Match? && t.Length() == n && t.Distance() == d
  {
    hide LengthCode, DistanceCode, LengthBase, DistanceBase, LengthExtra, DistanceExtra, Pow2;
    LengthHasCode(n);
    DistanceHasCode(d);
    var lc, dc := LengthCode(n), DistanceCode(d);
    var t := Match(lc, n - LengthBase(lc), dc, d - DistanceBase(dc));
    assert t.Valid() && t.Length() == n && t.Distance() == d;
  }

  // ----- The tables of section 3.2.5 of RFC 1951

  /** The first eight length codes stand for 3 to 10; from then on four codes share a number of extra bits. */
  function FirstLength(i: nat): (n: nat)
    ensures n >= 3
  {
    if i < 8 then 3 + i else 3 + (4 + i % 4) * Pow2(i / 4 - 1)
  }

  function WidthOfLength(i: nat): (w: nat)
    requires i < 28
    ensures w <= 5
  {
    if i < 8 then 0 else i / 4 - 1
  }

  /** The first four distance codes stand for 1 to 4; from then on two codes share a number of extra bits. */
  function FirstDistance(i: nat): (n: nat)
    ensures n >= 1
  {
    if i < 4 then 1 + i else 1 + (2 + i % 2) * Pow2(i / 2 - 1)
  }

  function WidthOfDistance(i: nat): (w: nat)
    requires i < 30
    ensures w <= 13
  {
    if i < 4 then 0 else i / 2 - 1
  }

  lemma LengthEntries()
    ensures |LENGTH_BASE| == |LENGTH_EXTRA| == 29
    ensures forall k :: 0 <= k < 8 ==> LENGTH_BASE[k] == 3 + k
    ensures LENGTH_BASE[8] == 11 && LENGTH_BASE[9] == 13 && LENGTH_BASE[10] == 15 && LENGTH_BASE[11] == 17
    ensures LENGTH_BASE[12] == 19 && LENGTH_BASE[13] == 23 && LENGTH_BASE[14] == 27 && LENGTH_BASE[15] == 31
    ensures LENGTH_BASE[16] == 35 && LENGTH_BASE[17] == 43 && LENGTH_BASE[18] == 51 && LENGTH_BASE[19] == 59
    ensures LENGTH_BASE[20] == 67 && LENGTH_BASE[21] == 83 && LENGTH_BASE[22] == 99 && LENGTH_BASE[23] == 115
    ensures LENGTH_BASE[24] == 131 && LENGTH_BASE[25] == 163 && LENGTH_BASE[26] == 195 && LENGTH_BASE[27] == 227
    ensures LENGTH_BASE[28] == 258 && LENGTH_EXTRA[28] == 0
    ensures forall k :: 0 <= k < 28 ==> LENGTH_EXTRA[k] == if k < 8 then 0 else k / 4 - 1
  {
  }

  /** The length table; each code begins where the one before it ends, but for the last one, which means 258. */
  lemma LengthTable(i: nat)
    requires i < 29
    ensures if i < 28 then LengthBase(i) == FirstLength(i) && LengthExtra(i) == WidthOfLength(i)
            else LengthBase(i) == 258 && LengthExtra(i) == 0
    ensures i < 27 ==> FirstLength(i) + Pow2(WidthOfLength(i)) == FirstLength(i + 1)
  {
    hide LENGTH_BASE, LENGTH_EXTRA, Pow2;
    LengthEntries();
    Powers();
    if i > 7 { PowerStep(i / 4 - 1); }
  }

  lemma FourDistances(i: nat)
    requires i < 4
    ensures DistanceBase(i) == 1 + i && DistanceExtra(i) == 0
  {
    hide DISTANCE_BASE, DISTANCE_EXTRA;
    TableEntries();
  }

  /** The distance table; each code begins where the one before it ends. */
  lemma DistanceTable(i: nat)
    requires i < 30
    ensures DistanceBase(i) == FirstDistance(i) && DistanceExtra(i) == WidthOfDistance(i)
    ensures i < 29 ==> FirstDistance(i) + Pow2(WidthOfDistance(i)) == FirstDistance(i + 1)
  {
    hide DISTANCE_BASE, DISTANCE_EXTRA, DistanceBase, DistanceExtra, Pow2;
    Powers();
    if i > 3 {
      var w := i / 2 - 1;
      DistanceRanges(w);
      PowerStep(w);
      assert i == if i % 2 == 0 then 2 * w + 2 else 2 * w + 3;
    } else {
      FourDistances(i);
    }
  }

  lemma PowerStep(n: nat)
    ensures Pow2(n + 1) == 2 * Pow2(n)
  {
  }

  lemma {:induction false} LengthsAscend(i: nat, j: nat)
    requires i < j < 28
    ensures LengthBase(i) + Pow2(LengthExtra(i)) <= LengthBase(j)
    decreases j
  {
    hide LengthBase, LengthExtra, Pow2;
    LengthTable(j - 1);
    LengthTable(j);
    if i + 1 < j { LengthsAscend(i, j - 1); }
  }

  lemma {:induction false} DistancesAscend(i: nat, j: nat)
    requires i < j < 30
    ensures DistanceBase(i) + Pow2(DistanceExtra(i)) <= DistanceBase(j)
    decreases j
  {
    hide DistanceBase, DistanceExtra, Pow2;
    DistanceTable(j - 1);
    DistanceTable(j);
    if i + 1 < j { DistancesAscend(i, j - 1); }
  }

  /** A match of given length and distance is written in exactly one way, but for length 258, which the code before the
      last one with all extra bits set means as well. Valid tokens mean lengths 3 to 258 and distances 1 to 32768. */
  lemma OneTokenForMatch(t: Token, u: Token)
    requires t.Match? && u.Match? && t.Valid() && u.Valid()
    ensures 3 <= t.Length() <= 258 && 1 <= t.Distance() <= 32768
    ensures t.Distance() == u.Distance() <==> t.dc == u.dc && t.de == u.de
    ensures t.Length() == u.Length() <==> (t.lc == u.lc && t.le == u.le) || (Is258(t) && Is258(u))
    ensures Is258(t) <==> t.Length() == 258
  {
    hide LengthBase, LengthExtra, DistanceBase, DistanceExtra, Pow2;
    LengthRange(t.lc);
    LengthRange(u.lc);
    if t.lc < u.lc < 28 { LengthsAscend(t.lc, u.lc); }
    if u.lc < t.lc < 28 { LengthsAscend(u.lc, t.lc); }
    DistanceRange(t.dc);
    if t.dc < u.dc { DistancesAscend(t.dc, u.dc); }
    if u.dc < t.dc { DistancesAscend(u.dc, t.dc); }
  }

  predicate Is258(t: Token)
    requires t.Match?
  {
    (t.lc == 28 && t.le == 0) || (t.lc == 27 && t.le == 31)
  }

  lemma LengthRange(i: nat)
    requires i < 29
    ensures i < 27 ==> 3 <= LengthBase(i) && LengthBase(i) + Pow2(LengthExtra(i)) <= 227
    ensures i == 27 ==> LengthBase(i) == 227 && Pow2(LengthExtra(i)) == 32
    ensures i == 28 ==> LengthBase(i) == 258 && Pow2(LengthExtra(i)) == 1
  {
    hide LengthBase, LengthExtra, Pow2;
    Powers();
    LengthTable(i);
    LengthTable(27);
    if i < 27 { LengthsAscend(i, 27); }
  }

  lemma DistanceRange(i: nat)
    requires i < 30
    ensures 1 <= DistanceBase(i) && DistanceBase(i) + Pow2(DistanceExtra(i)) <= 32769
  {
    hide DistanceBase, DistanceExtra, Pow2;
    Powers();
    DistanceTable(i);
    DistanceTable(29);
    if i < 29 { DistancesAscend(i, 29); }
  }

  /** What each symbol of the literal/length alphabet means: a byte; the end; a length of so many extra bits, if these
      begin inside the input; and the two symbols that never occur are passed over. */
  lemma SymbolMeans(code: nat, dd: seq<nat>, src: Source, b: nat, out: seq<byte>, outsize: nat, below: nat -> byte)
    requires |dd| == 64 && src.Padded() && b <= src.Limit() && |out| <= outsize && code < 288
    ensures var r := SymbolStep(code, dd, src, b, out, outsize, below);
            && (code < 256 ==> r == if |out| < outsize then More(out + [code], b) else Fail(out))
            && (code == 256 ==> r == End(out, b))
            && (257 <= code <= 285 && b >= 8 * src.inlength ==> r == Fail(out))
            && (code == 285 && b < 8 * src.inlength ==> r == DistanceStep(dd, src, b, 258, out, outsize, below))
            && (code >= 286 ==> r == More(out, b))
    ensures 257 <= code < 285 && b < 8 * src.inlength ==>
              var w := WidthOfLength(code - 257);
              var length := FirstLength(code - 257) + ValueAt(src.bits, b, w);
              SymbolStep(code, dd, src, b, out, outsize, below)
              == DistanceStep(dd, src, b + w, length, out, outsize, below)
  {
    hide LengthBase, LengthExtra, FirstLength, WidthOfLength, DistanceStep, Pow2;
    if 257 <= code <= 285 {
      LengthTable(code - 257);
      NoBits(src.bits, b);
    }
  }

  lemma NoBits(bits: seq<bit>, b: nat)
    requires b <= |bits|
    ensures ValueAt(bits, b, 0) == 0
  {
  }

  /** What a decoded distance symbol means: codes 30 and 31 are errors, and so is a match that would fill the buffer to
      its last byte. */
  lemma DistanceMeans(dd: seq<nat>, src: Source, bp: nat, length: nat, out: seq<byte>, outsize: nat,
                      below: nat -> byte, code: nat, b: nat)
    requires |dd| == 64 && src.Padded() && bp <= src.Limit() && |out| <= outsize
    requires Decode(dd, 32, src, bp) == Symbol(code, b)
    ensures code >= 30 || b >= 8 * src.inlength || |out| + length >= outsize ==>
              DistanceStep(dd, src, bp, length, out, outsize, below) == Fail(out)
    ensures code < 30 && b < 8 * src.inlength && |out| + length < outsize ==>
              var w := WidthOfDistance(code);
              var distance := FirstDistance(code) + ValueAt(src.bits, b, w);
              DistanceStep(dd, src, bp, length, out, outsize, below)
              == More(Copied(out, length, distance, below), b + w)
  {
    hide DistanceBase, DistanceExtra, FirstDistance, WidthOfDistance, Decode, Copied, Pow2;
    if code < 30 { DistanceTable(code); }
  }
}
