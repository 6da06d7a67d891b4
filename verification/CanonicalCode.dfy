/** Canonical Huffman codes: the code numbers the decoder assigns, the ones section 3.2.2 of
    RFC 1951 prescribes, and why the latter are prefix-free whenever the lengths satisfy the
    Kraft inequality. Symbols with length 0 have no code. */
module CanonicalCode {
  import opened Bits

  const MAX_BIT_LENGTH := 15

  /** How many symbols have code length b. */
  function Count(lens: seq<nat>, b: nat): (c: nat)
    ensures c <= |lens|
  {
    if lens == [] then 0
    else Count(lens[..|lens| - 1], b) + (if lens[|lens| - 1] == b then 1 else 0)
  }

  /** First code of length b as the decoder computes it; blcount[0] counts the unused symbols. */
  function SourceFirst(lens: seq<nat>, b: nat): nat {
    if b == 0 then 0 else 2 * (SourceFirst(lens, b - 1) + Count(lens, b - 1))
  }

  /** Symbols of length b that take part in the code: none for b == 0. */
  function Used(lens: seq<nat>, b: nat): nat {
    if b == 0 then 0 else Count(lens, b)
  }

  /** First code of length b as in section 3.2.2 of RFC 1951, where bl_count[0] is 0. */
  function First(lens: seq<nat>, b: nat): nat {
    if b == 0 then 0 else 2 * (First(lens, b - 1) + Used(lens, b - 1))
  }

  /** Codes of one length are handed out in symbol order. */
  function Rank(lens: seq<nat>, n: nat): nat
    requires n < |lens|
  {
    Count(lens[..n], lens[n])
  }

  function SourceCode(lens: seq<nat>, n: nat): nat
    requires n < |lens|
  {
    SourceFirst(lens, lens[n]) + Rank(lens, n)
  }

  function CodeNumber(lens: seq<nat>, n: nat): nat
    requires n < |lens|
  {
    First(lens, lens[n]) + Rank(lens, n)
  }

  /** The code of symbol n, most significant bit first. */
  function Code(lens: seq<nat>, n: nat): (code: seq<bit>)
    requires n < |lens|
    ensures |code| == lens[n]
  {
    MsbFirst(CodeNumber(lens, n), lens[n])
  }

  // ----- The decoder's codes are the standard ones modulo 2^length

  lemma {:induction false} FirstDiffersByUnused(lens: seq<nat>, b: nat)
    requires b > 0
    ensures SourceFirst(lens, b) == First(lens, b) + Shl(Count(lens, 0), b)
  {
    hide Count;
    if b > 1 {
      FirstDiffersByUnused(lens, b - 1);
    } else {
      assert First(lens, 0) == 0 && SourceFirst(lens, 0) == 0;
    }
  }

  /** Not zeroing blcount[0] is harmless: the bits taken from the number are those of the standard code. */
  lemma SourceCodeBits(lens: seq<nat>, n: nat)
    requires n < |lens| && lens[n] > 0
    ensures SourceCode(lens, n) == CodeNumber(lens, n) + Shl(Count(lens, 0), lens[n])
    ensures MsbFirst(SourceCode(lens, n), lens[n]) == Code(lens, n)
  {
    hide Count, Shl, MsbFirst, SourceFirst, First;
    FirstDiffersByUnused(lens, lens[n]);
    MsbFirstModulo(CodeNumber(lens, n), lens[n], Count(lens, 0));
  }

  /** The decoder's 32-bit counters do not wrap on the alphabets it uses. */
  lemma {:induction false} SourceFirstBound(lens: seq<nat>, b: nat)
    ensures SourceFirst(lens, b) + 2 * |lens| <= 2 * (Pow2(b) * |lens|)
  {
    if b > 0 {
      SourceFirstBound(lens, b - 1);
      assert Pow2(b) * |lens| == 2 * (Pow2(b - 1) * |lens|);
    }
  }

  lemma NoWrap(lens: seq<nat>, b: nat, r: nat)
    requires |lens| <= 288 && b <= MAX_BIT_LENGTH && r <= |lens|
    ensures SourceFirst(lens, b) + r < 0x1_0000_0000
  {
    SourceFirstBound(lens, b);
    Pow2Monotone(b, 15);
    assert Pow2(15) == 32768;
    MulBound(Pow2(b), 32768, |lens|, 288);
  }

  lemma MulBound(a: nat, b: nat, x: nat, y: nat)
    requires a <= b && x <= y
    ensures a * x <= b * y
  {
    assert a * x <= b * x;
    assert b * x <= b * y;
  }

  // ----- Kraft's inequality

  /** Share of the code space, in units of 2^-b, taken by the codes of length at most b. */
  function KraftSum(lens: seq<nat>, b: nat): nat {
    if lens == [] then 0
    else
      var len := lens[|lens| - 1];
      KraftSum(lens[..|lens| - 1], b) + (if 0 < len <= b then Pow2(b - len) else 0)
  }

  /** Code lengths a prefix code can have: at most maxLen, Kraft sum at most 1. */
  predicate Feasible(lens: seq<nat>, maxLen: nat) {
    && (forall n :: 0 <= n < |lens| ==> lens[n] <= maxLen)
    && KraftSum(lens, maxLen) <= Pow2(maxLen)
  }

  /** Lengths whose codes use up the whole code space. */
  predicate Complete(lens: seq<nat>, maxLen: nat) {
    && (forall n :: 0 <= n < |lens| ==> lens[n] <= maxLen)
    && KraftSum(lens, maxLen) == Pow2(maxLen)
  }

  /** One past the last code of length b. */
  function End(lens: seq<nat>, b: nat): nat {
    First(lens, b) + Used(lens, b)
  }

  lemma {:induction false} KraftDoubles(lens: seq<nat>, b: nat)
    ensures KraftSum(lens, b + 1) == 2 * KraftSum(lens, b) + Count(lens, b + 1)
  {
    if lens != [] {
      KraftDoubles(lens[..|lens| - 1], b);
    }
  }

  lemma KraftZero(lens: seq<nat>)
    ensures KraftSum(lens, 0) == 0
  {
  }

  lemma {:induction false} EndIsKraft(lens: seq<nat>, b: nat)
    ensures End(lens, b) == KraftSum(lens, b)
  {
    if b == 0 {
      KraftZero(lens);
    } else {
      EndIsKraft(lens, b - 1);
      KraftDoubles(lens, b - 1);
    }
  }

  /** At every length the codes fit: there are Pow2(b) - End(b) >= 0 strings of length b left for longer codes. */
  lemma {:induction false} EndFits(lens: seq<nat>, maxLen: nat, b: nat)
    requires Feasible(lens, maxLen) && b <= maxLen
    ensures End(lens, b) <= Pow2(b)
    decreases maxLen - b
  {
    if b == maxLen {
      EndIsKraft(lens, b);
    } else {
      EndFits(lens, maxLen, b + 1);
    }
  }

  // ----- The inequality holds of any prefix-free code

  /** No string of the list is a prefix of another one. */
  ghost predicate Incomparable(codes: seq<seq<bit>>) {
    codes == []
    || (Incomparable(codes[1..]) && forall c :: c in codes[1..] ==> !(codes[0] <= c) && !(c <= codes[0]))
  }

  /** Share of the code space, in units of 2^-d, taken by strings of at most d bits. */
  function Weight(codes: seq<seq<bit>>, d: nat): nat {
    if codes == [] then 0
    else (if |codes[0]| <= d then Pow2(d - |codes[0]|) else 0) + Weight(codes[1..], d)
  }

  /** What follows a first bit b. */
  function Tails(codes: seq<seq<bit>>, b: bit): seq<seq<bit>> {
    if codes == [] then []
    else (if codes[0] != [] && codes[0][0] == b then [codes[0][1..]] else []) + Tails(codes[1..], b)
  }

  lemma {:induction false} TailsFrom(codes: seq<seq<bit>>, b: bit)
    ensures forall x :: x in Tails(codes, b) ==> [b] + x in codes
  {
    if codes != [] {
      TailsFrom(codes[1..], b);
      if codes[0] != [] { assert codes[0] == [codes[0][0]] + codes[0][1..]; }
    }
  }

  lemma {:induction false} TailsIncomparable(codes: seq<seq<bit>>, b: bit)
    requires Incomparable(codes)
    ensures Incomparable(Tails(codes, b))
  {
    if codes != [] {
      var first, rest := codes[0], Tails(codes[1..], b);
      TailsIncomparable(codes[1..], b);
      TailsFrom(codes[1..], b);
      if first != [] && first[0] == b {
        var x := first[1..];
        assert first == [b] + x;
        forall y | y in rest ensures !(x <= y) && !(y <= x) {
          PrefixWithFirst(b, x, y);
          PrefixWithFirst(b, y, x);
        }
        assert ([x] + rest)[1..] == rest;
      } else {
        assert [] + rest == rest;
      }
    }
  }

  lemma PrefixWithFirst(b: bit, x: seq<bit>, y: seq<bit>)
    ensures x <= y <==> [b] + x <= [b] + y
  {
    if x <= y { assert y == x + y[|x|..]; assert [b] + y == ([b] + x) + y[|x|..]; }
    if [b] + x <= [b] + y { assert ([b] + x)[1..] == x && ([b] + y)[1..] == y; }
  }

  lemma TailsWeight(codes: seq<seq<bit>>, b: bit, d: nat)
    requires d > 0 && codes != [] && codes[0] != []
    ensures Weight(Tails(codes, b), d - 1)
            == (if codes[0][0] == b && |codes[0]| <= d then Pow2(d - |codes[0]|) else 0)
               + Weight(Tails(codes[1..], b), d - 1)
  {
    hide Pow2;
    var x, rest := codes[0][1..], Tails(codes[1..], b);
    if codes[0][0] == b {
      assert ([x] + rest)[1..] == rest;
    } else {
      assert [] + rest == rest;
    }
  }

  lemma {:induction false} WeightSplits(codes: seq<seq<bit>>, d: nat)
    requires d > 0 && forall c :: c in codes ==> c != []
    ensures Weight(codes, d) == Weight(Tails(codes, 0), d - 1) + Weight(Tails(codes, 1), d - 1)
  {
    if codes == [] {
      assert Weight(Tails([], 0), d - 1) == Weight(Tails([], 1), d - 1) == 0;
    } else {
      hide Pow2, Tails;
      assert codes[0] in codes && forall x :: x in codes[1..] ==> x in codes;
      WeightSplits(codes[1..], d);
      TailsWeight(codes, 0, d);
      TailsWeight(codes, 1, d);
    }
  }

  /** Kraft's inequality. */
  lemma {:induction false} KraftBound(codes: seq<seq<bit>>, d: nat)
    requires Incomparable(codes)
    ensures Weight(codes, d) <= Pow2(d)
    decreases d
  {
    if |codes| == 1 {
      assert codes[1..] == [];
      if |codes[0]| <= d { Pow2Monotone(d - |codes[0]|, d); }
    } else if |codes| > 1 {
      NoneEmpty(codes);
      if d == 0 {
        NoWeight(codes);
      } else {
        WeightSplits(codes, d);
        TailsIncomparable(codes, 0);
        TailsIncomparable(codes, 1);
        KraftBound(Tails(codes, 0), d - 1);
        KraftBound(Tails(codes, 1), d - 1);
      }
    }
  }

  lemma NoneEmpty(codes: seq<seq<bit>>)
    requires Incomparable(codes) && |codes| > 1
    ensures forall c :: c in codes ==> c != []
  {
    assert codes[1] in codes[1..];
    forall c | c in codes[1..] ensures c != [] { assert !(c <= codes[0]); }
    assert !(codes[0] <= codes[1]) && codes == [codes[0]] + codes[1..];
  }

  lemma {:induction false} NoWeight(codes: seq<seq<bit>>)
    requires forall c :: c in codes ==> c != []
    ensures Weight(codes, 0) == 0
  {
    if codes != [] {
      assert codes[0] in codes && forall x :: x in codes[1..] ==> x in codes;
      NoWeight(codes[1..]);
    }
  }

  /** The strings of the used symbols, the last symbol first. */
  function Chosen(paths: seq<seq<bit>>): seq<seq<bit>> {
    if paths == [] then []
    else
      var last := paths[|paths| - 1];
      (if last == [] then [] else [last]) + Chosen(paths[..|paths| - 1])
  }

  /** Strings with these lengths, one for each symbol. */
  predicate HasLengths(paths: seq<seq<bit>>, lens: seq<nat>) {
    |paths| == |lens| && forall n :: 0 <= n < |lens| ==> |paths[n]| == lens[n]
  }

  lemma {:induction false} ChosenWeight(paths: seq<seq<bit>>, lens: seq<nat>, b: nat)
    requires HasLengths(paths, lens)
    ensures Weight(Chosen(paths), b) == KraftSum(lens, b)
  {
    if paths != [] {
      var k := |paths| - 1;
      ChosenWeight(paths[..k], lens[..k], b);
      if paths[k] != [] { assert ([paths[k]] + Chosen(paths[..k]))[1..] == Chosen(paths[..k]); }
      else { assert [] + Chosen(paths[..k]) == Chosen(paths[..k]); }
    }
  }

  /** No used symbol's string is a prefix of another one's. */
  ghost predicate Apart(paths: seq<seq<bit>>) {
    forall i, j :: 0 <= i < |paths| && 0 <= j < |paths| && i != j && paths[i] != [] ==> !(paths[i] <= paths[j])
  }

  lemma {:induction false} ChosenIncomparable(paths: seq<seq<bit>>)
    requires Apart(paths)
    ensures Incomparable(Chosen(paths))
    ensures forall c :: c in Chosen(paths) ==> c in paths && c != []
  {
    if paths != [] {
      var k := |paths| - 1;
      var last, rest := paths[k], Chosen(paths[..k]);
      ChosenIncomparable(paths[..k]);
      forall c | c in rest ensures !(c <= last) && (last != [] ==> !(last <= c)) {
        var i :| 0 <= i < k && paths[..k][i] == c;
        assert paths[i] == c;
      }
      if last != [] { assert ([last] + rest)[1..] == rest; } else { assert [] + rest == rest; }
    }
  }

  // ----- Prefix freedom

  lemma {:induction false} RankBelow(lens: seq<nat>, i: nat, j: nat, b: nat)
    requires i < j <= |lens| && lens[i] == b
    ensures Count(lens[..i], b) < Count(lens[..j], b)
  {
    assert lens[..j][..j - 1] == lens[..j - 1];
    if i + 1 == j {
    } else {
      RankBelow(lens, i, j - 1, b);
    }
  }

  lemma CodeInRange(lens: seq<nat>, maxLen: nat, n: nat)
    requires Feasible(lens, maxLen) && n < |lens| && lens[n] > 0
    ensures First(lens, lens[n]) <= CodeNumber(lens, n) < End(lens, lens[n]) <= Pow2(lens[n])
  {
    RankBelow(lens, n, |lens|, lens[n]);
    assert lens[..|lens|] == lens;
    EndFits(lens, maxLen, lens[n]);
  }

  /** The first a bits of a code longer than a lie beyond all codes of length a. */
  lemma {:induction false} PrefixBeyond(lens: seq<nat>, c: nat, a: nat, b: nat)
    requires a < b && First(lens, b) <= c < Pow2(b)
    ensures End(lens, a) <= Shr(c, b - a) < Pow2(a)
    decreases b - a
  {
    if a + 1 == b {
      assert Shr(c, 1) == c / 2;
    } else {
      PrefixBeyond(lens, c / 2, a, b - 1);
    }
  }

  /** No code is a prefix of another one. */
  lemma PrefixFree(lens: seq<nat>, maxLen: nat, i: nat, j: nat)
    requires Feasible(lens, maxLen)
    requires i < |lens| && j < |lens| && i != j && lens[i] > 0 && lens[j] > 0
    ensures !(Code(lens, i) <= Code(lens, j))
  {
    var a, b := lens[i], lens[j];
    if Code(lens, i) <= Code(lens, j) {
      CodeInRange(lens, maxLen, i);
      CodeInRange(lens, maxLen, j);
      var c := CodeNumber(lens, j);
      MsbFirstPrefix(c, b, a);
      assert Code(lens, i) == Code(lens, j)[..a];
      if a == b {
        MsbFirstInjective(CodeNumber(lens, i), c, a);
        if i < j {
          RankBelow(lens, i, j, a);
        } else {
          RankBelow(lens, j, i, a);
        }
      } else {
        PrefixBeyond(lens, c, a, b);
        MsbFirstInjective(CodeNumber(lens, i), Shr(c, b - a), a);
      }
      assert false;
    }
  }

  // ----- Inner nodes of the code tree

  /** p is an inner node of the code tree: a proper prefix of the code of some symbol. */
  ghost predicate Inner(lens: seq<nat>, p: seq<bit>) {
    exists n :: 0 <= n < |lens| && p < Code(lens, n)
  }

  /** All inner nodes. */
  ghost function InnerNodes(lens: seq<nat>): (s: set<seq<bit>>) {
    set n, k | 0 <= n < |lens| && 0 <= k < lens[n] :: Code(lens, n)[..k]
  }

  lemma InnerNodesAreInner(lens: seq<nat>, p: seq<bit>)
    ensures p in InnerNodes(lens) <==> Inner(lens, p)
  {
    if Inner(lens, p) {
      var n :| 0 <= n < |lens| && p < Code(lens, n);
      assert p == Code(lens, n)[..|p|];
    }
  }

  /** Number of inner nodes less deep than b that a complete code can have. */
  function Shallower(lens: seq<nat>, b: nat): int {
    if b == 0 then 0 else Shallower(lens, b - 1) + (Pow2(b - 1) - End(lens, b - 1))
  }

  function UsedUpTo(lens: seq<nat>, b: nat): nat {
    if b == 0 then 0 else UsedUpTo(lens, b - 1) + Used(lens, b)
  }

  /** Every inner node carries two subtrees, so the nodes down to depth b number
      the codes down to depth b, minus one, plus the strings still free there. */
  lemma {:induction false} NodesVersusCodes(lens: seq<nat>, b: nat)
    ensures Shallower(lens, b) + (Pow2(b) - End(lens, b)) == 2 * Shallower(lens, b) + 1 - UsedUpTo(lens, b)
  {
    if b > 0 {
      NodesVersusCodes(lens, b - 1);
      assert Pow2(b) == 2 * Pow2(b - 1);
    }
  }

  lemma {:induction false} CountsSumUp(lens: seq<nat>, b: nat)
    ensures UsedUpTo(lens, b) <= |lens|
  {
    if lens == [] {
      NoneUsed(b);
    } else {
      CountsSumUp(lens[..|lens| - 1], b);
      UsedSnoc(lens, b);
    }
  }

  lemma NoneUsed(b: nat)
    ensures UsedUpTo([], b) == 0
  {
  }

  lemma {:induction false} UsedSnoc(lens: seq<nat>, b: nat)
    requires lens != []
    ensures var len := lens[|lens| - 1];
            UsedUpTo(lens, b) == UsedUpTo(lens[..|lens| - 1], b) + (if 0 < len <= b then 1 else 0)
  {
    if b > 0 {
      UsedSnoc(lens, b - 1);
    }
  }

  lemma {:induction false} ShallowerGrows(lens: seq<nat>, maxLen: nat, a: nat, b: nat)
    requires Feasible(lens, maxLen) && a <= b <= maxLen
    ensures 0 <= Shallower(lens, a) <= Shallower(lens, b)
    decreases a + b
  {
    if a < b {
      ShallowerGrows(lens, maxLen, a, b - 1);
      EndFits(lens, maxLen, b - 1);
    } else if a > 0 {
      ShallowerGrows(lens, maxLen, a - 1, b - 1);
      EndFits(lens, maxLen, a - 1);
    }
  }

  /** The number read from an inner node, most significant bit first. */
  function MsbNumber(p: seq<bit>): nat {
    if p == [] then 0 else 2 * MsbNumber(p[..|p| - 1]) + p[|p| - 1]
  }

  lemma {:induction false} MsbNumberOf(c: nat, len: nat)
    requires c < Pow2(len)
    ensures MsbNumber(MsbFirst(c, len)) == c
  {
    hide MsbNumber, MsbFirst, Pow2;
    MsbHalf(c, len);
    if len > 0 {
      MsbNumberOf(c / 2, len - 1);
      MsbNumberPush(MsbFirst(c / 2, len - 1), c % 2);
    } else {
      NoNumber();
    }
  }

  lemma MsbHalf(c: nat, len: nat)
    requires c < Pow2(len)
    ensures len == 0 ==> MsbFirst(c, len) == [] && c == 0
    ensures len > 0 ==> MsbFirst(c, len) == MsbFirst(c / 2, len - 1) + [c % 2] && c / 2 < Pow2(len - 1)
  {
  }

  lemma NoNumber()
    ensures MsbNumber([]) == 0
  {
  }

  lemma MsbNumberPush(p: seq<bit>, b: bit)
    ensures MsbNumber(p + [b]) == 2 * MsbNumber(p) + b
  {
    assert (p + [b])[..|p|] == p;
  }

  lemma {:induction false} MsbNumberInjective(p: seq<bit>, q: seq<bit>)
    requires |p| == |q| && MsbNumber(p) == MsbNumber(q)
    ensures p == q
  {
    if p != [] {
      var a, b := p[..|p| - 1], q[..|q| - 1];
      assert MsbNumber(a) == MsbNumber(b);
      MsbNumberInjective(a, b);
      assert p == a + [p[|p| - 1]] && q == b + [q[|q| - 1]];
    }
  }

  /** Position of an inner node when they are numbered level by level. */
  function LevelOrder(lens: seq<nat>, p: seq<bit>): int {
    Shallower(lens, |p|) + (MsbNumber(p) - End(lens, |p|))
  }

  lemma InnerInRange(lens: seq<nat>, maxLen: nat, p: seq<bit>)
    requires Feasible(lens, maxLen) && Inner(lens, p)
    ensures |p| < maxLen && End(lens, |p|) <= MsbNumber(p) < Pow2(|p|)
  {
    var n :| 0 <= n < |lens| && p < Code(lens, n);
    var c, a, b := CodeNumber(lens, n), |p|, lens[n];
    CodeInRange(lens, maxLen, n);
    MsbFirstPrefix(c, b, a);
    PrefixBeyond(lens, c, a, b);
    MsbNumberOf(Shr(c, b - a), a);
    assert p == Code(lens, n)[..a];
  }

  /** In a complete code over m symbols the inner nodes are numbered injectively below m - 1. */
  lemma LevelOrderBelow(lens: seq<nat>, maxLen: nat, p: seq<bit>)
    requires Complete(lens, maxLen) && Inner(lens, p)
    ensures 0 <= LevelOrder(lens, p) < |lens| - 1
  {
    InnerInRange(lens, maxLen, p);
    ShallowerGrows(lens, maxLen, |p|, |p| + 1);
    ShallowerGrows(lens, maxLen, |p| + 1, maxLen);
    EndIsKraft(lens, maxLen);
    NodesVersusCodes(lens, maxLen);
    CountsSumUp(lens, maxLen);
  }

  lemma LevelOrderInjective(lens: seq<nat>, maxLen: nat, p: seq<bit>, q: seq<bit>)
    requires Feasible(lens, maxLen) && Inner(lens, p) && Inner(lens, q)
    requires LevelOrder(lens, p) == LevelOrder(lens, q)
    ensures p == q
  {
    InnerInRange(lens, maxLen, p);
    InnerInRange(lens, maxLen, q);
    if |p| < |q| {
      ShallowerGrows(lens, maxLen, |p| + 1, |q|);
      assert false;
    } else if |q| < |p| {
      ShallowerGrows(lens, maxLen, |q| + 1, |p|);
      assert false;
    } else {
      MsbNumberInjective(p, q);
    }
  }

  // ----- The rules of section 3.2.2 of RFC 1951

  /** Of two numbers of the same width the smaller one has a 0 where they first differ, most significant bit first. */
  lemma {:induction false} MsbFirstOrder(c: nat, d: nat, len: nat) returns (k: nat)
    requires c < d < Pow2(len)
    ensures k < len && MsbFirst(c, len)[..k] == MsbFirst(d, len)[..k]
    ensures MsbFirst(c, len)[k] == 0 && MsbFirst(d, len)[k] == 1
  {
    hide MsbFirst;
    MsbHalf(c, len);
    MsbHalf(d, len);
    if c / 2 == d / 2 {
      k := len - 1;
      assert MsbFirst(c, len)[..k] == MsbFirst(c / 2, k) && MsbFirst(d, len)[..k] == MsbFirst(d / 2, k);
    } else {
      k := MsbFirstOrder(c / 2, d / 2, len - 1);
      assert MsbFirst(c, len)[..k] == MsbFirst(c / 2, len - 1)[..k];
      assert MsbFirst(d, len)[..k] == MsbFirst(d / 2, len - 1)[..k];
    }
  }

  /** Symbol i comes before j: its code is shorter, or as long and its number is smaller. */
  predicate Earlier(lens: seq<nat>, i: nat, j: nat) {
    i < |lens| && j < |lens| && 0 < lens[i] && (lens[i] < lens[j] || (lens[i] == lens[j] && i < j))
  }

  /** The codes are in lexicographic order: shorter ones before longer ones, those of one length by symbol. */
  lemma CodesAscend(lens: seq<nat>, maxLen: nat, i: nat, j: nat) returns (k: nat)
    requires Feasible(lens, maxLen) && Earlier(lens, i, j)
    ensures k < lens[i] && Code(lens, i)[..k] == Code(lens, j)[..k] && Code(lens, i)[k] == 0 && Code(lens, j)[k] == 1
  {
    hide MsbFirst, First, Count, Shr;
    var a, b := lens[i], lens[j];
    CodeInRange(lens, maxLen, i);
    CodeInRange(lens, maxLen, j);
    var c, d := CodeNumber(lens, i), CodeNumber(lens, j);
    MsbFirstPrefix(d, b, a);
    if a == b {
      RankBelow(lens, i, j, a);
      k := MsbFirstOrder(c, d, a);
    } else {
      PrefixBeyond(lens, d, a, b);
      var p := Shr(d, b - a);
      k := MsbFirstOrder(c, p, a);
      assert Code(lens, j)[..k] == Code(lens, j)[..a][..k];
    }
  }

  /** Codes of one length have consecutive values, and the first code of all is zeros. */
  lemma CodesConsecutive(lens: seq<nat>, maxLen: nat, i: nat, j: nat)
    requires Feasible(lens, maxLen) && Earlier(lens, i, j) && lens[i] == lens[j]
    requires forall k :: i < k < j ==> lens[k] != lens[i]
    ensures MsbNumber(Code(lens, j)) == MsbNumber(Code(lens, i)) + 1
    ensures (forall k :: 0 <= k < |lens| ==> lens[k] == 0 || Earlier(lens, i, k) || k == i) ==>
              MsbNumber(Code(lens, i)) == 0
  {
    hide MsbFirst, First, Count, MsbNumber;
    CodeInRange(lens, maxLen, i);
    CodeInRange(lens, maxLen, j);
    MsbNumberOf(CodeNumber(lens, i), lens[i]);
    MsbNumberOf(CodeNumber(lens, j), lens[j]);
    NextRank(lens, i, j);
    if forall k :: 0 <= k < |lens| ==> lens[k] == 0 || Earlier(lens, i, k) || k == i {
      NoneBefore(lens[..i], lens[i]);
      NothingShorter(lens, lens[i]);
    }
  }

  lemma {:induction false} NextRank(lens: seq<nat>, i: nat, j: nat)
    requires i < j <= |lens| && forall k :: i < k < j ==> lens[k] != lens[i]
    ensures Count(lens[..j], lens[i]) == Count(lens[..i], lens[i]) + 1
    decreases j
  {
    assert lens[..j][..j - 1] == lens[..j - 1];
    if i + 1 < j { NextRank(lens, i, j - 1); }
  }

  lemma {:induction false} NoneBefore(lens: seq<nat>, b: nat)
    requires forall k :: 0 <= k < |lens| ==> lens[k] != b
    ensures Count(lens, b) == 0
  {
    if lens != [] { NoneBefore(lens[..|lens| - 1], b); }
  }

  lemma {:induction false} NothingShorter(lens: seq<nat>, b: nat)
    requires forall k :: 0 <= k < |lens| ==> lens[k] == 0 || lens[k] >= b
    ensures First(lens, b) == 0
  {
    hide Count;
    if b > 1 {
      NothingShorter(lens, b - 1);
      NoneBefore(lens, b - 1);
    }
  }
}
