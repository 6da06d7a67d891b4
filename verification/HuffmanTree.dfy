/** The decoder's Huffman tree, packed into a flat array: node i has its two children in cells
    2i and 2i+1; a cell below numcodes is a symbol, a cell numcodes + j is the node j.
    The tree is grown code by code; EMPTY marks a cell that is not filled yet. */
module HuffmanTree {
  import opened Common
  import opened Bits
  import opened CanonicalCode

  const EMPTY := 32767
  const MAX_SYMBOLS := 288

  /** State of the construction: the cells, the last node in use, the current node,
      and whether the code lengths asked for more nodes than there is room for. */
  datatype Trie = Trie(cells: seq<nat>, filled: nat, pos: nat, ok: bool)

  /** 32-bit unsigned subtraction. */
  function Sub32(a: nat, b: nat): (r: nat)
    requires b < 0x1_0000_0000
  {
    if a >= b then a - b else a + 0x1_0000_0000 - b
  }

  /** Follow or create the branch for one bit of a code of symbol n. */
  function InsertBit(t: Trie, m: nat, b: bit, last: bool, n: nat): (r: Trie)
    requires 2 <= m <= MAX_SYMBOLS && |t.cells| == 2 * m
    ensures |r.cells| == 2 * m
  {
    if !t.ok then t
    else if t.pos > m - 2 then t.(ok := false)
    else
      var cell := 2 * t.pos + b;
      if t.cells[cell] == EMPTY then
        if last then
          t.(cells := t.cells[cell := n], pos := 0)
        else
          Trie(t.cells[cell := t.filled + 1 + m], t.filled + 1, t.filled + 1, true)
      else
        t.(pos := Sub32(t.cells[cell], m))
  }

  /** Insert the bits of a code one after the other. */
  function InsertCode(t: Trie, m: nat, code: seq<bit>, n: nat): (r: Trie)
    requires 2 <= m <= MAX_SYMBOLS && |t.cells| == 2 * m
    ensures |r.cells| == 2 * m
    decreases |code|
  {
    if code == [] then t
    else InsertCode(InsertBit(t, m, code[0], |code| == 1, n), m, code[1..], n)
  }

  function EmptyTrie(m: nat): (t: Trie) {
    Trie(seq(2 * m, _ => EMPTY), 0, 0, true)
  }

  /** The trie after the symbols below n. */
  function Grow(lens: seq<nat>, n: nat): (t: Trie)
    requires 2 <= |lens| <= MAX_SYMBOLS && n <= |lens|
    ensures |t.cells| == 2 * |lens|
    decreases |lens|, n
  {
    if n == 0 then EmptyTrie(|lens|)
    else InsertCode(Grow(lens, n - 1), |lens|, Code(lens, n - 1), n - 1)
  }

  /** Unused cells are finally turned into symbol 0. */
  function Cleaned(cells: seq<nat>): (r: seq<nat>)
    ensures |r| == |cells|
    ensures forall k :: 0 <= k < |r| ==> r[k] == if cells[k] == EMPTY then 0 else cells[k]
  {
    seq(|cells|, k requires 0 <= k < |cells| => if cells[k] == EMPTY then 0 else cells[k])
  }

  /** The tree for code lengths lens; meaningful when TreeFits(lens). */
  function Tree(lens: seq<nat>): (t: seq<nat>)
    requires 2 <= |lens| <= MAX_SYMBOLS
    ensures |t| == 2 * |lens|
  {
    Cleaned(Grow(lens, |lens|).cells)
  }

  /** The construction ends without error. */
  predicate TreeFits(lens: seq<nat>)
    requires 2 <= |lens| <= MAX_SYMBOLS
  {
    Grow(lens, |lens|).ok
  }

  /** From node pos of a tree over m symbols, the bits of code lead to symbol n. */
  predicate Leads(cells: seq<nat>, m: nat, pos: nat, code: seq<bit>, n: nat)
    requires |cells| == 2 * m
    decreases |code|
  {
    && code != [] && pos < m
    && var c := cells[2 * pos + code[0]];
       if |code| == 1 then c == n < m else m <= c < 2 * m && Leads(cells, m, c - m, code[1..], n)
  }

  // ----- What the trie represents

  /** Cell of node i for bit b: unused, the leaf of an inserted symbol (below n), or a later node. */
  ghost predicate CellOk(t: Trie, lens: seq<nat>, n: nat, paths: seq<seq<bit>>, i: nat, b: bit)
    requires |t.cells| == 2 * |lens| && |paths| == t.filled + 1 <= |lens| && i <= t.filled && n <= |lens|
  {
    var m, c := |lens|, t.cells[2 * i + b];
    || c == EMPTY
    || (c < n && Code(lens, c) == paths[i] + [b])
    || (m + i < c <= m + t.filled && paths[c - m] == paths[i] + [b])
  }

  /** The shape of a trie that holds codes of symbols below n; paths[i] is the bit string of node i. */
  ghost predicate Shape(t: Trie, lens: seq<nat>, n: nat, paths: seq<seq<bit>>) {
    var m := |lens|;
    && 2 <= m <= MAX_SYMBOLS && n <= m && t.ok
    && |t.cells| == 2 * m && |paths| == t.filled + 1 <= m
    && paths[0] == [] && Distinct(paths)
    && (forall i, b: bit :: 0 <= i <= t.filled ==> CellOk(t, lens, n, paths, i, b))
    && (forall k :: 2 * t.filled + 2 <= k < 2 * m ==> t.cells[k] == EMPTY)
    && (forall j :: 1 <= j < |paths| ==> Inner(lens, paths[j]))
    && (forall j :: 1 <= j < |paths| ==> HasParent(t, m, j))
  }

  /** Some cell holds the address of node j. */
  ghost predicate HasParent(t: Trie, m: nat, j: nat) {
    exists q :: 0 <= q < |t.cells| && t.cells[q] == m + j
  }

  /** Symbol c, if it is in use, is found by following its code from the root. */
  ghost predicate Found(cells: seq<nat>, lens: seq<nat>, c: nat)
    requires |cells| == 2 * |lens| && c < |lens|
  {
    lens[c] > 0 ==> Leads(cells, |lens|, 0, Code(lens, c), c)
  }

  /** Every inserted symbol is found. */
  ghost predicate AllLead(cells: seq<nat>, lens: seq<nat>, n: nat)
    requires |cells| == 2 * |lens| && n <= |lens|
  {
    forall c :: 0 <= c < n ==> Found(cells, lens, c)
  }

  /** Cells only change from unused to used. */
  ghost predicate Extends(cells: seq<nat>, cells': seq<nat>) {
    |cells| == |cells'| && forall k :: 0 <= k < |cells| && cells[k] != EMPTY ==> cells'[k] == cells[k]
  }

  /** The construction fails because there are more inner nodes than room for them. */
  ghost predicate TooManyNodes(lens: seq<nat>, paths: seq<seq<bit>>) {
    |paths| == |lens| && Distinct(paths) && forall j :: 0 <= j < |paths| ==> Inner(lens, paths[j])
  }

  /** A symbol's code stays in place when unused cells are filled. */
  lemma {:induction false} LeadsKept(cells: seq<nat>, cells': seq<nat>, m: nat, pos: nat, code: seq<bit>, n: nat)
    requires |cells| == |cells'| == 2 * m && m <= MAX_SYMBOLS
    requires Leads(cells, m, pos, code, n) && Extends(cells, cells')
    ensures Leads(cells', m, pos, code, n)
    decreases |code|
  {
    var c := cells[2 * pos + code[0]];
    assert cells'[2 * pos + code[0]] == c;
    if |code| > 1 {
      LeadsKept(cells, cells', m, c - m, code[1..], n);
    }
  }

  lemma StuckStaysStuck(t: Trie, m: nat, code: seq<bit>, n: nat)
    requires 2 <= m <= MAX_SYMBOLS && |t.cells| == 2 * m && !t.ok
    ensures InsertCode(t, m, code, n) == t
    decreases |code|
  {
    if code != [] {
      StuckStaysStuck(t, m, code[1..], n);
    }
  }

  lemma SnocInjective(p: seq<bit>, b: bit, q: seq<bit>, c: bit)
    ensures p + [b] == q + [c] <==> p == q && b == c
  {
    if p + [b] == q + [c] {
      assert p == (p + [b])[..|p|] && q == (q + [c])[..|q|];
      assert b == (p + [b])[|p|] && c == (q + [c])[|q|];
    }
  }

  /** A node that is not there yet has a bit string of its own. */
  lemma FreshPath(t: Trie, lens: seq<nat>, n: nat, paths: seq<seq<bit>>, i: nat, b: bit)
    requires Shape(t, lens, n, paths) && i <= t.filled && t.cells[2 * i + b] == EMPTY
    ensures forall j :: 0 <= j < |paths| ==> paths[j] != paths[i] + [b]
  {
    var m := |lens|;
    forall j | 1 <= j < |paths| ensures paths[j] != paths[i] + [b] {
      assert HasParent(t, m, j);
      var q :| 0 <= q < |t.cells| && t.cells[q] == m + j;
      var i', b' := q / 2, q % 2;
      assert q == 2 * i' + b' && i' <= t.filled;
      assert CellOk(t, lens, n, paths, i', b');
      SnocInjective(paths[i'], b', paths[i], b);
    }
  }

  /** A cell of node i on bit b of symbol n's code that is not unused leads to an inner node, not yet to the leaf. */
  lemma UsedCellIsNode(t: Trie, lens: seq<nat>, maxLen: nat, n: nat, k: nat, paths: seq<seq<bit>>)
    requires Feasible(lens, maxLen) && Shape(t, lens, n, paths)
    requires n < |lens| && k < lens[n] && t.pos <= t.filled && paths[t.pos] == Code(lens, n)[..k]
    requires t.cells[2 * t.pos + Code(lens, n)[k]] != EMPTY
    ensures var c := t.cells[2 * t.pos + Code(lens, n)[k]];
            && |lens| < c <= |lens| + t.filled && paths[c - |lens|] == Code(lens, n)[..k + 1]
            && k + 1 < lens[n]
  {
    var code := Code(lens, n);
    var m, b := |lens|, code[k];
    var c := t.cells[2 * t.pos + b];
    assert CellOk(t, lens, n, paths, t.pos, b);
    assert paths[t.pos] + [b] == code[..k + 1];
    if c < n {
      PrefixFree(lens, maxLen, c, n);
      assert false;
    }
    if k + 1 == lens[n] {
      assert paths[c - m] == code;
      var o :| 0 <= o < m && code < Code(lens, o);
      PrefixFree(lens, maxLen, n, o);
      assert false;
    }
  }

  lemma PrefixStep(code: seq<bit>, k: nat)
    requires k < |code|
    ensures code[k..][0] == code[k] && code[k..][1..] == code[k + 1..]
    ensures code[..k] + [code[k]] == code[..k + 1]
  {
  }

  lemma AddLeaf(t: Trie, lens: seq<nat>, n: nat, k: nat, paths: seq<seq<bit>>)
    requires Shape(t, lens, n, paths) && n < |lens| && k + 1 == lens[n]
    requires t.pos <= t.filled && t.pos + 2 <= |lens| && paths[t.pos] == Code(lens, n)[..k]
    requires t.cells[2 * t.pos + Code(lens, n)[k]] == EMPTY
    ensures var cells := t.cells[2 * t.pos + Code(lens, n)[k] := n];
            Shape(t.(cells := cells, pos := 0), lens, n + 1, paths)
  {
    var m, b := |lens|, Code(lens, n)[k];
    var cell := 2 * t.pos + b;
    var t' := t.(cells := t.cells[cell := n], pos := 0);
    var n' := n + 1;
    forall i, c: bit | 0 <= i <= t.filled ensures CellOk(t', lens, n', paths, i, c) {
      assert CellOk(t, lens, n, paths, i, c);
      if 2 * i + c == cell {
        PrefixStep(Code(lens, n), k);
        assert Code(lens, n)[..k + 1] == Code(lens, n);
      }
    }
    forall j | 1 <= j < |paths| ensures HasParent(t', m, j) {
      assert HasParent(t, m, j);
      var q :| 0 <= q < |t.cells| && t.cells[q] == m + j;
      assert t'.cells[q] == m + j;
    }
  }

  lemma AddNode(t: Trie, lens: seq<nat>, n: nat, k: nat, paths: seq<seq<bit>>)
    requires Shape(t, lens, n, paths) && n < |lens| && k + 1 < lens[n]
    requires t.pos <= t.filled && t.filled + 2 <= |lens| && paths[t.pos] == Code(lens, n)[..k]
    requires t.cells[2 * t.pos + Code(lens, n)[k]] == EMPTY
    ensures var cells := t.cells[2 * t.pos + Code(lens, n)[k] := t.filled + 1 + |lens|];
            Shape(Trie(cells, t.filled + 1, t.filled + 1, true), lens, n, paths + [Code(lens, n)[..k + 1]])
  {
    hide Code;
    var m, b := |lens|, Code(lens, n)[k];
    var cell, f := 2 * t.pos + b, t.filled + 1;
    var t' := Trie(t.cells[cell := f + m], f, f, true);
    var path := Code(lens, n)[..k + 1];
    var paths' := paths + [path];
    PrefixStep(Code(lens, n), k);
    FreshPath(t, lens, n, paths, t.pos, b);
    assert path < Code(lens, n);
    forall i, c: bit | 0 <= i <= f ensures CellOk(t', lens, n, paths', i, c) {
      if i < f {
        assert CellOk(t, lens, n, paths, i, c);
      }
    }
    forall j | 1 <= j < |paths'| ensures Inner(lens, paths'[j]) && HasParent(t', m, j) {
      if j < f {
        assert HasParent(t, m, j);
        var q :| 0 <= q < |t.cells| && t.cells[q] == m + j;
        assert t'.cells[q] == m + j;
      } else {
        assert t'.cells[cell] == m + j;
      }
    }
  }

  lemma MovePos(t: Trie, lens: seq<nat>, n: nat, paths: seq<seq<bit>>, pos: nat)
    requires Shape(t, lens, n, paths)
    ensures Shape(t.(pos := pos), lens, n, paths)
  {
    var t', m := t.(pos := pos), |lens|;
    forall i, c: bit | 0 <= i <= t.filled ensures CellOk(t', lens, n, paths, i, c) {
      assert CellOk(t, lens, n, paths, i, c);
    }
    forall j | 1 <= j < |paths| ensures HasParent(t', m, j) {
      assert HasParent(t, m, j);
    }
  }

  /** One bit that is not the last one leads to a node that was there or is new. */
  lemma StepDown(t: Trie, lens: seq<nat>, maxLen: nat, n: nat, k: nat, paths: seq<seq<bit>>)
    returns (paths': seq<seq<bit>>)
    requires Feasible(lens, maxLen) && Shape(t, lens, n, paths)
    requires n < |lens| && k + 1 < lens[n] && t.pos <= t.filled && paths[t.pos] == Code(lens, n)[..k]
    requires t.pos + 2 <= |lens| && (t.filled + 2 <= |lens| || t.pos == t.filled)
    ensures var b := Code(lens, n)[k];
            var r := InsertBit(t, |lens|, b, false, n);
            && Shape(r, lens, n, paths') && r.pos <= r.filled && paths'[r.pos] == Code(lens, n)[..k + 1]
            && (r.filled + 2 <= |lens| || r.pos == r.filled)
            && Extends(t.cells, r.cells) && r.cells[2 * t.pos + b] == |lens| + r.pos
  {
    var b := Code(lens, n)[k];
    if t.cells[2 * t.pos + b] == EMPTY {
      AddNode(t, lens, n, k, paths);
      paths' := paths + [Code(lens, n)[..k + 1]];
    } else {
      UsedCellIsNode(t, lens, maxLen, n, k, paths);
      MovePos(t, lens, n, paths, t.cells[2 * t.pos + b] - |lens|);
      paths' := paths;
    }
  }

  /** Insert what is left of symbol n's code below the node its first k bits lead to. */
  lemma {:induction false} InsertRest(t: Trie, lens: seq<nat>, maxLen: nat, n: nat, k: nat, paths: seq<seq<bit>>)
    returns (paths': seq<seq<bit>>)
    requires Feasible(lens, maxLen) && Shape(t, lens, n, paths)
    requires n < |lens| && k < lens[n] && t.pos <= t.filled && paths[t.pos] == Code(lens, n)[..k]
    requires t.filled + 2 <= |lens| || t.pos == t.filled
    ensures Inserted(t, InsertCode(t, |lens|, Code(lens, n)[k..], n), lens, n, Code(lens, n)[k..], paths')
    decreases lens[n] - k
  {
    var m, code := |lens|, Code(lens, n);
    PrefixStep(code, k);
    var last := k + 1 == lens[n];
    var t' := InsertBit(t, m, code[k], last, n);
    assert InsertCode(t, m, code[k..], n) == InsertCode(t', m, code[k + 1..], n);
    if t.pos > m - 2 {
      StuckStaysStuck(t', m, code[k + 1..], n);
      assert [] < code;
      paths' := paths;
    } else if last {
      if t.cells[2 * t.pos + code[k]] != EMPTY {
        UsedCellIsNode(t, lens, maxLen, n, k, paths);
        assert false;
      } else {
        AddLeaf(t, lens, n, k, paths);
      }
      paths' := paths;
    } else {
      var mid := StepDown(t, lens, maxLen, n, k, paths);
      paths' := InsertRest(t', lens, maxLen, n, k + 1, mid);
      ComposeInserted(t, t', InsertCode(t', m, code[k + 1..], n), lens, n, code[k..], paths');
    }
  }

  /** Inserting the rest of a code of symbol n turned t into r. */
  ghost predicate Inserted(t: Trie, r: Trie, lens: seq<nat>, n: nat, code: seq<bit>, paths: seq<seq<bit>>)
    requires n < |lens|
  {
    if r.ok then
      && Shape(r, lens, n + 1, paths) && r.filled + 2 <= |lens| && r.pos == 0
      && Extends(t.cells, r.cells) && Leads(r.cells, |lens|, t.pos, code, n)
    else
      TooManyNodes(lens, paths)
  }

  lemma ComposeInserted(t: Trie, t': Trie, r: Trie, lens: seq<nat>, n: nat, code: seq<bit>, paths: seq<seq<bit>>)
    requires n < |lens| <= MAX_SYMBOLS && |code| > 1 && t.pos < |lens| && t'.pos < |lens|
    requires |t.cells| == |t'.cells| == 2 * |lens|
    requires Extends(t.cells, t'.cells) && t'.cells[2 * t.pos + code[0]] == |lens| + t'.pos
    requires Inserted(t', r, lens, n, code[1..], paths)
    ensures Inserted(t, r, lens, n, code, paths)
  {
    if r.ok {
      assert r.cells[2 * t.pos + code[0]] == |lens| + t'.pos;
    }
  }

  // ----- The whole construction

  /** Where the construction stands after the symbols below n. */
  ghost predicate Grown(t: Trie, lens: seq<nat>, n: nat, paths: seq<seq<bit>>)
    requires n <= |lens|
  {
    if t.ok then
      Shape(t, lens, n, paths) && t.filled + 2 <= |lens| && t.pos == 0 && AllLead(t.cells, lens, n)
    else
      TooManyNodes(lens, paths)
  }

  lemma EmptyTrieGrown(lens: seq<nat>)
    requires 2 <= |lens| <= MAX_SYMBOLS
    ensures Grown(EmptyTrie(|lens|), lens, 0, [[]])
  {
    var t := EmptyTrie(|lens|);
    var paths: seq<seq<bit>> := [[]];
    forall i, b: bit | 0 <= i <= t.filled ensures CellOk(t, lens, 0, paths, i, b) {
      assert t.cells[2 * i + b] == EMPTY;
    }
    assert Shape(t, lens, 0, paths);
  }

  lemma GrowStep(t: Trie, lens: seq<nat>, maxLen: nat, n: nat, paths: seq<seq<bit>>) returns (paths': seq<seq<bit>>)
    requires 2 <= |lens| <= MAX_SYMBOLS && Feasible(lens, maxLen) && n < |lens|
    requires |t.cells| == 2 * |lens| && Grown(t, lens, n, paths)
    ensures Grown(InsertCode(t, |lens|, Code(lens, n), n), lens, n + 1, paths')
  {
    paths' := paths;
    if !t.ok {
      StuckStaysStuck(t, |lens|, Code(lens, n), n);
    } else if lens[n] == 0 {
      MoreSymbols(t, lens, n, paths);
    } else {
      assert Code(lens, n)[0..] == Code(lens, n) && Code(lens, n)[..0] == [];
      paths' := InsertRest(t, lens, maxLen, n, 0, paths);
      var r := InsertCode(t, |lens|, Code(lens, n), n);
      if r.ok {
        AllStillLead(t, r, lens, n);
      }
    }
  }

  lemma {:induction false} GrowHolds(lens: seq<nat>, maxLen: nat, n: nat) returns (paths: seq<seq<bit>>)
    requires 2 <= |lens| <= MAX_SYMBOLS && Feasible(lens, maxLen) && n <= |lens|
    ensures Grown(Grow(lens, n), lens, n, paths)
  {
    if n == 0 {
      EmptyTrieGrown(lens);
      paths := [[]];
    } else {
      paths := GrowHolds(lens, maxLen, n - 1);
      paths := GrowStep(Grow(lens, n - 1), lens, maxLen, n - 1, paths);
    }
  }

  lemma MoreSymbols(t: Trie, lens: seq<nat>, n: nat, paths: seq<seq<bit>>)
    requires Shape(t, lens, n, paths) && n < |lens|
    ensures Shape(t, lens, n + 1, paths)
  {
    var n' := n + 1;
    forall i, c: bit | 0 <= i <= t.filled ensures CellOk(t, lens, n', paths, i, c) {
      assert CellOk(t, lens, n, paths, i, c);
    }
  }

  lemma AllStillLead(t: Trie, r: Trie, lens: seq<nat>, n: nat)
    requires n < |lens| <= MAX_SYMBOLS && |t.cells| == |r.cells| == 2 * |lens|
    requires AllLead(t.cells, lens, n) && Extends(t.cells, r.cells)
    requires Leads(r.cells, |lens|, 0, Code(lens, n), n)
    ensures AllLead(r.cells, lens, n + 1)
  {
    forall c | 0 <= c < n ensures Found(r.cells, lens, c) {
      assert Found(t.cells, lens, c);
      if lens[c] > 0 {
        LeadsKept(t.cells, r.cells, |lens|, 0, Code(lens, c), c);
      }
    }
  }

  /** In the finished tree the code of every symbol in use leads from the root to that symbol. */
  lemma TreeHoldsCodes(lens: seq<nat>, maxLen: nat, n: nat)
    requires 2 <= |lens| <= MAX_SYMBOLS && Feasible(lens, maxLen) && TreeFits(lens)
    requires n < |lens| && lens[n] > 0
    ensures Leads(Tree(lens), |lens|, 0, Code(lens, n), n)
  {
    var _ := GrowHolds(lens, maxLen, |lens|);
    assert Found(Grow(lens, |lens|).cells, lens, n);
    LeadsKept(Grow(lens, |lens|).cells, Tree(lens), |lens|, 0, Code(lens, n), n);
  }

  // ----- When the construction succeeds

  /** The inner nodes above a symbol are nodes of the trie. */
  lemma {:induction false} PrefixesArePaths(t: Trie, lens: seq<nat>, paths: seq<seq<bit>>, pos: nat, c: nat, k: nat,
                                            k': nat)
    requires Shape(t, lens, |lens|, paths) && c < |lens| && k <= k' < lens[c]
    requires pos <= t.filled && paths[pos] == Code(lens, c)[..k]
    requires Leads(t.cells, |lens|, pos, Code(lens, c)[k..], c)
    ensures Code(lens, c)[..k'] in paths
    decreases k' - k
  {
    if k < k' {
      var code := Code(lens, c);
      PrefixStep(code, k);
      assert CellOk(t, lens, |lens|, paths, pos, code[k]);
      var next := t.cells[2 * pos + code[k]];
      PrefixesArePaths(t, lens, paths, next - |lens|, c, k + 1, k');
    }
  }

  /** The exact condition: a feasible set of lengths is accepted if and only if its code tree
      has at most numcodes - 1 inner nodes, the room the array gives them. */
  lemma FitsIff(lens: seq<nat>, maxLen: nat)
    requires 2 <= |lens| <= MAX_SYMBOLS && Feasible(lens, maxLen)
    ensures TreeFits(lens) <==> |InnerNodes(lens)| <= |lens| - 1
  {
    var paths := GrowHolds(lens, maxLen, |lens|);
    var t := Grow(lens, |lens|);
    if t.ok {
      forall p | p in InnerNodes(lens) ensures p in paths {
        var c, k :| 0 <= c < |lens| && 0 <= k < lens[c] && p == Code(lens, c)[..k];
        assert Found(t.cells, lens, c);
        assert Code(lens, c)[0..] == Code(lens, c);
        PrefixesArePaths(t, lens, paths, 0, c, 0, k);
      }
      CoverBound(paths, InnerNodes(lens));
    } else {
      forall i | 0 <= i < |paths| ensures paths[i] in InnerNodes(lens) {
        InnerNodesAreInner(lens, paths[i]);
      }
      DistinctBound(paths, InnerNodes(lens));
    }
  }

  /** Lengths that use the whole code space are always accepted. */
  lemma CompleteFits(lens: seq<nat>, maxLen: nat)
    requires 2 <= |lens| <= MAX_SYMBOLS && Complete(lens, maxLen)
    ensures TreeFits(lens)
  {
    var paths := GrowHolds(lens, maxLen, |lens|);
    if !TreeFits(lens) {
      var order := seq(|paths|, i requires 0 <= i < |paths| => LevelOrder(lens, paths[i]));
      var room := NatsBelow(|lens| - 1);
      forall i | 0 <= i < |order| ensures order[i] in room {
        LevelOrderBelow(lens, maxLen, paths[i]);
      }
      forall i, j | 0 <= i < j < |order| ensures order[i] != order[j] {
        if order[i] == order[j] {
          LevelOrderInjective(lens, maxLen, paths[i], paths[j]);
        }
      }
      DistinctBound(order, room);
      assert false;
    }
  }

  ghost function NatsBelow(n: nat): (s: set<int>)
    ensures |s| == n && forall k :: k in s <==> 0 <= k < n
  {
    if n == 0 then {} else NatsBelow(n - 1) + {n - 1}
  }

  // ----- What an accepted table is worth

  /** From one node a string leads to one symbol at most, and no string that goes on does. */
  lemma {:induction false} LeadsOnce(cells: seq<nat>, m: nat, pos: nat, p: seq<bit>, n: nat, q: seq<bit>, k: nat)
    requires |cells| == 2 * m && Leads(cells, m, pos, p, n) && Leads(cells, m, pos, q, k) && p <= q
    ensures n == k
    decreases |p|
  {
    assert p[0] == q[0];
    if |p| > 1 && |q| > 1 {
      assert p[1..] <= q[1..];
      LeadsOnce(cells, m, cells[2 * pos + p[0]] - m, p[1..], n, q[1..], k);
    }
  }

  /** A table that leads to each used symbol by as many bits as its length exists only for Kraft sums up to 1. */
  lemma TableBound(cells: seq<nat>, lens: seq<nat>, paths: seq<seq<bit>>, maxLen: nat)
    requires |cells| == 2 * |lens| && HasLengths(paths, lens)
    requires forall n :: 0 <= n < |lens| && lens[n] > 0 ==> Leads(cells, |lens|, 0, paths[n], n)
    ensures KraftSum(lens, maxLen) <= Pow2(maxLen)
  {
    hide Leads, KraftSum, Chosen, Weight, Incomparable;
    forall i, j | 0 <= i < |paths| && 0 <= j < |paths| && i != j && paths[i] != [] ensures !(paths[i] <= paths[j]) {
      if paths[i] <= paths[j] { LeadsOnce(cells, |lens|, 0, paths[i], i, paths[j], j); }
    }
    ChosenIncomparable(paths);
    ChosenWeight(paths, lens, maxLen);
    KraftBound(Chosen(paths), maxLen);
  }

  /** So of the lists of lengths that are accepted, just those whose Kraft sum is at most 1 get a table in which every
      used symbol is found by its code: from any other one, a symbol is missing. */
  lemma ServesIff(lens: seq<nat>, maxLen: nat)
    requires 2 <= |lens| <= MAX_SYMBOLS && TreeFits(lens) && forall n :: 0 <= n < |lens| ==> lens[n] <= maxLen
    ensures Serves(Tree(lens), lens) <==> Feasible(lens, maxLen)
  {
    hide Tree, TreeFits, KraftSum, Leads, Code;
    if Feasible(lens, maxLen) { TreeServes(lens, maxLen); }
    if Serves(Tree(lens), lens) {
      var codes := seq(|lens|, n requires 0 <= n < |lens| => Code(lens, n));
      forall n | 0 <= n < |lens| && lens[n] > 0 ensures Leads(Tree(lens), |lens|, 0, codes[n], n) {
        assert Found(Tree(lens), lens, n);
      }
      TableBound(Tree(lens), lens, codes, maxLen);
    }
  }

  // ----- Lists of one-bit codes

  /** Each symbol has a code of one bit or none. */
  predicate OneBit(lens: seq<nat>) {
    forall k :: 0 <= k < |lens| ==> lens[k] <= 1
  }

  lemma OneBitCode(lens: seq<nat>, n: nat)
    requires n < |lens| && OneBit(lens)
    ensures Code(lens, n) == if lens[n] == 0 then [] else [Count(lens[..n], 1) % 2]
  {
    hide Count;
    if lens[n] == 1 {
      var c := Count(lens[..n], 1);
      assert First(lens, 1) == 2 * (First(lens, 0) + Used(lens, 0)) == 0;
      assert CodeNumber(lens, n) == c;
      assert MsbFirst(c, 1) == MsbFirst(c / 2, 0) + [c % 2] == [c % 2];
    }
  }

  lemma {:induction false} OneBitKraft(lens: seq<nat>)
    requires OneBit(lens)
    ensures KraftSum(lens, 15) == Count(lens, 1) * Pow2(14)
  {
    hide Pow2;
    if lens != [] {
      OneBitKraft(lens[..|lens| - 1]);
      var c := Count(lens[..|lens| - 1], 1);
      assert (c + 1) * Pow2(14) == c * Pow2(14) + Pow2(14);
    }
  }

  /** The trie after c one-bit codes: the first two fill the root, the third leaves it for a cell far outside, and the
      fourth finds it there. */
  ghost predicate OneBitTrie(t: Trie, m: nat, c: nat) {
    && 2 <= m <= MAX_SYMBOLS && |t.cells| == 2 * m && t.ok == (c <= 3)
    && (c < 3 ==> t.pos == 0)
    && (c == 0 ==> t.cells[0] == EMPTY)
    && (1 <= c <= 3 ==> t.cells[0] < m)
    && (c <= 3 ==> (t.cells[1] == EMPTY <==> c <= 1))
    && (c == 3 ==> t.pos > m)
  }

  lemma OneBitInserted(t: Trie, m: nat, c: nat, n: nat)
    requires n < m && OneBitTrie(t, m, c)
    ensures OneBitTrie(InsertCode(t, m, [c % 2], n), m, c + 1)
  {
    var b: bit := c % 2;
    assert [b][1..] == [];
    assert InsertCode(t, m, [b], n) == InsertBit(t, m, b, true, n);
  }

  lemma {:induction false} OneBitGrown(lens: seq<nat>, n: nat)
    requires 2 <= |lens| <= MAX_SYMBOLS && OneBit(lens) && n <= |lens|
    ensures OneBitTrie(Grow(lens, n), |lens|, Count(lens[..n], 1))
    decreases n
  {
    hide Code, InsertCode;
    if n > 0 {
      OneBitGrown(lens, n - 1);
      OneBitCode(lens, n - 1);
      assert lens[..n][..n - 1] == lens[..n - 1];
      var t, c := Grow(lens, n - 1), Count(lens[..n - 1], 1);
      if lens[n - 1] == 1 {
        OneBitInserted(t, |lens|, c, n - 1);
      } else {
        NothingInserted(t, |lens|, n - 1);
      }
    }
  }

  lemma NothingInserted(t: Trie, m: nat, n: nat)
    requires 2 <= m <= MAX_SYMBOLS && |t.cells| == 2 * m
    ensures InsertCode(t, m, [], n) == t
  {
  }

  /** Of the lists of one-bit codes, for an alphabet of any size, the builder accepts exactly those of up to three
      symbols, though three are oversubscribed: the last one is lost. */
  lemma OversubscribedFits(lens: seq<nat>)
    requires 2 <= |lens| <= MAX_SYMBOLS && OneBit(lens)
    ensures TreeFits(lens) <==> Count(lens, 1) <= 3
    ensures Feasible(lens, 15) <==> Count(lens, 1) <= 2
    ensures Count(lens, 1) == 3 ==> !Serves(Tree(lens), lens)
  {
    hide Serves, Tree, Grow, KraftSum;
    OneBitGrown(lens, |lens|);
    assert lens[..|lens|] == lens;
    OneBitKraft(lens);
    assert Pow2(15) == 2 * Pow2(14);
    Multiples(Count(lens, 1), Pow2(14));
    if Count(lens, 1) == 3 { ServesIff(lens, 15); }
  }

  lemma Multiples(c: nat, p: nat)
    requires p > 0
    ensures c * p <= 2 * p <==> c <= 2
  {
    if c > 2 { assert c * p == 2 * p + (c - 2) * p; }
  }

  /** Any three symbols of an alphabet: of the 19 code lengths, the 32 distances, or the 288 literals and lengths with
      the end code among them. */
  lemma ThreeSymbols(m: nat, a: nat, b: nat, c: nat)
    requires a < b < c < m <= MAX_SYMBOLS
    ensures var lens := seq(m, i => if i == a || i == b || i == c then 1 else 0);
            OneBit(lens) && Count(lens, 1) == 3 && TreeFits(lens) && !Feasible(lens, 15) && !Serves(Tree(lens), lens)
  {
    hide Serves, Tree, TreeFits, Feasible;
    var lens: seq<nat> := seq(m, i => if i == a || i == b || i == c then 1 else 0);
    ThreeCounted(lens, a, b, c, m);
    assert lens[..m] == lens;
    OversubscribedFits(lens);
  }

  lemma {:induction false} ThreeCounted(lens: seq<nat>, a: nat, b: nat, c: nat, n: nat)
    requires a < b < c && n <= |lens|
    requires forall i :: 0 <= i < |lens| ==> lens[i] == if i == a || i == b || i == c then 1 else 0
    ensures Count(lens[..n], 1) == (if a < n then 1 else 0) + (if b < n then 1 else 0) + (if c < n then 1 else 0)
    decreases n
  {
    if n > 0 {
      ThreeCounted(lens, a, b, c, n - 1);
      assert lens[..n][..n - 1] == lens[..n - 1];
    }
  }

  // ----- Shape of the tree for any lengths at all

  /** Node addresses point forward and stay inside the array. */
  ghost predicate Ordered(cells: seq<nat>, m: nat) {
    && |cells| == 2 * m
    && forall q :: 0 <= q < 2 * m ==> cells[q] < m || m + q / 2 < cells[q] <= 2 * m - 2
  }

  /** The same while the tree grows, where cells may still be unused. */
  ghost predicate Growing(t: Trie, m: nat) {
    && 2 <= m <= MAX_SYMBOLS && |t.cells| == 2 * m && t.filled < m
    && (forall q :: 0 <= q < 2 * m ==>
         t.cells[q] == EMPTY || t.cells[q] < m || m + q / 2 < t.cells[q] <= m + t.filled)
    && (t.pos <= t.filled || t.pos > m)
  }

  lemma {:induction false} InsertCodeOrdered(t: Trie, m: nat, code: seq<bit>, n: nat)
    requires Growing(t, m) && n < m && t.ok
    requires t.filled + 2 <= m || (t.pos == t.filled && code != [])
    ensures var r := InsertCode(t, m, code, n); r.ok ==> Growing(r, m) && r.filled + 2 <= m
    decreases |code|
  {
    if code != [] {
      var t' := InsertBit(t, m, code[0], |code| == 1, n);
      if t'.ok {
        InsertCodeOrdered(t', m, code[1..], n);
      } else {
        StuckStaysStuck(t', m, code[1..], n);
      }
    }
  }

  lemma {:induction false} GrowOrdered(lens: seq<nat>, n: nat)
    requires 2 <= |lens| <= MAX_SYMBOLS && n <= |lens|
    ensures var t := Grow(lens, n); t.ok ==> Growing(t, |lens|) && t.filled + 2 <= |lens|
  {
    if n > 0 {
      GrowOrdered(lens, n - 1);
      var t := Grow(lens, n - 1);
      if t.ok {
        InsertCodeOrdered(t, |lens|, Code(lens, n - 1), n - 1);
      } else {
        StuckStaysStuck(t, |lens|, Code(lens, n - 1), n - 1);
      }
    }
  }

  /** Whatever the lengths, a tree built without error only points forward. */
  lemma FittingTreeIsOrdered(lens: seq<nat>)
    requires 2 <= |lens| <= MAX_SYMBOLS && TreeFits(lens)
    ensures Ordered(Tree(lens), |lens|)
  {
    GrowOrdered(lens, |lens|);
  }

  // ----- Decoding

  /** Result of decoding one symbol: the symbol and the bit position after it, or an error. */
  datatype Decoded = Symbol(n: nat, bp: nat) | Malformed

  /** Walk down from node pos, one input bit a step. The end of the input is only checked at byte boundaries. */
  function DecodeFrom(cells: seq<nat>, m: nat, src: Source, bp: nat, pos: nat): (d: Decoded)
    requires |cells| == 2 * m && src.Padded() && bp <= src.Limit() && pos < m
    ensures d.Symbol? ==> bp < d.bp <= src.Limit() && d.n < m
    decreases src.Limit() - bp
  {
    if src.PastEnd(bp) then Malformed
    else
      var c := cells[2 * pos + src.bits[bp]];
      if c < m then Symbol(c, bp + 1)
      else if c - m >= m then Malformed
      else DecodeFrom(cells, m, src, bp + 1, c - m)
  }

  function Decode(cells: seq<nat>, m: nat, src: Source, bp: nat): (d: Decoded)
    requires |cells| == 2 * m && m > 0 && src.Padded() && bp <= src.Limit()
    ensures d.Symbol? ==> bp < d.bp <= src.Limit() && d.n < m
  {
    DecodeFrom(cells, m, src, bp, 0)
  }

  /** Decoding follows exactly one path: it returns n after the bits that lead to n. */
  lemma {:induction false} DecodeIsPath(cells: seq<nat>, m: nat, src: Source, bp: nat, pos: nat)
    requires |cells| == 2 * m && src.Padded() && bp <= src.Limit() && pos < m
    ensures var d := DecodeFrom(cells, m, src, bp, pos);
            d.Symbol? ==> Leads(cells, m, pos, src.bits[bp..d.bp], d.n)
    decreases src.Limit() - bp
  {
    var d := DecodeFrom(cells, m, src, bp, pos);
    if d.Symbol? {
      var c := cells[2 * pos + src.bits[bp]];
      if c >= m {
        DecodeIsPath(cells, m, src, bp + 1, c - m);
        assert src.bits[bp..d.bp][1..] == src.bits[bp + 1..d.bp];
      }
    }
  }

  lemma {:induction false} DecodePath(cells: seq<nat>, m: nat, src: Source, bp: nat, pos: nat, code: seq<bit>, n: nat)
    requires |cells| == 2 * m && src.Padded() && Leads(cells, m, pos, code, n)
    requires BitsAt(src.bits, bp, code) && bp + |code| <= 8 * (src.inlength + 1)
    ensures DecodeFrom(cells, m, src, bp, pos) == Symbol(n, bp + |code|)
    decreases |code|
  {
    var c := cells[2 * pos + code[0]];
    assert code == [code[0]] + code[1..];
    BitsAtSplit(src.bits, bp, [code[0]], code[1..]);
    assert src.bits[bp] == code[0] by {
      assert src.bits[bp..bp + |code|][0] == code[0];
    }
    src.InsideIsNotPastEnd(bp);
    if |code| > 1 {
      DecodePath(cells, m, src, bp + 1, c - m, code[1..], n);
    }
  }

  /** A tree in which every symbol in use is found by its standard code. */
  ghost predicate Serves(cells: seq<nat>, lens: seq<nat>) {
    |cells| == 2 * |lens| && AllLead(cells, lens, |lens|)
  }

  lemma TreeServes(lens: seq<nat>, maxLen: nat)
    requires 2 <= |lens| <= MAX_SYMBOLS && Feasible(lens, maxLen) && TreeFits(lens)
    ensures Serves(Tree(lens), lens)
  {
    forall n | 0 <= n < |lens| ensures Found(Tree(lens), lens, n) {
      if lens[n] > 0 {
        TreeHoldsCodes(lens, maxLen, n);
      }
    }
  }

  lemma ServedSymbol(cells: seq<nat>, lens: seq<nat>, src: Source, bp: nat, n: nat)
    requires Serves(cells, lens) && src.Padded() && n < |lens| && lens[n] > 0
    requires BitsAt(src.bits, bp, Code(lens, n)) && bp + lens[n] <= 8 * (src.inlength + 1)
    ensures Decode(cells, |lens|, src, bp) == Symbol(n, bp + lens[n])
  {
    assert Found(cells, lens, n);
    DecodePath(cells, |lens|, src, bp, 0, Code(lens, n), n);
  }

  /** Round trip: the bits of a symbol's code decode to that symbol and advance by exactly its length. */
  lemma HuffmanRoundTrip(lens: seq<nat>, maxLen: nat, src: Source, bp: nat, n: nat)
    requires 2 <= |lens| <= MAX_SYMBOLS && Feasible(lens, maxLen) && TreeFits(lens) && src.Padded()
    requires n < |lens| && lens[n] > 0
    requires BitsAt(src.bits, bp, Code(lens, n)) && bp + lens[n] <= 8 * (src.inlength + 1)
    ensures Decode(Tree(lens), |lens|, src, bp) == Symbol(n, bp + lens[n])
  {
    TreeServes(lens, maxLen);
    ServedSymbol(Tree(lens), lens, src, bp, n);
  }

  /** On a tree that only points forward a symbol takes fewer bits than there are symbols,
      and only the end of the input can stop the decoder. */
  lemma {:induction false} OrderedDecode(cells: seq<nat>, m: nat, src: Source, bp: nat, pos: nat)
    requires Ordered(cells, m) && src.Padded() && bp <= src.Limit() && pos <= m - 2
    ensures var d := DecodeFrom(cells, m, src, bp, pos);
            && (d.Symbol? ==> d.bp <= bp + (m - 1 - pos))
            && (bp + (m - 1 - pos) <= 8 * (src.inlength + 1) ==> d.Symbol?)
    decreases m - pos
  {
    if !src.PastEnd(bp) {
      var q := 2 * pos + src.bits[bp];
      assert q / 2 == pos;
      if cells[q] >= m {
        OrderedDecode(cells, m, src, bp + 1, cells[q] - m);
      }
    }
  }

  /** Bound on one symbol for any lengths whose tree was built without error. */
  lemma SymbolBitBound(lens: seq<nat>, src: Source, bp: nat)
    requires 2 <= |lens| <= MAX_SYMBOLS && TreeFits(lens) && src.Padded() && bp <= src.Limit()
    ensures var d := Decode(Tree(lens), |lens|, src, bp);
            && (d.Symbol? ==> d.bp < bp + |lens|)
            && (bp + |lens| - 1 <= 8 * (src.inlength + 1) ==> d.Symbol?)
  {
    FittingTreeIsOrdered(lens);
    OrderedDecode(Tree(lens), |lens|, src, bp, 0);
  }

  /** A symbol's bits all stand at most one byte behind the input, and a walk that comes to the end of that byte is an
      error. */
  lemma {:induction false} DecodeEnds(cells: seq<nat>, m: nat, src: Source, bp: nat, pos: nat)
    requires |cells| == 2 * m && src.Padded() && bp <= 8 * (src.inlength + 1) && pos < m
    ensures bp <= src.Limit()
    ensures bp == 8 * (src.inlength + 1) ==> DecodeFrom(cells, m, src, bp, pos) == Malformed
    ensures var d := DecodeFrom(cells, m, src, bp, pos); d.Symbol? ==> d.bp <= 8 * (src.inlength + 1)
    decreases 8 * (src.inlength + 1) - bp
  {
    if bp < 8 * (src.inlength + 1) {
      var c := cells[2 * pos + src.bits[bp]];
      if m <= c < 2 * m { DecodeEnds(cells, m, src, bp + 1, c - m); }
    }
  }
}
