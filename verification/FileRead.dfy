/** Reading files: the byte loop over an inode's data blocks, against the flat contents of the file. */
module FileRead {
  import opened Bits

  const FILE_BLOCK_SIZE_IN_BYTES := 4096

  /** Words of an inode: the length of the file and the block numbers. */
  const INODE_WORDS := 1024
  const INODE_BLOCKS := 1023

  /** Block of a file that the offset is in, and the place in the block. */
  function Index(offset: nat): nat {
    offset / FILE_BLOCK_SIZE_IN_BYTES
  }

  function Within(offset: nat): (r: nat)
    ensures r < FILE_BLOCK_SIZE_IN_BYTES
  {
    offset % FILE_BLOCK_SIZE_IN_BYTES
  }

  class FileSystem {
    const inodeNum: nat
    const dataBlockNum: nat
    /** All inodes, as 32-bit words, and whatever memory follows them. */
    const words: seq<nat>
    const blocks: seq<seq<byte>>

    /** A file system with these counts in its boot block and these inodes and data blocks in memory. */
    constructor (inodeNum: nat, dataBlockNum: nat, words: seq<nat>, blocks: seq<seq<byte>>)
      ensures this.inodeNum == inodeNum && this.dataBlockNum == dataBlockNum
      ensures this.words == words && this.blocks == blocks
    {
      this.inodeNum, this.dataBlockNum, this.words, this.blocks := inodeNum, dataBlockNum, words, blocks;
    }

    predicate Valid() {
      && inodeNum * INODE_WORDS <= |words| && dataBlockNum <= |blocks|
      && forall b :: 0 <= b < |blocks| ==> |blocks[b]| == FILE_BLOCK_SIZE_IN_BYTES
    }

    predicate IsInode(inode: nat) {
      inode < inodeNum && (inode + 1) * INODE_WORDS <= |words|
    }

    function Length(inode: nat): nat
      requires IsInode(inode)
    {
      words[inode * INODE_WORDS]
    }

    /** data_block_num[index] of the inode is in memory. */
    predicate Mapped(inode: nat, index: nat) {
      inode * INODE_WORDS + 1 + index < |words|
    }

    function BlockNum(inode: nat, index: nat): nat
      requires Mapped(inode, index)
    {
      words[inode * INODE_WORDS + 1 + index]
    }

    predicate Usable(inode: nat, offset: nat) {
      Mapped(inode, Index(offset)) && BlockNum(inode, Index(offset)) < dataBlockNum
    }

    /** The byte of the file at the offset. */
    function ByteAt(inode: nat, offset: nat): byte
      requires Valid() && Usable(inode, offset)
    {
      blocks[BlockNum(inode, Index(offset))][Within(offset)]
    }

    /** b is the byte of the file at the offset. */
    predicate Holds(inode: nat, offset: nat, b: byte)
      requires Valid()
    {
      Usable(inode, offset) && b == ByteAt(inode, offset)
    }

    /** Inodes are 1024 words: the length of the file and then a block number for each 4096 bytes. */
    lemma BytesMean(inode: nat, i: nat)
      requires Valid() && IsInode(inode)
      ensures 1024 * inode < |words| && Length(inode) == words[1024 * inode]
      ensures var w := 1024 * inode + 1 + i / 4096;
              && (Usable(inode, i) <==> w < |words| && words[w] < dataBlockNum)
              && (Usable(inode, i) ==> i % 4096 < |blocks[words[w]]| && ByteAt(inode, i) == blocks[words[w]][i % 4096])
    {
    }

    /** Bytes there are from the offset on, up to length: until the file ends or a block number is bad. */
    function Readable(inode: nat, offset: nat, length: nat): (n: nat)
      requires Valid() && IsInode(inode)
      ensures n <= length
      decreases length
    {
      if length == 0 || offset >= Length(inode) || !Usable(inode, offset) then 0
      else 1 + Readable(inode, offset + 1, length - 1)
    }

    /** It is the largest such number. */
    lemma {:induction false} ReadableMost(inode: nat, offset: nat, length: nat)
      requires Valid() && IsInode(inode)
      ensures var n := Readable(inode, offset, length);
              && (forall i: nat :: offset <= i < offset + n ==> Usable(inode, i) && i < Length(inode))
              && (n == length || offset + n >= Length(inode) || !Usable(inode, offset + n))
      decreases length
    {
      hide Usable, Length;
      if length > 0 && offset < Length(inode) && Usable(inode, offset) { ReadableMost(inode, offset + 1, length - 1); }
    }

    /** The block numbers that a read looks at are in memory: that of its offset, and those up to where the request or
        the file ends. */
    predicate Reaches(inode: nat, offset: nat, length: nat)
      requires IsInode(inode)
    {
      Mapped(inode, Index(offset)) && Mapped(inode, Index(Min(offset + length, Length(inode))))
    }

    /** read_data. Beyond the bytes that are read the buffer is not touched. */
    method ReadData(inode: nat, offset: nat, buf: array<byte>, length: nat) returns (ret: int)
      requires Valid() && length <= buf.Length
      requires inode < inodeNum ==> IsInode(inode) && Reaches(inode, offset, length)
      modifies buf
      ensures ret == -1 <==> inode >= inodeNum || !Usable(inode, offset)
      ensures ret != -1 ==> ret == Readable(inode, offset, length)
      ensures ret >= 0 ==> (forall i :: 0 <= i < ret ==> Holds(inode, offset + i, buf[i]))
      ensures forall i :: (if ret == -1 then 0 else ret) <= i < buf.Length ==> buf[i] == old(buf[i])
    {
      hide ByteAt, Usable, BlockNum, Mapped, Index, Within, Readable, Reaches;
      if inode >= inodeNum { return -1; }
      var fileLength := Length(inode);
      var bytesRead := 0;
      var pos := offset;
      var index := pos / FILE_BLOCK_SIZE_IN_BYTES;
      Split(pos);
      UsableIs(inode, pos);
      StillMapped(inode, offset, 0, length);
      var num := BlockNum(inode, index);
      var within := pos - index * FILE_BLOCK_SIZE_IN_BYTES;
      if num >= dataBlockNum { return -1; }
      while bytesRead < length
        invariant 0 <= bytesRead <= length && pos == offset + bytesRead
        invariant index == Index(pos) && within == Within(pos)
        invariant Mapped(inode, index) && num == BlockNum(inode, index) < dataBlockNum
        invariant bytesRead + Readable(inode, pos, length - bytesRead) == Readable(inode, offset, length)
        invariant forall i :: 0 <= i < bytesRead ==> Holds(inode, offset + i, buf[i])
        invariant forall i :: bytesRead <= i < buf.Length ==> buf[i] == old(buf[i])
      {
        if pos >= fileLength { break; }
        UsableIs(inode, pos);
        buf[bytesRead] := blocks[num][within];
        Readable1(inode, pos, length - bytesRead);
        bytesRead := bytesRead + 1;
        pos := pos + 1;
        within := within + 1;
        StillMapped(inode, offset, bytesRead, length);
        NextByte(pos - 1);
        if within >= FILE_BLOCK_SIZE_IN_BYTES {
          within := within - FILE_BLOCK_SIZE_IN_BYTES;
          index := index + 1;
          num := BlockNum(inode, index);
          if num >= dataBlockNum {
            UsableIs(inode, pos);
            Readable1(inode, pos, length - bytesRead);
            return bytesRead;
          }
        }
      }
      Readable1(inode, pos, length - bytesRead);
      return bytesRead;
    }

    lemma UsableIs(inode: nat, pos: nat)
      requires Valid()
      ensures Mapped(inode, Index(pos)) ==>
        (Usable(inode, pos) == (BlockNum(inode, Index(pos)) < dataBlockNum))
      ensures Usable(inode, pos) ==>
        ByteAt(inode, pos) == blocks[BlockNum(inode, Index(pos))][Within(pos)]
      ensures Usable(inode, pos) ==> Mapped(inode, Index(pos))
    {
    }

    lemma Readable1(inode: nat, pos: nat, length: nat)
      requires Valid() && IsInode(inode)
      ensures length > 0 && pos < Length(inode) && Usable(inode, pos) ==>
        Readable(inode, pos, length) == 1 + Readable(inode, pos + 1, length - 1)
      ensures length == 0 || pos >= Length(inode) || !Usable(inode, pos) ==> Readable(inode, pos, length) == 0
    {
    }

    lemma StillMapped(inode: nat, offset: nat, n: nat, length: nat)
      requires IsInode(inode) && Reaches(inode, offset, length)
      requires n == 0 || (n <= length && offset + n <= Length(inode))
      ensures Mapped(inode, Index(offset + n))
    {
      if n > 0 { assert Index(offset + n) <= Index(Min(offset + length, Length(inode))); }
    }

    // ----- Whole files

    /** The file is shorter than an inode can map, and all its block numbers are good. */
    ghost predicate GoodFile(inode: nat) {
      && Valid() && IsInode(inode) && Length(inode) < INODE_BLOCKS * FILE_BLOCK_SIZE_IN_BYTES
      && forall j :: 0 <= j < INODE_BLOCKS ==> Mapped(inode, j) && BlockNum(inode, j) < dataBlockNum
    }

    lemma GoodBytes(inode: nat)
      requires GoodFile(inode)
      ensures forall i: nat :: i <= Length(inode) ==> Usable(inode, i)
    {
      forall i: nat | i <= Length(inode) ensures Usable(inode, i) {
        assert Index(i) < INODE_BLOCKS;
      }
    }

    /** The contents of a good file: its blocks one after the other, cut at its length. */
    ghost function Contents(inode: nat): (c: seq<byte>)
      requires GoodFile(inode)
      ensures |c| == Length(inode)
    {
      GoodBytes(inode);
      seq<byte>(Length(inode), i requires 0 <= i < Length(inode) => ByteAt(inode, i))
    }

    /** From an offset in a good file there is what is asked for, or the rest of the file. */
    lemma {:induction false} ReadableRest(inode: nat, offset: nat, length: nat)
      requires GoodFile(inode) && offset <= Length(inode)
      ensures Readable(inode, offset, length) == Min(length, Length(inode) - offset)
      decreases length
    {
      GoodBytes(inode);
      if length > 0 && offset < Length(inode) { ReadableRest(inode, offset + 1, length - 1); }
    }

    lemma GoodReach(inode: nat, offset: nat, length: nat)
      requires GoodFile(inode) && offset <= Length(inode)
      ensures Reaches(inode, offset, length)
    {
      hide BlockNum;
      assert Index(Length(inode)) < INODE_BLOCKS;
      assert Index(Min(offset + length, Length(inode))) <= Index(Length(inode))
             && Index(offset) <= Index(Length(inode));
    }

    /** read_data on a good file, from an offset up to its end: a slice of the contents. */
    method ReadGood(inode: nat, offset: nat, buf: array<byte>, length: nat) returns (n: nat)
      requires GoodFile(inode) && offset <= Length(inode) && length <= buf.Length
      modifies buf
      ensures n == Min(length, Length(inode) - offset) && buf[..n] == Contents(inode)[offset..offset + n]
      ensures forall i :: n <= i < buf.Length ==> buf[i] == old(buf[i])
    {
      hide ByteAt, Usable, BlockNum, Mapped, Reaches;
      GoodBytes(inode);
      GoodReach(inode, offset, length);
      ReadableRest(inode, offset, length);
      n := ReadData(inode, offset, buf, length);
    }
  }

  lemma Split(pos: nat)
    ensures Index(pos) == pos / FILE_BLOCK_SIZE_IN_BYTES
    ensures Within(pos) == pos - pos / FILE_BLOCK_SIZE_IN_BYTES * FILE_BLOCK_SIZE_IN_BYTES
  {
  }

  lemma NextByte(pos: nat)
    ensures Within(pos) + 1 < FILE_BLOCK_SIZE_IN_BYTES ==>
      Index(pos + 1) == Index(pos) && Within(pos + 1) == Within(pos) + 1
    ensures Within(pos) + 1 >= FILE_BLOCK_SIZE_IN_BYTES ==>
      Index(pos + 1) == Index(pos) + 1 && Within(pos + 1) == 0
  {
  }

  function Min(a: int, b: int): int {
    if a < b then a else b
  }

  /** An entry of a task's file array. */
  class OpenFile {
    const fs: FileSystem
    const inode: nat
    var filePosition: nat

    /** file_open of a file with this inode. */
    constructor (fs: FileSystem, inode: nat)
      ensures this.fs == fs && this.inode == inode && filePosition == 0
    {
      this.fs, this.inode, filePosition := fs, inode, 0;
    }

    /** file_read of a good file: the next piece of its contents. */
    method Read(buf: array<byte>, nbytes: nat) returns (ret: nat)
      requires fs.GoodFile(inode) && filePosition <= fs.Length(inode) && nbytes <= buf.Length
      modifies this, buf
      ensures ret <= nbytes && filePosition == old(filePosition) + ret <= fs.Length(inode)
      ensures buf[..ret] == Piece(fs.Contents(inode), old(filePosition), nbytes)
    {
      hide FileSystem.GoodFile, FileSystem.Contents, FileSystem.Mapped;
      ret := fs.ReadGood(inode, filePosition, buf, nbytes);
      filePosition := filePosition + ret;
    }

    /** Reads of the given sizes, one after the other: their pieces, and the position behind the last one. */
    method ReadSeries(sizes: seq<nat>) returns (pieces: seq<seq<byte>>)
      requires fs.GoodFile(inode) && filePosition <= fs.Length(inode)
      modifies this
      ensures pieces == Pieces(fs.Contents(inode), old(filePosition), sizes)
      ensures filePosition == old(filePosition) + Min(Sum(sizes), fs.Length(inode) - old(filePosition))
      ensures Joined(pieces) == fs.Contents(inode)[old(filePosition)..filePosition]
    {
      hide FileSystem.GoodFile, FileSystem.Contents, Pieces, Piece, Sum, Joined;
      ghost var contents, start := fs.Contents(inode), filePosition;
      pieces := [];
      NoPieces(contents, start);
      for i := 0 to |sizes|
        invariant start <= filePosition <= |contents|
        invariant pieces == Pieces(contents, start, sizes[..i])
        invariant filePosition == start + Min(Sum(sizes[..i]), |contents| - start)
      {
        var buf := new byte[sizes[i]];
        NextPiece(contents, start, sizes[..i], sizes[i]);
        assert sizes[..i + 1] == sizes[..i] + [sizes[i]];
        var ret := Read(buf, sizes[i]);
        pieces := pieces + [buf[..ret]];
      }
      assert sizes[..|sizes|] == sizes;
      ReadsJoin(contents, start, sizes);
    }
  }

  // ----- Series of reads

  /** What one read of n bytes at pos gives. */
  function Piece(contents: seq<byte>, pos: nat, n: nat): (p: seq<byte>)
    requires pos <= |contents|
    ensures |p| <= |contents| - pos
  {
    contents[pos..pos + Min(n, |contents| - pos)]
  }

  /** What reads of the given sizes give, one after the other. */
  function Pieces(contents: seq<byte>, pos: nat, sizes: seq<nat>): (p: seq<seq<byte>>)
    requires pos <= |contents|
    ensures |p| == |sizes|
    decreases |sizes|
  {
    if sizes == [] then []
    else [Piece(contents, pos, sizes[0])] + Pieces(contents, pos + |Piece(contents, pos, sizes[0])|, sizes[1..])
  }

  function Joined(pieces: seq<seq<byte>>): seq<byte> {
    if pieces == [] then [] else pieces[0] + Joined(pieces[1..])
  }

  function Sum(sizes: seq<nat>): nat {
    if sizes == [] then 0 else sizes[0] + Sum(sizes[1..])
  }

  /** The pieces join to the contents read so far. */
  lemma {:induction false} ReadsJoin(contents: seq<byte>, pos: nat, sizes: seq<nat>)
    requires pos <= |contents|
    ensures Joined(Pieces(contents, pos, sizes)) == contents[pos..pos + Min(Sum(sizes), |contents| - pos)]
    decreases |sizes|
  {
    hide Pieces, Joined;
    JoinFirst(contents, pos, sizes);
    if sizes != [] {
      var mid := pos + |Piece(contents, pos, sizes[0])|;
      ReadsJoin(contents, mid, sizes[1..]);
      var end := mid + Min(Sum(sizes[1..]), |contents| - mid);
      assert contents[pos..mid] + contents[mid..end] == contents[pos..end];
    }
  }

  lemma JoinFirst(contents: seq<byte>, pos: nat, sizes: seq<nat>)
    requires pos <= |contents|
    ensures sizes == [] ==> Joined(Pieces(contents, pos, sizes)) == []
    ensures sizes != [] ==> var first := Piece(contents, pos, sizes[0]);
      Joined(Pieces(contents, pos, sizes)) == first + Joined(Pieces(contents, pos + |first|, sizes[1..]))
  {
    hide Piece;
    if sizes != [] {
      assert Pieces(contents, pos, sizes)[1..] == Pieces(contents, pos + |Piece(contents, pos, sizes[0])|, sizes[1..]);
    }
  }

  lemma NoPieces(contents: seq<byte>, pos: nat)
    requires pos <= |contents|
    ensures Pieces(contents, pos, []) == [] && Sum([]) == 0
  {
  }

  /** One read more. */
  lemma {:induction false} NextPiece(contents: seq<byte>, pos: nat, sizes: seq<nat>, n: nat)
    requires pos <= |contents|
    ensures var at := pos + Min(Sum(sizes), |contents| - pos);
            && Pieces(contents, pos, sizes + [n]) == Pieces(contents, pos, sizes) + [Piece(contents, at, n)]
            && Sum(sizes + [n]) == Sum(sizes) + n
            && at + |Piece(contents, at, n)| == pos + Min(Sum(sizes) + n, |contents| - pos)
    decreases |sizes|
  {
    hide Piece, Pieces;
    FirstPiece(contents, pos, sizes + [n]);
    FirstPiece(contents, pos, sizes);
    if sizes == [] {
      assert (sizes + [n])[1..] == [];
      NoPieces(contents, pos + |Piece(contents, pos, n)|);
    } else {
      assert (sizes + [n])[1..] == sizes[1..] + [n];
      NextPiece(contents, pos + |Piece(contents, pos, sizes[0])|, sizes[1..], n);
    }
    PieceLength(contents, pos, n);
  }

  lemma FirstPiece(contents: seq<byte>, pos: nat, sizes: seq<nat>)
    requires pos <= |contents|
    ensures sizes == [] ==> Pieces(contents, pos, sizes) == [] && Sum(sizes) == 0
    ensures sizes != [] ==>
              var p := Piece(contents, pos, sizes[0]);
              && |p| == Min(sizes[0], |contents| - pos)
              && Pieces(contents, pos, sizes) == [p] + Pieces(contents, pos + |p|, sizes[1..])
              && Sum(sizes) == sizes[0] + Sum(sizes[1..])
  {
  }

  lemma PieceLength(contents: seq<byte>, pos: nat, n: nat)
    requires pos <= |contents|
    ensures |Piece(contents, pos, n)| == Min(n, |contents| - pos)
  {
  }

  /** A read gives nothing exactly when nothing is asked for, or the reads before it have reached the end. */
  lemma {:induction false} EmptyRead(contents: seq<byte>, pos: nat, sizes: seq<nat>, i: nat)
    requires pos <= |contents| && i < |sizes|
    ensures Pieces(contents, pos, sizes)[i] == [] <==> sizes[i] == 0 || pos + Sum(sizes[..i]) >= |contents|
    decreases |sizes|
  {
    if i > 0 {
      var first := Piece(contents, pos, sizes[0]);
      EmptyRead(contents, pos + |first|, sizes[1..], i - 1);
      assert Pieces(contents, pos, sizes)[i] == Pieces(contents, pos + |first|, sizes[1..])[i - 1];
      assert sizes[..i][1..] == sizes[1..][..i - 1];
    }
  }

  /** Reads of any positive sizes, enough of them, give the whole file and then nothing for ever. */
  lemma WholeFileRead(contents: seq<byte>, sizes: seq<nat>, more: seq<nat>)
    requires (forall i :: 0 <= i < |sizes| ==> sizes[i] > 0) && |sizes| >= |contents|
    ensures Joined(Pieces(contents, 0, sizes)) == contents
    ensures forall p :: p in Pieces(contents, |contents|, more) ==> p == []
  {
    SumAtLeast(sizes);
    ReadsJoin(contents, 0, sizes);
    forall i: nat | i < |more| ensures Pieces(contents, |contents|, more)[i] == [] {
      EmptyRead(contents, |contents|, more, i);
    }
  }

  lemma {:induction false} SumAtLeast(sizes: seq<nat>)
    requires forall i :: 0 <= i < |sizes| ==> sizes[i] > 0
    ensures Sum(sizes) >= |sizes|
  {
    if sizes != [] { SumAtLeast(sizes[1..]); }
  }
}
