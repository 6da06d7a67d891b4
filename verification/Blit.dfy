/** Screen-to-screen copies of possibly overlapping rectangles: the start addresses and the direction that are given to
    the blitter, which is modelled as a byte loop over video memory. */
module Blit {

  const FORWARDS := 0
  const BACKWARDS := 1

  /** Byte address of a row and a byte column. */
  function Addr(row: int, col: int, pitch: int): int {
    row * pitch + col
  }

  function Row(a: int, pitch: int): int
    requires pitch > 0
  {
    a / pitch
  }

  function Col(a: int, pitch: int): int
    requires pitch > 0
  {
    a % pitch
  }

  lemma AddrRow(row: int, col: int, pitch: int)
    requires 0 <= col < pitch
    ensures Row(Addr(row, col, pitch), pitch) == row && Col(Addr(row, col, pitch), pitch) == col
  {
    var a := row * pitch + col;
    var q, r := a / pitch, a % pitch;
    assert q * pitch + r == row * pitch + col;
    assert (row - q) * pitch == row * pitch - q * pitch;
    if q < row { Mul(row - q - 1, pitch); }
    if q > row { Mul(q - row - 1, pitch); }
  }

  lemma Mul(n: int, pitch: int)
    requires n >= 0 && pitch > 0
    ensures (n + 1) * pitch >= pitch
  {
  }

  lemma AddrOf(a: int, pitch: int)
    requires pitch > 0
    ensures Addr(Row(a, pitch), Col(a, pitch), pitch) == a && 0 <= Col(a, pitch) < pitch
  {
  }

  lemma AddrPlus(row: int, col: int, r: int, c: int, pitch: int)
    ensures Addr(row + r, col + c, pitch) == Addr(row, col, pitch) + r * pitch + c
  {
    assert (row + r) * pitch == row * pitch + r * pitch;
  }

  /** Rows y to y + height and byte columns x to x + width, on the screen and in memory. */
  datatype Rect = Rect(x: int, y: int, width: int, height: int)

  predicate OnScreen(b: Rect, pitch: int, size: int) {
    && 0 <= b.x && 0 <= b.y && 0 <= b.width && 0 <= b.height && b.x + b.width <= pitch
    && Addr(b.y + b.height, 0, pitch) <= size
  }

  predicate InRect(a: int, b: Rect, pitch: int)
    requires pitch > 0
  {
    b.y <= Row(a, pitch) < b.y + b.height && b.x <= Col(a, pitch) < b.x + b.width
  }

  lemma InMemory(b: Rect, row: int, col: int, pitch: int, size: int)
    requires pitch > 0 && OnScreen(b, pitch, size) && b.y <= row < b.y + b.height && b.x <= col < b.x + b.width
    ensures 0 <= Addr(row, col, pitch) < size
  {
    AddrPlus(row, 0, b.y + b.height - row, 0, pitch);
    Mul(b.y + b.height - row - 1, pitch);
    if row > 0 { Mul(row - 1, pitch); }
  }

  /** Where the byte for destination address a comes from. */
  function Source(a: int, from: Rect, to: Rect, pitch: int): int
    requires pitch > 0
  {
    Addr(Row(a, pitch) - to.y + from.y, Col(a, pitch) - to.x + from.x, pitch)
  }

  /** Which destination bytes are already written, row by row and column by column. */
  predicate Done(a: int, to: Rect, row: int, col: int, dir: int, pitch: int)
    requires pitch > 0
  {
    InRect(a, to, pitch) &&
    if dir == FORWARDS then Row(a, pitch) < row || (Row(a, pitch) == row && Col(a, pitch) < col)
    else Row(a, pitch) > row || (Row(a, pitch) == row && Col(a, pitch) > col)
  }

  ghost predicate Progress(before: seq<int>, now: seq<int>, from: Rect, to: Rect, row: int, col: int, dir: int,
                           pitch: int)
    requires pitch > 0
  {
    && |now| == |before|
    && (forall a :: 0 <= a < |now| && Done(a, to, row, col, dir, pitch) ==>
        Taken(before, now, a, Source(a, from, to, pitch)))
    && (forall a :: 0 <= a < |now| && !Done(a, to, row, col, dir, pitch) ==> now[a] == before[a])
  }

  predicate Taken(before: seq<int>, now: seq<int>, a: int, s: int) {
    0 <= a < |now| && 0 <= s < |before| && now[a] == before[s]
  }

  /** The direction suits the two rectangles: no byte is overwritten before it is read. */
  predicate Safe(from: Rect, to: Rect, dir: int) {
    || from.y + from.height <= to.y
    || (dir == FORWARDS && (from.y > to.y || (from.y == to.y && from.x >= to.x)))
    || (dir == BACKWARDS && (from.y < to.y || (from.y == to.y && from.x <= to.x)))
  }

  predicate SameSize(from: Rect, to: Rect) {
    from.width == to.width && from.height == to.height
  }

  /** One byte more. */
  lemma OneByte(before: seq<int>, now: seq<int>, from: Rect, to: Rect, r: int, c: int, dir: int, pitch: int)
    requires pitch > 0 && OnScreen(from, pitch, |before|) && OnScreen(to, pitch, |before|) && SameSize(from, to)
    requires Safe(from, to, dir)
    requires 0 <= r < to.height && 0 <= c < to.width && (dir == FORWARDS || dir == BACKWARDS)
    requires Progress(before, now, from, to, to.y + r, to.x + c, dir, pitch)
    ensures var d := Addr(to.y + r, to.x + c, pitch); var s := Addr(from.y + r, from.x + c, pitch);
            && 0 <= d < |now| && 0 <= s < |now|
            && Progress(before, now[d := now[s]], from, to, to.y + r,
                        if dir == FORWARDS then to.x + c + 1 else to.x + c - 1, dir, pitch)
  {
    hide Addr, Row, Col;
    var d, s := Addr(to.y + r, to.x + c, pitch), Addr(from.y + r, from.x + c, pitch);
    InMemory(to, to.y + r, to.x + c, pitch, |before|);
    InMemory(from, from.y + r, from.x + c, pitch, |before|);
    AddrRow(to.y + r, to.x + c, pitch);
    AddrRow(from.y + r, from.x + c, pitch);
    assert !Done(s, to, to.y + r, to.x + c, dir, pitch);
    assert now[s] == before[s];
    var col' := if dir == FORWARDS then to.x + c + 1 else to.x + c - 1;
    var now' := now[d := now[s]];
    assert Source(d, from, to, pitch) == s;
    forall a | 0 <= a < |now|
      ensures Done(a, to, to.y + r, col', dir, pitch) ==> Taken(before, now', a, Source(a, from, to, pitch))
      ensures !Done(a, to, to.y + r, col', dir, pitch) ==> now'[a] == before[a]
    {
      AddrOf(a, pitch);
      if a != d { assert Done(a, to, to.y + r, col', dir, pitch) == Done(a, to, to.y + r, to.x + c, dir, pitch); }
    }
  }

  /** The end of a row is the start of the next. */
  lemma NextRow(before: seq<int>, now: seq<int>, from: Rect, to: Rect, row: int, dir: int, pitch: int)
    requires pitch > 0
    ensures dir == FORWARDS && Progress(before, now, from, to, row, to.x + to.width, dir, pitch) ==>
              Progress(before, now, from, to, row + 1, to.x, dir, pitch)
    ensures dir != FORWARDS && Progress(before, now, from, to, row, to.x - 1, dir, pitch) ==>
              Progress(before, now, from, to, row - 1, to.x + to.width - 1, dir, pitch)
  {
    hide Addr, Row, Col, Source;
    var end, start := to.x + to.width, to.x - 1;
    var down, up, last := row + 1, row - 1, to.x + to.width - 1;
    assert dir == FORWARDS ==> forall a :: Done(a, to, row, end, dir, pitch) == Done(a, to, down, to.x, dir, pitch);
    assert dir != FORWARDS ==> forall a :: Done(a, to, row, start, dir, pitch) == Done(a, to, up, last, dir, pitch);
  }

  class Blitter {
    const memory: array<int>
    const screenPitchInBytes: int
    const bytesPerPixel: int

    /** A screen of the given pitch over some graphics memory. */
    constructor (memory: array<int>, screenPitchInBytes: int, bytesPerPixel: int)
      requires screenPitchInBytes > 0 && bytesPerPixel > 0
      ensures Valid() && this.memory == memory
      ensures this.screenPitchInBytes == screenPitchInBytes && this.bytesPerPixel == bytesPerPixel
    {
      this.memory, this.screenPitchInBytes, this.bytesPerPixel := memory, screenPitchInBytes, bytesPerPixel;
    }

    predicate Valid() {
      screenPitchInBytes > 0 && bytesPerPixel > 0
    }

    /** BLTBYTEADDRESS. */
    function ByteAddress(x: int, y: int): int {
      y * screenPitchInBytes + x * bytesPerPixel
    }

    /** The engine copies height rows of width bytes, from the two start addresses up or down. */
    method Run(srcAddr: int, destAddr: int, width: int, height: int, dir: int, ghost from: Rect, ghost to: Rect)
      requires Valid() && OnScreen(from, screenPitchInBytes, memory.Length)
      requires OnScreen(to, screenPitchInBytes, memory.Length)
      requires SameSize(from, to) && width == to.width && height == to.height && Safe(from, to, dir)
      requires dir == FORWARDS ==>
               srcAddr == Addr(from.y, from.x, screenPitchInBytes) && destAddr == Addr(to.y, to.x, screenPitchInBytes)
      requires dir == BACKWARDS ==> srcAddr == Addr(from.y + height - 1, from.x + width - 1, screenPitchInBytes)
                                    && destAddr == Addr(to.y + height - 1, to.x + width - 1, screenPitchInBytes)
      requires dir == FORWARDS || dir == BACKWARDS
      modifies memory
      ensures Moved(old(memory[..]), memory[..], from, to, screenPitchInBytes)
    {
      hide Progress, Addr, Moved, InRect, OnScreen;
      var p := screenPitchInBytes;
      var step := if dir == FORWARDS then 1 else -1;
      ghost var row0 := if dir == FORWARDS then 0 else height - 1;
      ghost var col0 := if dir == FORWARDS then 0 else width - 1;
      ghost var before := memory[..];
      NoneDone(before, from, to, dir, p);
      Wide(to, p, |before|);
      var s, d, i := srcAddr, destAddr, 0;
      while i < height
        invariant 0 <= i <= height
        invariant s == Addr(from.y + row0 + step * i, from.x + col0, p)
        invariant d == Addr(to.y + row0 + step * i, to.x + col0, p)
        invariant Progress(before, memory[..], from, to, to.y + row0 + step * i, to.x + col0, dir, p)
      {
        ghost var r := row0 + step * i;
        CopyRow(s, d, width, dir, from, to, before, r);
        NextRow(before, memory[..], from, to, to.y + r, dir, p);
        AddrPlus(from.y + r, from.x + col0, step, 0, p);
        AddrPlus(to.y + r, to.x + col0, step, 0, p);
        s, d, i := s + step * p, d + step * p, i + 1;
      }
      AllDone(before, memory[..], from, to, dir, p);
    }

    /** One row. */
    method CopyRow(s: int, d: int, width: int, dir: int, ghost from: Rect, ghost to: Rect, ghost before: seq<int>,
                   ghost r: int)
      requires Valid() && |before| == memory.Length
      requires OnScreen(from, screenPitchInBytes, |before|) && OnScreen(to, screenPitchInBytes, |before|)
      requires SameSize(from, to) && width == to.width && Safe(from, to, dir) && 0 <= r < to.height
      requires dir == FORWARDS || dir == BACKWARDS
      requires var col0 := if dir == FORWARDS then 0 else width - 1;
               && s == Addr(from.y + r, from.x + col0, screenPitchInBytes)
               && d == Addr(to.y + r, to.x + col0, screenPitchInBytes)
               && Progress(before, memory[..], from, to, to.y + r, to.x + col0, dir, screenPitchInBytes)
      modifies memory
      ensures Progress(before, memory[..], from, to, to.y + r,
                       if dir == FORWARDS then to.x + width else to.x - 1, dir, screenPitchInBytes)
    {
      hide Progress, Addr, OnScreen, Safe;
      var p := screenPitchInBytes;
      var step := if dir == FORWARDS then 1 else -1;
      ghost var col0 := if dir == FORWARDS then 0 else width - 1;
      Wide(to, p, |before|);
      var j := 0;
      while j < width
        invariant 0 <= j <= width
        invariant Progress(before, memory[..], from, to, to.y + r, to.x + col0 + step * j, dir, p)
      {
        ghost var c := col0 + step * j;
        AddrPlus(from.y + r, from.x + col0, 0, step * j, p);
        AddrPlus(to.y + r, to.x + col0, 0, step * j, p);
        OneByte(before, memory[..], from, to, r, c, dir, p);
        ghost var now := memory[..];
        memory[d + step * j] := memory[s + step * j];
        assert memory[..] == now[d + step * j := now[s + step * j]];
        j := j + 1;
      }
    }

    /** cirrus_accel_mmio_screen_copy without transparency: every byte of the destination gets the value that the source
        had before the copy, and nothing else changes. Coordinates and sizes are in pixels. */
    method ScreenCopy(x1: int, y1: int, x2: int, y2: int, width: int, height: int)
      requires Valid() && 0 <= width && 0 <= height
      requires OnScreen(Pixels(x1, y1, width, height), screenPitchInBytes, memory.Length)
      requires OnScreen(Pixels(x2, y2, width, height), screenPitchInBytes, memory.Length)
      modifies memory
      ensures Moved(old(memory[..]), memory[..], Pixels(x1, y1, width, height), Pixels(x2, y2, width, height),
                    screenPitchInBytes)
    {
      hide Moved, OnScreen;
      ghost var from, to := Pixels(x1, y1, width, height), Pixels(x2, y2, width, height);
      var bytes := width * bytesPerPixel;
      var srcAddr := ByteAddress(x1, y1);
      var destAddr := ByteAddress(x2, y2);
      var dir := FORWARDS;
      Compare(x1, x2, bytesPerPixel);
      if (y1 < y2 || (y1 == y2 && x1 < x2)) && y1 + height > y2 {
        AddrPlus(from.y, from.x, height - 1, bytes - 1, screenPitchInBytes);
        AddrPlus(to.y, to.x, height - 1, bytes - 1, screenPitchInBytes);
        srcAddr := srcAddr + (height - 1) * screenPitchInBytes + bytes - 1;
        destAddr := destAddr + (height - 1) * screenPitchInBytes + bytes - 1;
        dir := BACKWARDS;
      }
      Run(srcAddr, destAddr, bytes, height, dir, from, to);
    }

    /** Byte b of the pixel in column i and row j of the copied rectangle, the rows being a pitch apart. */
    lemma PixelCopied(before: seq<int>, now: seq<int>, x1: int, y1: int, x2: int, y2: int, width: int, height: int,
                      i: int, j: int, b: int)
      requires Valid() && 0 <= i < width && 0 <= j < height && 0 <= b < bytesPerPixel
      requires Moved(before, now, Pixels(x1, y1, width, height), Pixels(x2, y2, width, height), screenPitchInBytes)
      ensures var d := (y2 + j) * screenPitchInBytes + (x2 + i) * bytesPerPixel + b;
              var s := (y1 + j) * screenPitchInBytes + (x1 + i) * bytesPerPixel + b;
              0 <= d < |now| && 0 <= s < |before| && now[d] == before[s]
    {
      hide Taken;
      var n := bytesPerPixel;
      var c := i * n + b;
      InPixels(i, b, width, n);
      var from, to := Pixels(x1, y1, width, height), Pixels(x2, y2, width, height);
      assert Copied(before, now, from, to, j, c, screenPitchInBytes);
      assert (x1 + i) * n == x1 * n + i * n && (x2 + i) * n == x2 * n + i * n;
      TakenIs(before, now, Addr(y2 + j, x2 * n + c, screenPitchInBytes), Addr(y1 + j, x1 * n + c, screenPitchInBytes));
    }

    /** A pixel outside the rectangle that is copied to stays as it is. */
    lemma PixelKept(before: seq<int>, now: seq<int>, from: Rect, x2: int, y2: int, width: int, height: int, x: int,
                    y: int, b: int)
      requires Valid() && 0 <= x && 0 <= b < bytesPerPixel && (x + 1) * bytesPerPixel <= screenPitchInBytes
      requires Moved(before, now, from, Pixels(x2, y2, width, height), screenPitchInBytes)
      requires !(x2 <= x < x2 + width && y2 <= y < y2 + height)
      ensures var a := y * screenPitchInBytes + x * bytesPerPixel + b; 0 <= a < |now| ==> now[a] == before[a]
    {
      hide Copied, Row, Col;
      var n := bytesPerPixel;
      var col := x * n + b;
      assert (x + 1) * n == x * n + n;
      assert x * n >= 0;
      AddrRow(y, col, screenPitchInBytes);
      if x < x2 { InPixels(x2 - x - 1, b, x2 - x, n); assert (x2 - x) * n == x2 * n - x * n; }
      if x >= x2 + width { Compare(x2 + width, x, n); assert (x2 + width) * n == x2 * n + width * n; }
      assert !InRect(Addr(y, col, screenPitchInBytes), Pixels(x2, y2, width, height), screenPitchInBytes);
    }

    /** A rectangle given in pixels. */
    function Pixels(x: int, y: int, width: int, height: int): Rect {
      Rect(x * bytesPerPixel, y, width * bytesPerPixel, height)
    }
  }

  lemma InPixels(i: int, b: int, width: int, n: int)
    requires 0 <= i < width && 0 <= b < n
    ensures 0 <= i * n + b < width * n
  {
    assert width * n == i * n + (width - i) * n;
    Mul(width - i - 1, n);
  }

  lemma TakenIs(before: seq<int>, now: seq<int>, d: int, s: int)
    requires Taken(before, now, d, s)
    ensures 0 <= d < |now| && 0 <= s < |before| && now[d] == before[s]
  {
  }

  lemma Compare(x1: int, x2: int, n: int)
    requires n > 0
    ensures x1 < x2 ==> x1 * n < x2 * n
    ensures x1 >= x2 ==> x1 * n >= x2 * n
  {
    if x1 < x2 {
      assert (x2 - x1) * n == x2 * n - x1 * n;
      Mul(x2 - x1 - 1, n);
    } else {
      assert (x1 - x2) * n == x1 * n - x2 * n;
      if x1 > x2 { Mul(x1 - x2 - 1, n); }
    }
  }

  lemma Wide(b: Rect, pitch: int, size: int)
    requires OnScreen(b, pitch, size)
    ensures 0 <= b.width && 0 <= b.height
  {
  }

  /** The byte in row r and column c of the destination is the one there in the source, before. */
  predicate Copied(before: seq<int>, now: seq<int>, from: Rect, to: Rect, r: int, c: int, pitch: int) {
    Taken(before, now, Addr(to.y + r, to.x + c, pitch), Addr(from.y + r, from.x + c, pitch))
  }

  /** Every byte of the destination has the old value of its source byte; all others are the same. */
  ghost predicate Moved(before: seq<int>, now: seq<int>, from: Rect, to: Rect, pitch: int) {
    && pitch > 0 && |now| == |before|
    && (forall r, c :: 0 <= r < to.height && 0 <= c < to.width ==> Copied(before, now, from, to, r, c, pitch))
    && (forall a :: 0 <= a < |now| && !InRect(a, to, pitch) ==> now[a] == before[a])
  }

  lemma NoneDone(before: seq<int>, from: Rect, to: Rect, dir: int, pitch: int)
    requires pitch > 0 && (dir == FORWARDS || dir == BACKWARDS)
    ensures dir == FORWARDS ==> Progress(before, before, from, to, to.y, to.x, dir, pitch)
    ensures dir == BACKWARDS ==>
            Progress(before, before, from, to, to.y + to.height - 1, to.x + to.width - 1, dir, pitch)
  {
    hide Row, Col, Source;
  }

  lemma AllDone(before: seq<int>, now: seq<int>, from: Rect, to: Rect, dir: int, pitch: int)
    requires pitch > 0 && (dir == FORWARDS || dir == BACKWARDS) && OnScreen(to, pitch, |before|)
    requires dir == FORWARDS ==> Progress(before, now, from, to, to.y + to.height, to.x, dir, pitch)
    requires dir == BACKWARDS ==> Progress(before, now, from, to, to.y - 1, to.x + to.width - 1, dir, pitch)
    ensures Moved(before, now, from, to, pitch)
  {
    hide Row, Col, Addr;
    var row := if dir == FORWARDS then to.y + to.height else to.y - 1;
    var col := if dir == FORWARDS then to.x else to.x + to.width - 1;
    forall r, c | 0 <= r < to.height && 0 <= c < to.width ensures Copied(before, now, from, to, r, c, pitch) {
      var a := Addr(to.y + r, to.x + c, pitch);
      AddrRow(to.y + r, to.x + c, pitch);
      InMemory(to, to.y + r, to.x + c, pitch, |before|);
      assert Done(a, to, row, col, dir, pitch);
    }
    forall a | 0 <= a < |now| && !InRect(a, to, pitch) ensures now[a] == before[a] {
      assert !Done(a, to, row, col, dir, pitch);
    }
  }
}
