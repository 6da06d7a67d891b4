/** Scanline filters (section 6 of RFC 2083): reconstruction as the decoder does it, in place or between two
    buffers, against the uniform definition in which bytes left of the first pixel and above the first row are 0. */
module PngFilter {
  import opened Common
  import opened Bits
  import opened Offsets
  import opened UpngErrors

  // ----- Predictors

  /** The source's distance: the difference taken in whichever order is not negative. */
  function Distance(p: int, x: int): nat {
    if p > x then p - x else x - p
  }

  function PaethPredictor(a: int, b: int, c: int): int {
    var p := a + b - c;
    var pa, pb, pc := Distance(p, a), Distance(p, b), Distance(p, c);
    if pa <= pb && pa <= pc then a else if pb <= pc then b else c
  }

  /** The predictor is the neighbour nearest to a + b - c; ties go to left, then above, then upper left. */
  lemma PaethIsNearest(a: int, b: int, c: int)
    ensures var p, r := a + b - c, PaethPredictor(a, b, c);
            && r in {a, b, c}
            && Abs(p - r) <= Abs(p - a) && Abs(p - r) <= Abs(p - b) && Abs(p - r) <= Abs(p - c)
            && (r != a ==> Abs(p - r) < Abs(p - a))
            && (r != a && r != b ==> Abs(p - r) < Abs(p - b))
  {
  }

  /** The special cases of the first pixel and of the first row are instances of the general predictor. */
  lemma PaethAtEdges(x: nat)
    ensures PaethPredictor(0, x, 0) == x && PaethPredictor(x, 0, 0) == x
  {
  }

  /** What filter ft predicts from the bytes to the left, above, and above left. */
  function Predictor(ft: nat, a: byte, b: byte, c: byte): (r: byte)
    requires ft <= 4
  {
    if ft == 0 then 0
    else if ft == 1 then a
    else if ft == 2 then b
    else if ft == 3 then (a + b) / 2
    else PaethPredictor(a, b, c)
  }

  // ----- One row

  /** Byte i of row, or 0 to the left of it. */
  function LeftOf(row: seq<byte>, i: nat, bytewidth: nat): byte
    requires i <= |row| + bytewidth - 1 && bytewidth >= 1
  {
    if i < bytewidth then 0 else row[i - bytewidth]
  }

  function AddBytes(x: byte, y: byte): byte {
    (x + y) % 256
  }

  function SubBytes(x: byte, y: byte): byte {
    (x - y) % 256
  }

  /** The first n bytes of a reconstructed row. */
  function Recon(ft: nat, line: seq<byte>, prev: seq<byte>, bytewidth: nat, n: nat): (r: seq<byte>)
    requires ft <= 4 && |prev| == |line| && n <= |line| && bytewidth >= 1
    ensures |r| == n
  {
    if n == 0 then []
    else
      var r := Recon(ft, line, prev, bytewidth, n - 1);
      r + [AddBytes(line[n - 1],
                    Predictor(ft, LeftOf(r, n - 1, bytewidth), prev[n - 1], LeftOf(prev, n - 1, bytewidth)))]
  }

  /** A filtered row, as an encoder writes it. */
  function Filtered(ft: nat, row: seq<byte>, prev: seq<byte>, bytewidth: nat): (r: seq<byte>)
    requires ft <= 4 && |prev| == |row| && bytewidth >= 1
    ensures |r| == |row|
  {
    seq<byte>(|row|, i requires 0 <= i < |row| =>
      SubBytes(row[i], Predictor(ft, LeftOf(row, i, bytewidth), prev[i], LeftOf(prev, i, bytewidth))))
  }

  lemma AddAfterSub(x: byte, y: byte)
    ensures AddBytes(SubBytes(x, y), y) == x
  {
  }

  /** Reconstruction inverts filtering. */
  lemma {:induction false} ReconOfFiltered(ft: nat, row: seq<byte>, prev: seq<byte>, bytewidth: nat, n: nat)
    requires ft <= 4 && |prev| == |row| && n <= |row| && bytewidth >= 1
    ensures Recon(ft, Filtered(ft, row, prev, bytewidth), prev, bytewidth, n) == row[..n]
  {
    hide Predictor, AddBytes, SubBytes;
    if n > 0 {
      ReconOfFiltered(ft, row, prev, bytewidth, n - 1);
      assert LeftOf(row[..n - 1], n - 1, bytewidth) == LeftOf(row, n - 1, bytewidth);
      var y := Predictor(ft, LeftOf(row, n - 1, bytewidth), prev[n - 1], LeftOf(prev, n - 1, bytewidth));
      AddAfterSub(row[n - 1], y);
    }
  }

  lemma {:induction false} ReconPrefix(ft: nat, line: seq<byte>, prev: seq<byte>, bytewidth: nat, n: nat, k: nat)
    requires ft <= 4 && |prev| == |line| && k <= n <= |line| && bytewidth >= 1
    ensures Recon(ft, line, prev, bytewidth, n)[..k] == Recon(ft, line, prev, bytewidth, k)
  {
    if k < n {
      ReconPrefix(ft, line, prev, bytewidth, n - 1, k);
    }
  }

  /** Byte i of a reconstructed row in terms of the bytes before it. */
  lemma ReconByte(ft: nat, line: seq<byte>, prev: seq<byte>, bytewidth: nat, i: nat)
    requires ft <= 4 && |prev| == |line| && i < |line| && bytewidth >= 1
    ensures var row := Recon(ft, line, prev, bytewidth, |line|);
            row[i] == AddBytes(line[i], Predictor(ft, LeftOf(row, i, bytewidth), prev[i], LeftOf(prev, i, bytewidth)))
  {
    hide Predictor;
    ReconPrefix(ft, line, prev, bytewidth, |line|, i);
    ReconPrefix(ft, line, prev, bytewidth, |line|, i + 1);
    var row := Recon(ft, line, prev, bytewidth, |line|);
    assert row[i] == row[..i + 1][i];
    assert LeftOf(row, i, bytewidth) == LeftOf(row[..i], i, bytewidth);
  }
  // ----- The row loops, reading and writing through the same buffer or two

  /** The buffer with the first n bytes of row written at ro. */
  function WithRow(snap: seq<byte>, ro: nat, row: seq<byte>, n: nat): (s: seq<byte>)
    requires n <= |row| && ro + |row| <= |snap|
    ensures |s| == |snap|
  {
    snap[..ro] + row[..n] + snap[ro + n..]
  }

  lemma NextByte(snap: seq<byte>, ro: nat, row: seq<byte>, n: nat)
    requires n < |row| && ro + |row| <= |snap|
    ensures WithRow(snap, ro, row, n)[ro + n := row[n]] == WithRow(snap, ro, row, n + 1)
  {
  }

  /** Reading back: written bytes, bytes not reached yet, and bytes before the row. */
  lemma ReadBack(snap: seq<byte>, ro: nat, row: seq<byte>, n: nat, k: nat)
    requires n <= |row| && ro + |row| <= |snap| && k < |snap|
    ensures WithRow(snap, ro, row, n)[k] == if ro <= k < ro + n then row[k - ro] else snap[k]
  {
  }

  /** Where the previous row starts in the output buffer, if there is one. */
  datatype Previous = NoRow | RowAt(po: nat)

  /** The row above, zeros if there is none. */
  function PrevLine(buffer: seq<byte>, prev: Previous, length: nat): (r: seq<byte>)
    requires prev.RowAt? ==> prev.po + length <= |buffer|
    ensures |r| == length
  {
    if prev.RowAt? then buffer[prev.po..prev.po + length] else seq<byte>(length, _ => 0)
  }

  /** A scanline to reconstruct: the buffers, possibly the same one, and the offsets into them. */
  class Scanline {
    const out: array<byte>
    const input: array<byte>
    const ro: nat
    const so: nat
    const prev: Previous
    const bytewidth: nat
    const length: nat
    const filterType: nat

    /** Contents of the output buffer, and the line and the row above, when reconstruction starts. */
    ghost const snap: seq<byte>
    ghost const line: seq<byte>
    ghost const above: seq<byte>

    constructor (out: array<byte>, ro: nat, input: array<byte>, so: nat, prev: Previous, bytewidth: nat,
                 filterType: nat, length: nat)
      requires ro + length <= out.Length && so + length <= input.Length && 1 <= bytewidth <= length
      requires prev.RowAt? ==> prev.po + length <= ro
      requires out == input ==> ro <= so
      ensures this.out == out && this.input == input && this.ro == ro && this.so == so && this.prev == prev
      ensures this.bytewidth == bytewidth && this.filterType == filterType && this.length == length
      ensures snap == out[..] && line == input[so..so + length] && above == PrevLine(out[..], prev, length)
      ensures Valid()
    {
      this.out, this.ro, this.input, this.so, this.prev := out, ro, input, so, prev;
      this.bytewidth, this.filterType, this.length := bytewidth, filterType, length;
      snap, line, above := out[..], input[so..so + length], PrevLine(out[..], prev, length);
    }

    ghost predicate Valid()
    {
      && ro + length <= out.Length && so + length <= input.Length && 1 <= bytewidth <= length
      && (prev.RowAt? ==> prev.po + length <= ro) && (out == input ==> ro <= so)
      && |snap| == out.Length && |line| == length && above == PrevLine(snap, prev, length)
    }

    /** The reconstructed row. */
    ghost function Row(): (r: seq<byte>)
      requires Valid() && filterType <= 4
      ensures |r| == length
    {
      Recon(filterType, line, above, bytewidth, length)
    }

    /** The first n bytes of the row are in place, nothing else has changed, and the rest of the line is still there. */
    ghost predicate Done(n: nat)
      reads out, input
      requires Valid() && filterType <= 4 && n <= length
    {
      && out[..] == WithRow(snap, ro, Row(), n)
      && forall k :: so + n <= k < so + length ==> input[k] == line[k - so]
    }

    /** Byte i of the row from what the buffers hold when its turn comes. */
    lemma Pending(i: nat)
      requires Valid() && filterType <= 4 && i < length && Done(i)
      ensures input[so + i] == line[i]
      ensures i >= bytewidth ==> out[ro + i - bytewidth] == Row()[i - bytewidth] == LeftOf(Row(), i, bytewidth)
      ensures i < bytewidth ==> LeftOf(Row(), i, bytewidth) == 0 && LeftOf(above, i, bytewidth) == 0
      ensures prev.RowAt? ==> out[prev.po + i] == above[i]
      ensures prev.RowAt? && i >= bytewidth ==> out[prev.po + i - bytewidth] == LeftOf(above, i, bytewidth)
      ensures prev.NoRow? ==> above[i] == 0 && LeftOf(above, i, bytewidth) == 0
      ensures AddBytes(line[i], 0) == line[i]
      ensures Row()[i] == AddBytes(line[i], Predictor(filterType, LeftOf(Row(), i, bytewidth), above[i],
                                                      LeftOf(above, i, bytewidth)))
    {
      hide Recon, Predictor, WithRow;
      ReconByte(filterType, line, above, bytewidth, i);
      assert forall k :: 0 <= k < out.Length ==> out[k] == out[..][k];
      if i >= bytewidth {
        ReadBack(snap, ro, Row(), i, ro + i - bytewidth);
      }
      if prev.RowAt? {
        ReadBack(snap, ro, Row(), i, prev.po + i);
        if i >= bytewidth {
          ReadBack(snap, ro, Row(), i, prev.po + i - bytewidth);
        }
      }
    }

    /** Store byte i of the row. */
    method Store(i: nat, value: byte)
      requires Valid() && filterType <= 4 && i < length && Done(i) && value == Row()[i]
      modifies out
      ensures Done(i + 1)
    {
      hide Recon, WithRow;
      NextByte(snap, ro, Row(), i);
      ghost var before := out[..];
      out[ro + i] := value;
      assert out[..] == before[ro + i := value];
    }

    method UnfilterNone()
      requires Valid() && filterType == 0 && Done(0)
      modifies out
      ensures Done(length)
    {
      hide Recon, Done;
      var i := 0;
      while i < length
        invariant 0 <= i <= length && Done(i)
      {
        Pending(i);
        Store(i, input[so + i]);
        i := i + 1;
      }
    }

    method UnfilterSub()
      requires Valid() && filterType == 1 && Done(0)
      modifies out
      ensures Done(length)
    {
      hide Recon, Done;
      var i := 0;
      while i < bytewidth
        invariant 0 <= i <= bytewidth && Done(i)
      {
        Pending(i);
        Store(i, input[so + i]);
        i := i + 1;
      }
      while i < length
        invariant bytewidth <= i <= length && Done(i)
      {
        Pending(i);
        Store(i, AddBytes(input[so + i], out[ro + i - bytewidth]));
        i := i + 1;
      }
    }

    method UnfilterUp()
      requires Valid() && filterType == 2 && Done(0)
      modifies out
      ensures Done(length)
    {
      hide Recon, Done;
      var i := 0;
      if prev.RowAt? {
        while i < length
          invariant 0 <= i <= length && Done(i)
        {
          Pending(i);
          Store(i, AddBytes(input[so + i], out[prev.po + i]));
          i := i + 1;
        }
      } else {
        while i < length
          invariant 0 <= i <= length && Done(i)
        {
          Pending(i);
          Store(i, input[so + i]);
          i := i + 1;
        }
      }
    }

    method UnfilterAverage()
      requires Valid() && filterType == 3 && Done(0)
      modifies out
      ensures Done(length)
    {
      hide Recon, Done, AddBytes;
      var i := 0;
      if prev.RowAt? {
        while i < bytewidth
          invariant 0 <= i <= bytewidth && Done(i)
        {
          Pending(i);
          Store(i, AddBytes(input[so + i], out[prev.po + i] / 2));
          i := i + 1;
        }
        while i < length
          invariant bytewidth <= i <= length && Done(i)
        {
          Pending(i);
          Store(i, AddBytes(input[so + i], (out[ro + i - bytewidth] as nat + out[prev.po + i] as nat) / 2));
          i := i + 1;
        }
      } else {
        while i < bytewidth
          invariant 0 <= i <= bytewidth && Done(i)
        {
          Pending(i);
          Store(i, input[so + i]);
          i := i + 1;
        }
        while i < length
          invariant bytewidth <= i <= length && Done(i)
        {
          Pending(i);
          Store(i, AddBytes(input[so + i], out[ro + i - bytewidth] / 2));
          i := i + 1;
        }
      }
    }

    method UnfilterPaeth()
      requires Valid() && filterType == 4 && Done(0)
      modifies out
      ensures Done(length)
    {
      hide Recon, Done, AddBytes, PaethPredictor;
      var i := 0;
      if prev.RowAt? {
        while i < bytewidth
          invariant 0 <= i <= bytewidth && Done(i)
        {
          Pending(i);
          PaethIsByte(0, out[prev.po + i], 0);
          Store(i, AddBytes(input[so + i], PaethPredictor(0, out[prev.po + i], 0)));
          i := i + 1;
        }
        while i < length
          invariant bytewidth <= i <= length && Done(i)
        {
          Pending(i);
          PaethIsByte(out[ro + i - bytewidth], out[prev.po + i], out[prev.po + i - bytewidth]);
          Store(i, AddBytes(input[so + i],
            PaethPredictor(out[ro + i - bytewidth], out[prev.po + i], out[prev.po + i - bytewidth])));
          i := i + 1;
        }
      } else {
        while i < bytewidth
          invariant 0 <= i <= bytewidth && Done(i)
        {
          Pending(i);
          PaethAtEdges(0);
          Store(i, input[so + i]);
          i := i + 1;
        }
        while i < length
          invariant bytewidth <= i <= length && Done(i)
        {
          Pending(i);
          PaethIsByte(out[ro + i - bytewidth], 0, 0);
          Store(i, AddBytes(input[so + i], PaethPredictor(out[ro + i - bytewidth], 0, 0)));
          i := i + 1;
        }
      }
    }

    /** Reconstruct the scanline; an unknown filter type is an error. */
    method Unfilter() returns (error: UpngError)
      requires Valid() && out[..] == snap && input[so..so + length] == line
      modifies out
      ensures filterType <= 4 ==> error == EOK && out[..] == WithRow(snap, ro, Row(), length)
      ensures filterType > 4 ==> error == EMALFORMED && out[..] == snap
    {
      hide Recon;
      error := EOK;
      if filterType <= 4 {
        assert forall k :: so <= k < so + length ==> input[k] == input[so..so + length][k - so];
        assert Done(0);
      }
      hide Done, WithRow;
      match filterType
      case 0 => UnfilterNone();
      case 1 => UnfilterSub();
      case 2 => UnfilterUp();
      case 3 => UnfilterAverage();
      case 4 => UnfilterPaeth();
      case _ => error := EMALFORMED;
    }
  }

  lemma PaethIsByte(a: byte, b: byte, c: byte)
    ensures 0 <= PaethPredictor(a, b, c) < 256
  {
  }

  // ----- The whole image

  /** The filter type in front of row y. */
  function TypeOf(data: seq<byte>, length: nat, y: nat): byte
    requires Offset(length + 1, y) < |data|
  {
    data[Offset(length + 1, y)]
  }

  function LineOf(data: seq<byte>, length: nat, y: nat): (r: seq<byte>)
    requires Offset(length + 1, y + 1) <= |data|
    ensures |r| == length
  {
    data[Offset(length + 1, y) + 1..Offset(length + 1, y) + 1 + length]
  }

  /** The last row of an image of y rows, zeros if it has none. */
  function LastRow(rows: seq<byte>, length: nat): (r: seq<byte>)
    ensures |r| == length
  {
    if |rows| < length then seq<byte>(length, _ => 0) else rows[|rows| - length..]
  }

  /** The first y rows have known filter types. */
  predicate Filterable(data: seq<byte>, length: nat, y: nat)
    requires Offset(length + 1, y) <= |data|
  {
    y == 0 || (Filterable(data, length, y - 1) && TypeOf(data, length, y - 1) <= 4)
  }

  /** The first y rows of the image, one after the other. */
  function Image(data: seq<byte>, length: nat, bytewidth: nat, y: nat): (r: seq<byte>)
    requires 1 <= bytewidth && Offset(length + 1, y) <= |data| && Filterable(data, length, y)
    ensures |r| == Offset(length, y)
  {
    if y == 0 then []
    else
      var rows := Image(data, length, bytewidth, y - 1);
      rows + Recon(TypeOf(data, length, y - 1), LineOf(data, length, y - 1), LastRow(rows, length), bytewidth, length)
  }

  /** How many rows can be reconstructed before an unknown filter type, h if there is none. */
  function GoodRows(data: seq<byte>, length: nat, h: nat): (y: nat)
    requires Offset(length + 1, h) <= |data|
    ensures y <= h && Offset(length + 1, y) <= |data| && Filterable(data, length, y)
    ensures Offset(length, y) <= Offset(length, h)
    ensures y < h ==> Offset(length + 1, y) < |data| && TypeOf(data, length, y) > 4
  {
    if h == 0 then 0
    else
      var y := GoodRows(data, length, h - 1);
      if y < h - 1 || TypeOf(data, length, h - 1) > 4 then y else h
  }

  /** Reconstruct an image of h rows of w pixels of bpp bits from input into out, which may be the same buffer:
      the rows up to the first unknown filter type, which is an error; nothing behind them changes. */
  method Unfilter(out: array<byte>, input: array<byte>, w: nat, h: nat, bpp: nat) returns (error: UpngError)
    requires w >= 1 && bpp >= 1
    requires var length := (w * bpp + 7) / 8; Offset(length + 1, h) <= input.Length && Offset(length, h) <= out.Length
    modifies out
    ensures var length, data := (w * bpp + 7) / 8, old(input[..]);
            var y := GoodRows(data, length, h);
            && error == (if y == h then EOK else EMALFORMED)
            && out[..Offset(length, y)] == Image(data, length, (bpp + 7) / 8, y)
            && out[Offset(length, y)..] == old(out[..])[Offset(length, y)..]
  {
    var bytewidth, linebytes := (bpp + 7) / 8, (w * bpp + 7) / 8;
    WideEnough(w, bpp);
    error := UnfilterRows(out, input, h, bytewidth, linebytes);
  }

  lemma WideEnough(w: nat, bpp: nat)
    requires w >= 1 && bpp >= 1
    ensures 1 <= (bpp + 7) / 8 <= (w * bpp + 7) / 8
  {
    assert w * bpp >= 1 * bpp;
  }

  lemma {:induction false} GoodRowsIs(data: seq<byte>, length: nat, h: nat, y: nat)
    requires Offset(length + 1, h) <= |data| && y <= h && Offset(length + 1, y) <= |data| && Filterable(data, length, y)
    requires y < h ==> Offset(length + 1, y) < |data| && TypeOf(data, length, y) > 4
    ensures GoodRows(data, length, h) == y
    decreases h
  {
    if y < h {
      GoodRowsIs(data, length, h - 1, y);
    } else if h > 0 {
      GoodRowsIs(data, length, h - 1, h - 1);
    }
  }

  /** The row above in the buffer is the last row of the image so far. */
  lemma PrevIsLast(buffer: seq<byte>, rows: seq<byte>, length: nat)
    requires 1 <= length && |rows| <= |buffer| && buffer[..|rows|] == rows && (rows == [] || |rows| >= length)
    ensures PrevLine(buffer, if rows == [] then NoRow else RowAt(|rows| - length), length) == LastRow(rows, length)
  {
  }

  /** Writing a row behind the image so far extends the image. */
  lemma RowAppended(snap: seq<byte>, rows: seq<byte>, row: seq<byte>)
    requires |rows| + |row| <= |snap| && snap[..|rows|] == rows
    ensures var s := WithRow(snap, |rows|, row, |row|);
            s[..|rows| + |row|] == rows + row && s[|rows| + |row|..] == snap[|rows| + |row|..]
  {
  }

  method UnfilterRows(out: array<byte>, input: array<byte>, h: nat, bytewidth: nat, linebytes: nat)
    returns (error: UpngError)
    requires 1 <= bytewidth <= linebytes
    requires Offset(linebytes + 1, h) <= input.Length && Offset(linebytes, h) <= out.Length
    modifies out
    ensures var data := old(input[..]);
            var y := GoodRows(data, linebytes, h);
            && error == (if y == h then EOK else EMALFORMED)
            && out[..Offset(linebytes, y)] == Image(data, linebytes, bytewidth, y)
            && out[Offset(linebytes, y)..] == old(out[..])[Offset(linebytes, y)..]
  {
    hide Recon, GoodRows, TypeOf, Image, Filterable;
    ghost var data, before := input[..], out[..];
    NoRowsDone(data, before, linebytes, bytewidth);
    var prevline := NoRow;
    var y := 0;
    while y < h
      invariant 0 <= y <= h && RowsDone(data, before, out[..], linebytes, bytewidth, y)
      invariant if out != input then input[..] == data else before == data
      invariant prevline == if y == 0 then NoRow else RowAt(Offset(linebytes, y) - linebytes)
    {
      error := UnfilterRow(out, input, y, h, prevline, bytewidth, linebytes, data, before);
      if error != EOK {
        GoodRowsIs(data, linebytes, h, y);
        return;
      }
      prevline := RowAt(linebytes * y);
      OffsetIsProduct(linebytes, y);
      y := y + 1;
    }
    GoodRowsIs(data, linebytes, h, h);
    error := EOK;
  }

  lemma NoRowsDone(data: seq<byte>, before: seq<byte>, linebytes: nat, bytewidth: nat)
    requires bytewidth >= 1
    ensures RowsDone(data, before, before, linebytes, bytewidth, 0)
  {
  }

  /** Row y of the image: find its offsets and its filter type and reconstruct it. */
  method UnfilterRow(out: array<byte>, input: array<byte>, y: nat, h: nat, prevline: Previous, bytewidth: nat,
                     linebytes: nat, ghost data: seq<byte>, ghost before: seq<byte>)
    returns (error: UpngError)
    requires 1 <= bytewidth <= linebytes && y < h
    requires Offset(linebytes + 1, h) <= input.Length == |data| && Offset(linebytes, h) <= out.Length
    requires RowsDone(data, before, out[..], linebytes, bytewidth, y)
    requires if out != input then input[..] == data else before == data
    requires prevline == if y == 0 then NoRow else RowAt(Offset(linebytes, y) - linebytes)
    modifies out
    ensures out != input ==> input[..] == data
    ensures Offset(linebytes + 1, y) < |data|
    ensures error == if TypeOf(data, linebytes, y) <= 4 then EOK else EMALFORMED
    ensures error == EOK ==> RowsDone(data, before, out[..], linebytes, bytewidth, y + 1)
    ensures error != EOK ==> RowsDone(data, before, out[..], linebytes, bytewidth, y)
  {
    hide Recon, WithRow, TypeOf, LineOf, LastRow, PrevLine, RowsDone, Image, Filterable;
    var outindex, inindex := linebytes * y, (1 + linebytes) * y;
    Indices(linebytes, h, y);
    var filterType := input[inindex];
    var line := new Scanline(out, outindex, input, inindex + 1, prevline, bytewidth, filterType, linebytes);
    RowInput(data, before, out[..], input[..], linebytes, bytewidth, y);
    error := line.Unfilter();
    if error == EOK {
      RowsDoneNext(data, before, line.snap, linebytes, bytewidth, y, line.Row());
    }
  }

  lemma RowsDoneNext(data: seq<byte>, before: seq<byte>, snap: seq<byte>, linebytes: nat, bytewidth: nat, y: nat,
                     row: seq<byte>)
    requires bytewidth >= 1 && RowsDone(data, before, snap, linebytes, bytewidth, y)
    requires Offset(linebytes + 1, y + 1) <= |data| && Offset(linebytes, y + 1) <= |snap|
    requires TypeOf(data, linebytes, y) <= 4
    requires row == Recon(TypeOf(data, linebytes, y), LineOf(data, linebytes, y),
                          LastRow(Image(data, linebytes, bytewidth, y), linebytes), bytewidth, linebytes)
    ensures RowsDone(data, before, WithRow(snap, Offset(linebytes, y), row, linebytes), linebytes, bytewidth, y + 1)
  {
    hide Recon, TypeOf, LineOf, LastRow, WithRow;
    RowAppended(snap, Image(data, linebytes, bytewidth, y), row);
    var o := Offset(linebytes, y);
    assert snap[o + linebytes..] == snap[o..][linebytes..] && before[o + linebytes..] == before[o..][linebytes..];
  }

  /** The first y rows are in the buffer and the rest of it has not changed. */
  ghost predicate RowsDone(data: seq<byte>, before: seq<byte>, now: seq<byte>, linebytes: nat, bytewidth: nat, y: nat)
    requires bytewidth >= 1
  {
    && Offset(linebytes + 1, y) <= |data| && Offset(linebytes, y) <= |before| == |now|
    && Filterable(data, linebytes, y)
    && now[..Offset(linebytes, y)] == Image(data, linebytes, bytewidth, y)
    && now[Offset(linebytes, y)..] == before[Offset(linebytes, y)..]
  }

  lemma Indices(linebytes: nat, h: nat, y: nat)
    requires y < h
    ensures linebytes * y == Offset(linebytes, y) && (1 + linebytes) * y == Offset(linebytes + 1, y)
    ensures Offset(linebytes, y) + linebytes == Offset(linebytes, y + 1) <= Offset(linebytes, h)
    ensures Offset(linebytes + 1, y) + 1 + linebytes == Offset(linebytes + 1, y + 1) <= Offset(linebytes + 1, h)
    ensures Offset(linebytes, y) <= Offset(linebytes + 1, y)
    ensures y > 0 ==> linebytes <= Offset(linebytes, y)
    ensures y == 0 ==> Offset(linebytes, y) == 0
  {
    OffsetIsProduct(linebytes, y);
    OffsetIsProduct(linebytes + 1, y);
    OffsetMonotone(linebytes, y + 1, h);
    OffsetMonotone(linebytes + 1, y + 1, h);
    OffsetsApart(linebytes, y);
  }

  /** What row y reads, in place or not, is the original data and the row above. */
  lemma RowInput(data: seq<byte>, before: seq<byte>, now: seq<byte>, input: seq<byte>, linebytes: nat, bytewidth: nat,
                 y: nat)
    requires 1 <= bytewidth <= linebytes && RowsDone(data, before, now, linebytes, bytewidth, y)
    requires input == data || (input == now && before == data)
    requires Offset(linebytes + 1, y + 1) <= |data| && Offset(linebytes, y) <= Offset(linebytes + 1, y)
    ensures input[Offset(linebytes + 1, y)] == TypeOf(data, linebytes, y)
    ensures input[Offset(linebytes + 1, y) + 1..Offset(linebytes + 1, y) + 1 + linebytes] == LineOf(data, linebytes, y)
    ensures y > 0 ==> linebytes <= Offset(linebytes, y)
    ensures PrevLine(now, if y == 0 then NoRow else RowAt(Offset(linebytes, y) - linebytes), linebytes)
            == LastRow(Image(data, linebytes, bytewidth, y), linebytes)
  {
    hide Recon, LastRow, PrevLine, Filterable;
    var o, i := Offset(linebytes, y), Offset(linebytes + 1, y);
    forall k | o <= k < |now| ensures now[k] == before[k] {
      assert now[k] == now[o..][k - o] && before[k] == before[o..][k - o];
    }
    PrevIsLast(now, Image(data, linebytes, bytewidth, y), linebytes);
    assert o == 0 <==> y == 0;
  }

  // ----- Round trip

  /** Rows of one length and a filter type for each. */
  predicate WellFormedRows(rows: seq<seq<byte>>, types: seq<byte>, length: nat) {
    && |types| == |rows|
    && forall y :: 0 <= y < |rows| ==> |rows[y]| == length && types[y] <= 4
  }

  /** The row above row y, zeros above the first. */
  function RowAbove(rows: seq<seq<byte>>, length: nat, y: nat): seq<byte>
    requires y <= |rows|
  {
    if y == 0 then seq<byte>(length, _ => 0) else rows[y - 1]
  }

  /** The first y filtered rows, each behind its filter type. */
  function FilteredImage(rows: seq<seq<byte>>, types: seq<byte>, length: nat, bytewidth: nat, y: nat): (r: seq<byte>)
    requires WellFormedRows(rows, types, length) && bytewidth >= 1 && y <= |rows|
    ensures |r| == Offset(length + 1, y)
  {
    if y == 0 then []
    else
      FilteredImage(rows, types, length, bytewidth, y - 1)
      + ([types[y - 1]] + Filtered(types[y - 1], rows[y - 1], RowAbove(rows, length, y - 1), bytewidth))
  }

  /** The first y rows one after the other. */
  function Flat(rows: seq<seq<byte>>, y: nat): seq<byte>
    requires y <= |rows|
  {
    if y == 0 then [] else Flat(rows, y - 1) + rows[y - 1]
  }

  lemma {:induction false} FilteredPrefix(rows: seq<seq<byte>>, types: seq<byte>, length: nat, bytewidth: nat, y: nat,
                                          h: nat)
    requires WellFormedRows(rows, types, length) && bytewidth >= 1 && y <= h <= |rows|
    ensures Offset(length + 1, y) <= Offset(length + 1, h)
    ensures FilteredImage(rows, types, length, bytewidth, h)[..Offset(length + 1, y)]
            == FilteredImage(rows, types, length, bytewidth, y)
    decreases h
  {
    hide Filtered, WellFormedRows;
    if y < h {
      FilteredPrefix(rows, types, length, bytewidth, y, h - 1);
    }
  }

  lemma FilteredRowAt(rows: seq<seq<byte>>, types: seq<byte>, length: nat, bytewidth: nat, data: seq<byte>, y: nat,
                      h: nat)
    requires WellFormedRows(rows, types, length) && bytewidth >= 1 && y < h <= |rows|
    requires FilteredImage(rows, types, length, bytewidth, h) <= data
    ensures Offset(length + 1, y + 1) <= |data|
    ensures TypeOf(data, length, y) == types[y]
    ensures LineOf(data, length, y) == Filtered(types[y], rows[y], RowAbove(rows, length, y), bytewidth)
  {
    hide Filtered, FilteredImage, Offset;
    FilteredPrefix(rows, types, length, bytewidth, y + 1, h);
    var row := Filtered(types[y], rows[y], RowAbove(rows, length, y), bytewidth);
    var whole := FilteredImage(rows, types, length, bytewidth, h);
    var part := FilteredImage(rows, types, length, bytewidth, y);
    NextFiltered(rows, types, length, bytewidth, y);
    OffsetStep(length + 1, y);
    TypedRowAt(data, whole, part, types[y], row);
  }

  lemma NextFiltered(rows: seq<seq<byte>>, types: seq<byte>, length: nat, bytewidth: nat, y: nat)
    requires WellFormedRows(rows, types, length) && bytewidth >= 1 && y < |rows|
    ensures FilteredImage(rows, types, length, bytewidth, y + 1)
            == FilteredImage(rows, types, length, bytewidth, y)
               + ([types[y]] + Filtered(types[y], rows[y], RowAbove(rows, length, y), bytewidth))
  {
    hide Filtered;
  }

  lemma TypedRowAt(data: seq<byte>, whole: seq<byte>, part: seq<byte>, t: byte, row: seq<byte>)
    requires whole <= data && |part| + 1 + |row| <= |whole|
    requires whole[..|part| + 1 + |row|] == part + ([t] + row)
    ensures data[|part|] == t && data[|part| + 1..|part| + 1 + |row|] == row
  {
    var n := |part| + 1 + |row|;
    var s := part + ([t] + row);
    assert data[..n] == whole[..n] == s;
    assert data[|part|] == s[|part|] == t;
    assert data[|part| + 1..n] == s[|part| + 1..n];
    assert s[|part| + 1..n] == row;
  }

  lemma LastOfFlat(rows: seq<seq<byte>>, types: seq<byte>, length: nat, y: nat)
    requires WellFormedRows(rows, types, length) && y <= |rows| && length >= 1
    ensures y > 0 ==> |Flat(rows, y)| >= length
    ensures LastRow(Flat(rows, y), length) == RowAbove(rows, length, y)
  {
  }

  /** Reconstruction inverts filtering: for every image and every choice of filter types for its rows. */
  lemma {:induction false} ImageRoundTrip(rows: seq<seq<byte>>, types: seq<byte>, length: nat, bytewidth: nat,
                                          data: seq<byte>, y: nat)
    requires WellFormedRows(rows, types, length) && 1 <= bytewidth <= length && y <= |rows|
    requires FilteredImage(rows, types, length, bytewidth, |rows|) <= data
    ensures Offset(length + 1, y) <= |data| && Filterable(data, length, y)
    ensures Image(data, length, bytewidth, y) == Flat(rows, y)
  {
    hide Filtered, Recon, TypeOf, LineOf, LastRow, FilteredImage, RowAbove;
    if y > 0 {
      var k := y - 1;
      ImageRoundTrip(rows, types, length, bytewidth, data, k);
      FilteredRowAt(rows, types, length, bytewidth, data, k, |rows|);
      LastOfFlat(rows, types, length, k);
      var above := LastRow(Flat(rows, k), length);
      ReconOfFiltered(types[k], rows[k], above, bytewidth, length);
      assert rows[k][..length] == rows[k];
    }
  }

  // ----- The filters of section 6 of RFC 2083, each by itself

  /** Byte i of the line and those bytewidth, twice bytewidth and so on before it, added up. */
  function SumBack(line: seq<byte>, i: nat, bytewidth: nat): nat
    requires i < |line| && bytewidth >= 1
  {
    if i < bytewidth then line[i] else line[i] + SumBack(line, i - bytewidth, bytewidth)
  }

  /** None leaves the line as it is, and Up adds the row above. */
  lemma PlainFilters(line: seq<byte>, prev: seq<byte>, bytewidth: nat, i: nat)
    requires |prev| == |line| && i < |line| && bytewidth >= 1
    ensures Recon(0, line, prev, bytewidth, |line|)[i] == line[i]
    ensures var x: nat, y: nat := line[i], prev[i]; Recon(2, line, prev, bytewidth, |line|)[i] == (x + y) % 256
  {
    hide Recon;
    ReconByte(0, line, prev, bytewidth, i);
    ReconByte(2, line, prev, bytewidth, i);
  }

  /** Sub adds up the bytes at the same place of the pixels to the left. */
  lemma {:induction false} SubFilter(line: seq<byte>, prev: seq<byte>, bytewidth: nat, i: nat)
    requires |prev| == |line| && i < |line| && bytewidth >= 1
    ensures Recon(1, line, prev, bytewidth, |line|)[i] == SumBack(line, i, bytewidth) % 256
    decreases i
  {
    hide Recon;
    ReconByte(1, line, prev, bytewidth, i);
    if i >= bytewidth {
      SubFilter(line, prev, bytewidth, i - bytewidth);
      AddModulo(line[i], SumBack(line, i - bytewidth, bytewidth));
    }
  }

  lemma AddModulo(x: byte, n: nat)
    ensures AddBytes(x, n % 256) == (x + n) % 256
  {
    var m: nat := x;
    assert (m + n % 256) % 256 == (m + n) % 256;
  }

  /** Average adds half the sum of the bytes to the left and above, rounded down; Paeth adds that one of left, above and
      upper left which is nearest to left + above - upper left, in this order. What is not in the image is 0. */
  lemma AveragingFilters(line: seq<byte>, prev: seq<byte>, bytewidth: nat, i: nat) returns (p: nat, q: nat)
    requires |prev| == |line| && i < |line| && bytewidth >= 1
    ensures var row := Recon(3, line, prev, bytewidth, |line|);
            var left := if i < bytewidth then 0 else row[i - bytewidth];
            2 * p <= left + prev[i] < 2 * p + 2 && row[i] == (line[i] + p) % 256
    ensures var row := Recon(4, line, prev, bytewidth, |line|);
            var a, b := if i < bytewidth then 0 else row[i - bytewidth], prev[i];
            var c := if i < bytewidth then 0 else prev[i - bytewidth];
            && row[i] == (line[i] + q) % 256 && q in {a, b, c}
            && Abs(a + b - c - q) <= Abs(b - c) && Abs(a + b - c - q) <= Abs(a - c)
            && Abs(a + b - c - q) <= Abs(a + b - 2 * c)
            && (q != a ==> Abs(a + b - c - q) < Abs(b - c))
            && (q != a && q != b ==> Abs(a + b - c - q) < Abs(a - c))
  {
    hide Recon, PaethPredictor;
    ReconByte(3, line, prev, bytewidth, i);
    ReconByte(4, line, prev, bytewidth, i);
    var row3, row4 := Recon(3, line, prev, bytewidth, |line|), Recon(4, line, prev, bytewidth, |line|);
    p := (LeftOf(row3, i, bytewidth) + prev[i]) / 2;
    var a, c := LeftOf(row4, i, bytewidth), LeftOf(prev, i, bytewidth);
    q := PaethPredictor(a, prev[i], c);
    PaethIsNearest(a, prev[i], c);
  }

  /** Each row of the inflated data is its filter type and then the filtered bytes. */
  lemma RowLayout(data: seq<byte>, length: nat, y: nat)
    requires Offset(length + 1, y + 1) <= |data|
    ensures y * (length + 1) + length < |data|
    ensures TypeOf(data, length, y) == data[y * (length + 1)]
    ensures LineOf(data, length, y) == data[y * (length + 1) + 1..y * (length + 1) + 1 + length]
  {
    OffsetStep(length + 1, y);
    OffsetIsProduct(length + 1, y);
  }

  predicate Accepted(data: seq<byte>, length: nat, y: nat) {
    Offset(length + 1, y) < |data| && TypeOf(data, length, y) <= 4
  }

  /** All rows can be reconstructed exactly if each has a type of 0 to 4. */
  lemma AcceptedRows(data: seq<byte>, length: nat, h: nat)
    requires Offset(length + 1, h) <= |data|
    ensures GoodRows(data, length, h) == h <==> forall y: nat :: y < h ==> Accepted(data, length, y)
  {
    hide GoodRows, Filterable, TypeOf;
    var good := GoodRows(data, length, h);
    if good == h {
      forall y: nat | y < h ensures Accepted(data, length, y) { FilterableRow(data, length, h, y); }
    } else {
      assert !Accepted(data, length, good);
    }
  }

  lemma {:induction false} FilterableRow(data: seq<byte>, length: nat, h: nat, y: nat)
    requires Offset(length + 1, h) <= |data| && Filterable(data, length, h) && y < h
    ensures Accepted(data, length, y)
  {
    if y < h - 1 { FilterableRow(data, length, h - 1, y); }
  }
}
