/** Where the rows of an image start. */
module Offsets {
  /** Offset of row y: y rows of the given length before it. */
  function Offset(length: nat, y: nat): nat {
    if y == 0 then 0 else Offset(length, y - 1) + length
  }

  lemma OffsetStep(length: nat, y: nat)
    ensures Offset(length, 0) == 0 && Offset(length, y + 1) == Offset(length, y) + length
  {
  }

  lemma OffsetIsProduct(length: nat, y: nat)
    ensures Offset(length, y) == length * y
  {
  }

  lemma {:induction false} OffsetMonotone(length: nat, a: nat, b: nat)
    requires a <= b
    ensures Offset(length, a) <= Offset(length, b)
    decreases b
  {
    if a < b {
      OffsetMonotone(length, a, b - 1);
    }
  }

  /** Input offsets are ahead of output offsets, by one filter byte a row. */
  lemma {:induction false} OffsetsApart(length: nat, y: nat)
    ensures Offset(length + 1, y) == Offset(length, y) + y
  {
    if y > 0 {
      OffsetsApart(length, y - 1);
    }
  }
}
