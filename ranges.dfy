/**
 * Fixed-size ranged reads over an object: read `k` asks for `[k * size, k * size + size)`.
 * Both the S3 read planner and the sequential read loop produce exactly this sequence;
 * neither clamps the last range to the object's length.
 */
module Ranges {
  import opened Arith

  /** A half-open byte interval `[start, end)`. */
  datatype ByteRange = ByteRange(start: nat, end: nat)
  {
    predicate Contains(b: nat)
    {
      start <= b < end
    }
  }

  /** The `k`-th fixed-size range. */
  function Chunk(k: nat, size: nat): (r: ByteRange)
    ensures r.end - r.start == size
    ensures r.end == (k + 1) * size
  {
    ByteRange(k * size, k * size + size)
  }

  /** The ranges a loop `while k * size < length` (or `while pos < length { pos += size }`) asks for. */
  function Chunks(length: nat, size: nat): seq<ByteRange>
    requires size > 0 || length == 0
  {
    seq(CeilDiv(length, size), (k: nat) => Chunk(k, size))
  }

  /** The count is the ceiling of `length / size`: the last range reaches `length`, the one
      before it does not, and nothing ends at or beyond `length + size`. */
  lemma ChunkCount(length: nat, size: nat)
    requires size > 0
    ensures length <= |Chunks(length, size)| * size < length + size
    ensures length == 0 <==> Chunks(length, size) == []
  {
    CeilDivIff(length, size, CeilDiv(length, size));
  }

  /** The ranges start at 0, are contiguous, each starts inside the object, and the
      last one ends at or after `length`, overshooting it by less than `size`:
      the last range is not clamped. */
  lemma ChunksContiguous(length: nat, size: nat)
    requires size > 0
    ensures var c := Chunks(length, size);
      && (c != [] ==> c[0].start == 0)
      && (forall k :: 0 <= k < |c| - 1 ==> c[k].end == c[k + 1].start)
      && (forall k :: 0 <= k < |c| ==> c[k].start < length)
      && (c != [] ==> length <= c[|c| - 1].end < length + size)
  {
    var c := Chunks(length, size);
    ChunkCount(length, size);
    forall k | 0 <= k < |c|
      ensures c[k].start < length
    {
      assert (k + 1) * size <= |c| * size by { MulLeft(k + 1, |c|, size); }
      assert c[k].start + size == (k + 1) * size;
    }
  }

  /** Every byte of the object lies in exactly one planned range: the one numbered `b / size`. */
  lemma ChunksCover(length: nat, size: nat, b: nat)
    requires size > 0 && b < length
    ensures var c := Chunks(length, size);
      && b / size < |c| && c[b / size].Contains(b)
      && forall k :: 0 <= k < |c| && c[k].Contains(b) ==> k == b / size
  {
    var c := Chunks(length, size);
    ChunkCount(length, size);
    var q := b / size;
    DivUnique(b, size, q) by {
      assert b == q * size + b % size;
    }
    if q >= |c| {
      MulLeft(|c|, q, size);
      assert false;
    }
    assert c[q] == Chunk(q, size);
    forall k | 0 <= k < |c| && c[k].Contains(b)
      ensures k == q
    {
      DivUnique(b, size, k);
    }
  }

  /** Consecutive ranges do not overlap and no two ranges share a byte. */
  lemma ChunksDisjoint(length: nat, size: nat, i: nat, j: nat, b: nat)
    requires size > 0
    requires i < j < |Chunks(length, size)|
    ensures !(Chunk(i, size).Contains(b) && Chunk(j, size).Contains(b))
  {
    MulLeft(i + 1, j, size);
  }

  /** 100 bytes in 40-byte ranges: the third range runs to 120, not to 100. */
  lemma LastRangeNotClamped()
    ensures Chunks(100, 40) == [ByteRange(0, 40), ByteRange(40, 80), ByteRange(80, 120)]
  {
    assert CeilDiv(100, 40) == 3;
  }
}
