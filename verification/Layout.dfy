/** How a file is cut into chunks (self_encryption/src/utils.rs).

    `max` stands for the compile-time option MAX_CHUNK_SIZE. */
module Layout {
  import opened Prelude

  const MIN_CHUNK_SIZE: nat := 1

  function NumChunks(size: nat, max: nat): nat
    requires max >= 1
  {
    if size < 3 * MIN_CHUNK_SIZE then 0
    else if size < 3 * max then 3
    else if size % max == 0 then size / max
    else size / max + 1
  }

  // The source's branches for a remainder below MIN_CHUNK_SIZE follow its test for a zero
  // remainder; with MIN_CHUNK_SIZE == 1 no remainder reaches them.
  function ChunkSize(size: nat, index: nat, max: nat): nat
    requires max >= 1
  {
    if size < 3 * MIN_CHUNK_SIZE then 0
    else if size < 3 * max then
      if index < 2 then size / 3 else size - 2 * (size / 3)
    else
      var total := NumChunks(size, max);
      if index < total - 2 then max
      else
        var remainder := size % max;
        var penultimate := index == total - 2;
        if remainder == 0 then max
        else if penultimate then max
        else remainder
  }

  function StartPosition(size: nat, index: nat, max: nat): nat
    requires max >= 1
    requires index < NumChunks(size, max) || NumChunks(size, max) == 0
  {
    var total := NumChunks(size, max);
    if total == 0 then 0
    else
      var first := ChunkSize(size, 0, max);
      if index == total - 1 then
        NumChunksAtLeast3(size, max);
        first * (index - 1) + ChunkSize(size, index - 1, max)
      else
        first * index
  }

  function StartEnd(size: nat, index: nat, max: nat): (nat, nat)
    requires max >= 1
    requires index < NumChunks(size, max) || NumChunks(size, max) == 0
  {
    if NumChunks(size, max) == 0 then (0, 0)
    else
      var start := StartPosition(size, index, max);
      (start, start + ChunkSize(size, index, max))
  }

  // As in ChunkSize, the branch for a remainder below MIN_CHUNK_SIZE cannot be reached.
  function ChunkIndex(size: nat, position: nat, max: nat): nat
    requires max >= 1
  {
    var total := NumChunks(size, max);
    if total == 0 then 0
    else
      FirstChunkPositive(size, max);
      Min(position / ChunkSize(size, 0, max), total - 1)
  }

  lemma NumChunksAtLeast3(size: nat, max: nat)
    requires max >= 1
    ensures NumChunks(size, max) == 0 <==> size < 3
    ensures NumChunks(size, max) == 0 || NumChunks(size, max) >= 3
    ensures NumChunks(size, max) <= size
  {
    if size >= 3 && size >= 3 * max {
      DivBounds(size, max);
      if size / max < 3 {
        MulLe(size / max, 2, max);
      }
      MulLe(1, max, size / max);
    }
  }

  lemma FirstChunkPositive(size: nat, max: nat)
    requires max >= 1
    requires NumChunks(size, max) != 0
    ensures ChunkSize(size, 0, max) >= 1
  {
    NumChunksAtLeast3(size, max);
  }

  lemma MulLe(a: nat, b: nat, k: nat)
    requires a <= b
    ensures a * k <= b * k
  {
  }

  lemma DivBounds(size: nat, max: nat)
    requires max >= 1
    ensures size == max * (size / max) + size % max
    ensures 0 <= size % max < max
  {
  }

  /** Where chunk `index` begins; the file's end for `index == n`. */
  function Bound(size: nat, index: nat, max: nat): nat
    requires max >= 1
    requires index <= NumChunks(size, max)
  {
    if index == NumChunks(size, max) then size else StartPosition(size, index, max)
  }

  /** Chunk starts are multiples of the first chunk's size. */
  lemma StartIsMultiple(size: nat, index: nat, max: nat)
    requires max >= 1 && index < NumChunks(size, max)
    ensures StartPosition(size, index, max) == ChunkSize(size, 0, max) * index
  {
    NumChunksAtLeast3(size, max);
    var total := NumChunks(size, max);
    var first := ChunkSize(size, 0, max);
    if index == total - 1 {
      assert ChunkSize(size, index - 1, max) == first;
      assert first * (index - 1) + first == first * index;
    }
  }

  /** The number of chunks is the rounded-up quotient once the file has three full chunks. */
  lemma NumChunksIsCeiling(size: nat, max: nat)
    requires max >= 1 && size >= 3 && size >= 3 * max
    ensures var n := NumChunks(size, max);
            n >= 3 && max * (n - 1) < size <= max * n
    ensures var n := NumChunks(size, max);
            ChunkSize(size, n - 1, max) == size - max * (n - 1)
  {
    NumChunksAtLeast3(size, max);
    DivBounds(size, max);
    var q := size / max;
    assert max * (q - 1) == max * q - max;
    assert max * (q + 1) == max * q + max;
  }

  /** The last chunk is what the others, each as long as the first, leave of the file. */
  lemma LastChunkLength(size: nat, max: nat)
    requires max >= 1 && size >= 3
    ensures NumChunks(size, max) >= 3
    ensures var n := NumChunks(size, max);
            && 1 <= ChunkSize(size, n - 1, max) == size - ChunkSize(size, 0, max) * (n - 1)
            && (ChunkSize(size, n - 1, max) <= max || (ChunkSize(size, n - 1, max) == max + 1 && size == 3 * max - 1 && n == 3))
  {
    NumChunksAtLeast3(size, max);
    if size >= 3 * max {
      NumChunksIsCeiling(size, max);
    }
  }

  lemma OtherChunkLength(size: nat, index: nat, max: nat)
    requires max >= 1 && index + 1 < NumChunks(size, max)
    ensures 1 <= ChunkSize(size, index, max) == ChunkSize(size, 0, max) <= max
  {
    NumChunksAtLeast3(size, max);
    FirstChunkPositive(size, max);
  }

  /** The chunks tile the file: each is non-empty and begins where the previous one ends, the first
      at 0 and the last ending at the file's end; each has at most `max` bytes, except that a file of
      3 * max - 1 bytes gets a third chunk of max + 1 bytes. */
  lemma Tiling(size: nat, index: nat, max: nat)
    requires max >= 1 && index < NumChunks(size, max)
    ensures Bound(size, 0, max) == 0 && Bound(size, NumChunks(size, max), max) == size
    ensures StartEnd(size, index, max) == (Bound(size, index, max), Bound(size, index + 1, max))
    ensures Bound(size, index, max) < Bound(size, index + 1, max) <= size
    ensures var length := Bound(size, index + 1, max) - Bound(size, index, max);
            length <= max || (length == max + 1 && size == 3 * max - 1 && index == 2)
  {
    hide NumChunks, ChunkSize, StartPosition;
    NumChunksAtLeast3(size, max);
    var n := NumChunks(size, max);
    var first := ChunkSize(size, 0, max);
    StartIsMultiple(size, 0, max);
    StartIsMultiple(size, index, max);
    LastChunkLength(size, max);
    if index + 1 < n {
      OtherChunkLength(size, index, max);
      StartIsMultiple(size, index + 1, max);
      assert first * (index + 1) == first * index + first;
      MulLe(index + 1, n - 1, first);
    }
  }

  /** Fewer than three bytes have no chunks; from there to three full chunks there are three, of which the first two
      are equally long and the third takes the remainder of the division by three. */
  lemma SmallFiles(size: nat, max: nat)
    requires max >= 1 && size < 3 * max
    ensures size < 3 ==>
              && NumChunks(size, max) == 0
              && (forall index: nat :: ChunkSize(size, index, max) == 0 && StartEnd(size, index, max) == (0, 0))
              && (forall position: nat :: ChunkIndex(size, position, max) == 0)
    ensures size >= 3 ==>
              && NumChunks(size, max) == 3
              && var (a, b, c) := (ChunkSize(size, 0, max), ChunkSize(size, 1, max), ChunkSize(size, 2, max));
                 && a == b && c == a + size % 3 && a + b + c == size && a >= 1
                 && StartEnd(size, 0, max) == (0, a) && StartEnd(size, 1, max) == (a, 2 * a)
                 && StartEnd(size, 2, max) == (2 * a, size)
  {
    if size >= 3 {
      DivBounds(size, 3);
      Tiling(size, 0, max);
      Tiling(size, 1, max);
      Tiling(size, 2, max);
    }
  }

  /** From three full chunks on, every chunk but the last is full, and the last has what is left. */
  lemma FullChunks(size: nat, index: nat, max: nat)
    requires max >= 1 && size >= 3 && size >= 3 * max && index < NumChunks(size, max)
    ensures var (start, end) := StartEnd(size, index, max);
            && start == max * index
            && if index + 1 < NumChunks(size, max) then end == start + max else start < end == size <= start + max
  {
    NumChunksAtLeast3(size, max);
    NumChunksIsCeiling(size, max);
    StartIsMultiple(size, index, max);
    Tiling(size, index, max);
    if index + 1 < NumChunks(size, max) {
      StartIsMultiple(size, index + 1, max);
      assert max * (index + 1) == max * index + max;
    }
  }

  /** The one chunk that is longer than the maximum: the third of a file one byte short of three full chunks. */
  lemma LongestChunk(size: nat, index: nat, max: nat)
    requires max >= 1 && index < NumChunks(size, max)
    ensures var (start, end) := StartEnd(size, index, max);
            && (end - start == max + 1 <==> size == 3 * max - 1 && index == 2)
            && (end - start <= max <==> !(size == 3 * max - 1 && index == 2))
  {
    NumChunksAtLeast3(size, max);
    if size < 3 * max {
      SmallFiles(size, max);
      DivBounds(size, 3);
    } else {
      FullChunks(size, index, max);
    }
  }

  /** Adjacent growth gives growth over any distance. */
  lemma {:induction false} Increasing(b: seq<nat>, i: nat, j: nat)
    requires i < j < |b|
    requires forall k, l | 0 <= k < l < |b| && l <= k + 1 :: b[k] < b[l]
    ensures b[i] < b[j]
    decreases j - i
  {
    if i + 1 < j {
      Increasing(b, i + 1, j);
    }
  }

  /** All chunk boundaries, the file's end included. */
  function Bounds(size: nat, max: nat): (b: seq<nat>)
    requires max >= 1
    ensures |b| == NumChunks(size, max) + 1
    ensures forall k | 0 <= k < |b| :: b[k] == Bound(size, k, max)
  {
    seq(NumChunks(size, max) + 1, k requires 0 <= k <= NumChunks(size, max) => Bound(size, k, max))
  }

  lemma BoundsIncrease(size: nat, max: nat)
    requires max >= 1
    ensures forall k, l | 0 <= k < l <= NumChunks(size, max) && l <= k + 1 :: Bounds(size, max)[k] < Bounds(size, max)[l]
  {
    forall k, l | 0 <= k < l <= NumChunks(size, max) && l <= k + 1
      ensures Bounds(size, max)[k] < Bounds(size, max)[l]
    {
      Tiling(size, k, max);
    }
  }

  /** A later chunk begins strictly later, and no chunk begins after the file's end. */
  lemma BoundMonotone(size: nat, i: nat, j: nat, max: nat)
    requires max >= 1 && i <= j <= NumChunks(size, max) && NumChunks(size, max) > 0
    ensures Bound(size, i, max) <= Bound(size, j, max) <= size
    ensures i < j ==> Bound(size, i, max) < Bound(size, j, max)
  {
    var b := Bounds(size, max);
    BoundsIncrease(size, max);
    if i < j { Increasing(b, i, j); }
    if j < |b| - 1 { Increasing(b, j, |b| - 1); }
    assert b[i] <= b[j] <= b[|b| - 1];
  }

  /** Floor division finds the multiple at or below a position. */
  lemma DivLocates(position: nat, step: nat, index: nat)
    requires step >= 1
    ensures position / step == index <==> step * index <= position < step * (index + 1)
    ensures position / step >= index <==> step * index <= position
  {
    var q := position / step;
    DivBounds(position, step);
    if q < index { MulLe(q + 1, index, step); }
    if q > index { MulLe(index + 1, q, step); }
  }

  /** The closed form finds the one chunk that holds the position, and the last chunk beyond the end. */
  lemma ChunkIndexInvertsLayout(size: nat, position: nat, index: nat, max: nat)
    requires max >= 1 && index < NumChunks(size, max)
    ensures ChunkIndex(size, position, max) < NumChunks(size, max)
    ensures position >= size ==> ChunkIndex(size, position, max) == NumChunks(size, max) - 1
    ensures position < size ==>
              (ChunkIndex(size, position, max) == index <==>
               Bound(size, index, max) <= position < Bound(size, index + 1, max))
  {
    var n := NumChunks(size, max);
    FirstChunkPositive(size, max);
    var first := ChunkSize(size, 0, max);
    var start, end := Bound(size, index, max), Bound(size, index + 1, max);
    assert start == first * index by { StartIsMultiple(size, index, max); }
    assert index + 1 < n ==> end == first * (index + 1) by {
      if index + 1 < n { StartIsMultiple(size, index + 1, max); }
    }
    assert first * (n - 1) < size by {
      StartIsMultiple(size, n - 1, max);
      Tiling(size, n - 1, max);
    }
    IndexFromQuotient(size, position, index, first, n, start, end);
    assert ChunkIndex(size, position, max) == Min(position / first, n - 1);
  }

  lemma IndexFromQuotient(size: nat, position: nat, index: nat, first: nat, n: nat, start: nat, end: nat)
    requires first >= 1 && index < n && start == first * index && first * (n - 1) < size
    requires if index + 1 < n then end == first * (index + 1) else end == size
    ensures position >= size ==> Min(position / first, n - 1) == n - 1
    ensures position < size ==> (Min(position / first, n - 1) == index <==> start <= position < end)
  {
    DivLocates(position, first, index);
    DivLocates(position, first, n - 1);
  }
}
