/** Random access with the closed-form chunk index (self_encryption/src/lib.rs, decrypt_range). */
module RangeDecrypt {
  import opened Prelude
  import opened Layout
  import opened Crypto
  import opened Codec
  import opened Decrypt
  import opened Ranges
  import opened StreamDecrypt

  /** The entries are as large as the layout of their total size makes them. */
  ghost predicate StandardLayout(infos: seq<ChunkInfo>, max: nat) {
    var size := Offset(infos, |infos|);
    && max >= 1 && size >= 3 && |infos| == NumChunks(size, max)
    && forall i | 0 <= i <= |infos| :: Offset(infos, i) == Bound(size, i, max)
  }

  /** The chunks of the entries whose index lies in the range. */
  function Select(get: Getter, infos: seq<ChunkInfo>, first: nat, last: nat): Result<seq<Bytes>> {
    if infos == [] then Success([])
    else
      var info := infos[|infos| - 1];
      var most :- Select(get, infos[..|infos| - 1], first, last);
      if first <= info.index <= last then
        var chunk :- get(info.dstHash);
        Success(most + [chunk])
      else Success(most)
  }

  lemma {:induction false} SelectPrefix(open: Opener, infos: seq<ChunkInfo>, get: Getter, plain: seq<Bytes>,
        first: nat, last: nat, k: nat)
    requires Readable(open, infos, get, plain) && first <= last < |infos| && k <= |infos|
    ensures var r := Select(get, infos[..k], first, last);
            && r.Success? && |r.value| == Min(last + 1, k) - Min(first, k)
            && forall i | 0 <= i < |r.value| :: open(first + i, r.value[i]) == Success(plain[first + i])
  {
    if k > 0 {
      SelectPrefix(open, infos, get, plain, first, last, k - 1);
      assert infos[..k][..k - 1] == infos[..k - 1];
    }
  }

  lemma SelectAll(open: Opener, infos: seq<ChunkInfo>, get: Getter, plain: seq<Bytes>, first: nat, last: nat)
    requires Readable(open, infos, get, plain) && first <= last < |infos|
    ensures var r := Select(get, infos, first, last);
            r.Success? && |r.value| == last + 1 - first && OpensFrom(open, r.value, first, plain)
  {
    SelectPrefix(open, infos, get, plain, first, last, |infos|);
    assert infos[..|infos|] == infos;
  }

  method SelectChunks(table: map<Name, Bytes>, infos: seq<ChunkInfo>, first: nat, last: nat)
    returns (r: Result<seq<Bytes>>)
    ensures r == Select(Lookup(table), infos, first, last)
  {
    var chunks: seq<Bytes> := [];
    for i := 0 to |infos|
      invariant Select(Lookup(table), infos[..i], first, last) == Success(chunks)
    {
      assert infos[..i + 1][..i] == infos[..i];
      if infos[i].index >= first && infos[i].index <= last {
        if infos[i].dstHash !in table {
          SelectFails(Lookup(table), infos, first, last, i + 1);
          return Failure(MissingChunk);
        }
        chunks := chunks + [table[infos[i].dstHash]];
      }
    }
    assert infos[..|infos|] == infos;
    r := Success(chunks);
  }

  lemma {:induction false} SelectFails(get: Getter, infos: seq<ChunkInfo>, first: nat, last: nat, k: nat)
    requires k <= |infos| && Select(get, infos[..k], first, last).Failure?
    ensures Select(get, infos, first, last) == Select(get, infos[..k], first, last)
    decreases |infos| - k
  {
    if k < |infos| {
      assert infos[..k + 1][..k] == infos[..k];
      SelectFails(get, infos, first, last, k + 1);
    } else {
      assert infos[..k] == infos;
    }
  }

  /** The chunks open to the file's, from chunk `first` on. */
  ghost predicate OpensFrom(open: Opener, chunks: seq<Bytes>, first: nat, plain: seq<Bytes>) {
    first + |chunks| <= |plain| && forall i | 0 <= i < |chunks| :: open(first + i, chunks[i]) == Success(plain[first + i])
  }

  /** The chunks opened one after the other, counting up from the first index. */
  function OpenFrom(open: Opener, chunks: seq<Bytes>, first: nat): Result<Bytes> {
    if chunks == [] then Success([])
    else
      var last := |chunks| - 1;
      var most :- OpenFrom(open, chunks[..last], first);
      var plain :- open(first + last, chunks[last]);
      Success(most + plain)
  }

  lemma OpenFromSnoc(open: Opener, chunks: seq<Bytes>, first: nat, k: nat)
    requires k < |chunks|
    ensures OpenFrom(open, chunks[..k + 1], first) ==
            var most, plain := OpenFrom(open, chunks[..k], first), open(first + k, chunks[k]);
            if most.Failure? then most else if plain.Failure? then plain else Success(most.value + plain.value)
  {
    assert chunks[..k + 1][..k] == chunks[..k];
  }

  lemma {:induction false} OpenFromFails(open: Opener, chunks: seq<Bytes>, first: nat, k: nat)
    requires k <= |chunks| && OpenFrom(open, chunks[..k], first).Failure?
    ensures OpenFrom(open, chunks, first) == OpenFrom(open, chunks[..k], first)
    decreases |chunks| - k
  {
    if k < |chunks| {
      OpenFromSnoc(open, chunks, first, k);
      OpenFromFails(open, chunks, first, k + 1);
    } else {
      assert chunks[..k] == chunks;
    }
  }

  lemma {:induction false} OpenFromReads(open: Opener, chunks: seq<Bytes>, first: nat, plain: seq<Bytes>, k: nat)
    requires OpensFrom(open, chunks, first, plain) && k <= |chunks|
    ensures OpenFrom(open, chunks[..k], first) == Success(Concat(plain[first..first + k]))
  {
    if k > 0 {
      OpenFromReads(open, chunks, first, plain, k - 1);
      OpenFromSnoc(open, chunks, first, k - 1);
      ConcatGrows(plain, first, first + k - 1);
    }
  }

  method OpenChunks(cr: Suite, hashes: seq<Name>, level: nat, chunks: seq<Bytes>, first: nat) returns (r: Result<Bytes>)
    ensures r == OpenFrom(OpensWith(cr, hashes, level), chunks, first)
  {
    ghost var open := OpensWith(cr, hashes, level);
    var allBytes: Bytes := [];
    for i := 0 to |chunks|
      invariant OpenFrom(open, chunks[..i], first) == Success(allBytes)
    {
      OpenFromSnoc(open, chunks, first, i);
      var decrypted := DecryptChunk(cr, first + i, chunks[i], hashes, level);
      assert decrypted == open(first + i, chunks[i]);
      if decrypted.Failure? {
        OpenFromFails(open, chunks, first, i + 1);
        return Failure(decrypted.error);
      }
      allBytes := allBytes + decrypted.value;
    }
    assert chunks[..|chunks|] == chunks;
    r := Success(allBytes);
  }

  /** The range's first and last chunk by the closed form, on a standard layout. */
  lemma ChunksOfRange(infos: seq<ChunkInfo>, max: nat, position: nat, len: nat)
    requires StandardLayout(infos, max)
    ensures var size := Offset(infos, |infos|);
            var first, last := ChunkIndex(size, position, max), ChunkIndex(size, Min(position + len, size), max);
            && first <= last < |infos|
            && Offset(infos, first) <= position && Min(position + len, size) <= Offset(infos, last + 1)
            && StartPosition(size, first, max) == Offset(infos, first)
  {
    var size := Offset(infos, |infos|);
    var end := Min(position + len, size);
    ChunkIndexInvertsLayout(size, position, 0, max);
    ChunkIndexInvertsLayout(size, end, 0, max);
    var first, last := ChunkIndex(size, position, max), ChunkIndex(size, end, max);
    ChunkIndexInvertsLayout(size, position, first, max);
    ChunkIndexInvertsLayout(size, end, last, max);
    BoundMonotone(size, first, |infos|, max);
    if last < first { BoundMonotone(size, last + 1, first, max); }
  }

  lemma StartAtMostPosition(size: nat, position: nat, max: nat)
    requires max >= 1
    ensures var first := ChunkIndex(size, position, max);
            (first < NumChunks(size, max) || NumChunks(size, max) == 0) && StartPosition(size, first, max) <= position
  {
    if NumChunks(size, max) != 0 {
      ChunkIndexInvertsLayout(size, position, 0, max);
      ChunkIndexInvertsLayout(size, position, ChunkIndex(size, position, max), max);
      BoundMonotone(size, ChunkIndex(size, position, max), NumChunks(size, max), max);
    }
  }

  /** The chunks from `first` to `last` cover the range and begin at `start`. */
  ghost predicate Covers(infos: seq<ChunkInfo>, first: nat, last: nat, start: nat, position: nat, len: nat) {
    && first <= last < |infos| && start == Offset(infos, first) <= position
    && Min(position + len, Offset(infos, |infos|)) <= Offset(infos, last + 1)
  }

  lemma CoveredSlice(open: Opener, infos: seq<ChunkInfo>, get: Getter, plain: seq<Bytes>, first: nat, last: nat,
        start: nat, position: nat, len: nat)
    requires Covers(infos, first, last, start, position, len) && Readable(open, infos, get, plain)
    ensures |plain| == |infos|
    ensures Slice(Concat(plain[first..last + 1]), position - start, len) == Slice(Concat(plain), position, len)
  {
    SliceFromChunks(infos, plain, first, last, position, len);
  }

  /** The chunks of an index range opened, and a range cut out of them where the first is taken to start. */
  function RangeBetween(open: Opener, get: Getter, infos: seq<ChunkInfo>, first: nat, last: nat, start: nat,
        filePos: nat, len: nat): Result<Bytes>
    requires start <= filePos
  {
    var selected :- Select(get, infos, first, last);
    var bytes :- OpenFrom(open, selected, first);
    Success(Slice(bytes, filePos - start, len))
  }

  /** The range up to a position, with the chunks that the closed forms name. */
  function RangeUpTo(open: Opener, get: Getter, infos: seq<ChunkInfo>, max: nat, filePos: nat, end: nat,
        len: nat): Result<Bytes>
    requires max >= 1
  {
    var size := Offset(infos, |infos|);
    StartAtMostPosition(size, filePos, max);
    var first := ChunkIndex(size, filePos, max);
    RangeBetween(open, get, infos, first, ChunkIndex(size, end, max), StartPosition(size, first, max), filePos, len)
  }

  /** What decryption of a range returns, on any map. The sum is not checked. */
  function RangeOf(open: Opener, get: Getter, infos: seq<ChunkInfo>, max: nat, filePos: nat, len: nat): Result<Bytes>
    requires max >= 1
  {
    RangeUpTo(open, get, infos, max, filePos, Min(WrapAdd(filePos, len), Offset(infos, |infos|)), len)
  }

  method DecryptRange(cr: Suite, max: nat, m: DataMap, chunks: seq<Bytes>, filePos: nat, len: nat)
    returns (r: Result<Bytes>)
    requires max >= 1 && filePos < USIZE_LIMIT && len < USIZE_LIMIT && m.OriginalFileSize() < USIZE_LIMIT
    ensures r == RangeOf(OpensWith(cr, ExtractHashes(m), m.Level()), Lookup(Table(cr.hash, chunks)), m.infos, max, filePos, len)
  {
    var size := m.OriginalFileSize();
    var startChunk := ChunkIndex(size, filePos, max);
    var endPos := Min(WrapAdd(filePos, len), size);
    var endChunk := ChunkIndex(size, endPos, max);
    StartAtMostPosition(size, filePos, max);
    var chunkStartPos := StartPosition(size, startChunk, max);
    r := OpenBetween(cr, m, chunks, startChunk, endChunk, chunkStartPos, filePos, len);
  }

  /** The part of DecryptRange that touches the chunks. */
  method OpenBetween(cr: Suite, m: DataMap, chunks: seq<Bytes>, first: nat, last: nat, start: nat, filePos: nat,
        len: nat)
    returns (r: Result<Bytes>)
    requires start <= filePos
    ensures r == RangeBetween(OpensWith(cr, ExtractHashes(m), m.Level()), Lookup(Table(cr.hash, chunks)), m.infos,
                              first, last, start, filePos, len)
  {
    var table := BuildTable(cr, chunks);
    var sorted := SelectChunks(table, m.infos, first, last);
    if sorted.Failure? { return Failure(sorted.error); }
    var bytes := OpenChunks(cr, ExtractHashes(m), m.Level(), sorted.value, first);
    if bytes.Failure? { return Failure(bytes.error); }
    var cut := CutRange(bytes.value, filePos - start, len);
    r := Success(cut);
  }

  // When a range decrypts, for any map and any chunks.

  /** Entry `i` is outside the range, or its chunk is there. */
  ghost predicate FoundIfDue(get: Getter, infos: seq<ChunkInfo>, first: nat, last: nat, i: nat)
    requires i < |infos|
  {
    first <= infos[i].index <= last ==> get(infos[i].dstHash).Success?
  }

  lemma SelectSnoc(get: Getter, infos: seq<ChunkInfo>, first: nat, last: nat, k: nat)
    requires k < |infos|
    ensures Select(get, infos[..k + 1], first, last) ==
            var most, chunk := Select(get, infos[..k], first, last), get(infos[k].dstHash);
            if most.Failure? || !(first <= infos[k].index <= last) then most
            else if chunk.Failure? then Failure(chunk.error) else Success(most.value + [chunk.value])
  {
    assert infos[..k + 1][..k] == infos[..k];
  }

  /** The chunks of an index range are selected exactly if each is there; */
  lemma {:induction false} SelectsExactly(get: Getter, infos: seq<ChunkInfo>, first: nat, last: nat, k: nat)
    requires k <= |infos|
    ensures Select(get, infos[..k], first, last).Success? <==>
            forall i | 0 <= i < k :: FoundIfDue(get, infos, first, last, i)
  {
    if k > 0 {
      SelectsExactly(get, infos, first, last, k - 1);
      SelectSnoc(get, infos, first, last, k - 1);
      assert FoundIfDue(get, infos, first, last, k - 1) <==>
             first <= infos[k - 1].index <= last ==> get(infos[k - 1].dstHash).Success?;
    }
  }

  /** if not, the failure is that of the first that is missing. */
  lemma {:induction false} SelectingFails(get: Getter, infos: seq<ChunkInfo>, first: nat, last: nat, k: nat)
    returns (i: nat)
    requires k <= |infos| && Select(get, infos[..k], first, last).Failure?
    ensures i < k && first <= infos[i].index <= last && forall j | 0 <= j < i :: FoundIfDue(get, infos, first, last, j)
    ensures get(infos[i].dstHash) == Failure(Select(get, infos[..k], first, last).error)
  {
    SelectSnoc(get, infos, first, last, k - 1);
    if Select(get, infos[..k - 1], first, last).Failure? {
      i := SelectingFails(get, infos, first, last, k - 1);
    } else {
      SelectsExactly(get, infos, first, last, k - 1);
      i := k - 1;
    }
  }

  /** The entries of an index range. */
  function Due(infos: seq<ChunkInfo>, first: nat, last: nat): seq<ChunkInfo> {
    if infos == [] then []
    else
      var info := infos[|infos| - 1];
      Due(infos[..|infos| - 1], first, last) + if first <= info.index <= last then [info] else []
  }

  /** Due are all entries with an index in the range, in the order they are in, and no others. */
  lemma {:induction false} DueExactly(infos: seq<ChunkInfo>, first: nat, last: nat, index: nat)
    ensures WithIndex(Due(infos, first, last), index) == if first <= index <= last then WithIndex(infos, index) else []
  {
    if infos != [] {
      var most, info := infos[..|infos| - 1], infos[|infos| - 1];
      DueExactly(most, first, last, index);
      WithIndexSnoc(most, info, index);
      assert infos == most + [info];
      if first <= info.index <= last {
        WithIndexSnoc(Due(most, first, last), info, index);
      } else {
        assert Due(infos, first, last) == Due(most, first, last);
      }
    }
  }

  /** Selected are the chunks that are gathered for the entries due, in their order. */
  lemma {:induction false} SelectIsGather(get: Getter, infos: seq<ChunkInfo>, first: nat, last: nat)
    ensures Select(get, infos, first, last) == Gather(get, Due(infos, first, last))
  {
    if infos != [] {
      var most, info := infos[..|infos| - 1], infos[|infos| - 1];
      SelectIsGather(get, most, first, last);
      var due := Due(most, first, last);
      if first <= info.index <= last {
        assert (due + [info])[..|due|] == due;
        GatherSnoc(get, due + [info], |due|);
        assert (due + [info])[..|due| + 1] == due + [info];
      } else {
        assert due + [] == due;
      }
    }
  }

  /** Chunk `i` of the list opens as chunk `first + i`. */
  ghost predicate OpensInPlace(open: Opener, chunks: seq<Bytes>, first: nat, i: nat)
    requires i < |chunks|
  {
    open(first + i, chunks[i]).Success?
  }

  /** The chunks open exactly if each opens at its place, counted from the first index; */
  lemma {:induction false} OpensFromExactly(open: Opener, chunks: seq<Bytes>, first: nat, k: nat)
    requires k <= |chunks|
    ensures OpenFrom(open, chunks[..k], first).Success? <==> forall i | 0 <= i < k :: OpensInPlace(open, chunks, first, i)
  {
    if k > 0 {
      OpensFromExactly(open, chunks, first, k - 1);
      OpenFromSnoc(open, chunks, first, k - 1);
      assert OpensInPlace(open, chunks, first, k - 1) <==> open(first + k - 1, chunks[k - 1]).Success?;
    }
  }

  /** if not, the failure is that of the first that does not. */
  lemma {:induction false} OpeningFromFails(open: Opener, chunks: seq<Bytes>, first: nat, k: nat) returns (i: nat)
    requires k <= |chunks| && OpenFrom(open, chunks[..k], first).Failure?
    ensures i < k && forall j | 0 <= j < i :: OpensInPlace(open, chunks, first, j)
    ensures open(first + i, chunks[i]) == Failure(OpenFrom(open, chunks[..k], first).error)
  {
    OpenFromSnoc(open, chunks, first, k - 1);
    if OpenFrom(open, chunks[..k - 1], first).Failure? {
      i := OpeningFromFails(open, chunks, first, k - 1);
    } else {
      OpensFromExactly(open, chunks, first, k - 1);
      i := k - 1;
    }
  }

  /** A range decrypts exactly if every entry between the chunks of its two ends is found and opens. A missing chunk
      fails the request, before any is opened. */
  lemma {:induction false} DecryptsRangeExactly(open: Opener, hash: Bytes -> Name, chunks: seq<Bytes>,
        infos: seq<ChunkInfo>,
        max: nat, filePos: nat, len: nat)
    requires max >= 1 && filePos < USIZE_LIMIT && len < USIZE_LIMIT
    ensures var size := Offset(infos, |infos|);
            var end := if filePos + len < USIZE_LIMIT then filePos + len else filePos + len - USIZE_LIMIT;
            var first, last := ChunkIndex(size, filePos, max), ChunkIndex(size, if end <= size then end else size, max);
            var get := Lookup(Table(hash, chunks));
            var found := forall i | 0 <= i < |infos| :: FoundIfDue(get, infos, first, last, i);
            var selected := Select(get, infos, first, last);
            var r := RangeOf(open, get, infos, max, filePos, len);
            && (!found ==> r == Failure(MissingChunk))
            && (found ==> selected.Success?
                          && (r.Success? <==>
                              forall i | 0 <= i < |selected.value| :: OpensInPlace(open, selected.value, first, i)))
  {
    var size := Offset(infos, |infos|);
    var end := if filePos + len < USIZE_LIMIT then filePos + len else filePos + len - USIZE_LIMIT;
    var first, last := ChunkIndex(size, filePos, max), ChunkIndex(size, if end <= size then end else size, max);
    var get := Lookup(Table(hash, chunks));
    StartAtMostPosition(size, filePos, max);
    RangeOfIsBetween(open, get, infos, max, filePos, len, first, last, StartPosition(size, first, max));
    SelectsExactly(get, infos, first, last, |infos|);
    assert infos[..|infos|] == infos;
    var selected := Select(get, infos, first, last);
    if selected.Failure? {
      var i := SelectingFails(get, infos, first, last, |infos|);
    } else {
      OpensFromExactly(open, selected.value, first, |selected.value|);
      assert selected.value[..|selected.value|] == selected.value;
    }
  }

  lemma {:induction false} RangeOfIsBetween(open: Opener, get: Getter, infos: seq<ChunkInfo>, max: nat, filePos: nat,
        len: nat, first: nat, last: nat, start: nat)
    requires max >= 1 && filePos < USIZE_LIMIT && len < USIZE_LIMIT
    requires first == ChunkIndex(Offset(infos, |infos|), filePos, max)
    requires last == ChunkIndex(Offset(infos, |infos|), Min(WrapAdd(filePos, len), Offset(infos, |infos|)), max)
    requires first < NumChunks(Offset(infos, |infos|), max) || NumChunks(Offset(infos, |infos|), max) == 0
    requires start == StartPosition(Offset(infos, |infos|), first, max) <= filePos
    ensures RangeOf(open, get, infos, max, filePos, len) == RangeBetween(open, get, infos, first, last, start, filePos, len)
  {
  }

  lemma BetweenOpens(open: Opener, get: Getter, infos: seq<ChunkInfo>, first: nat, last: nat, start: nat,
        filePos: nat, len: nat, inside: Bytes)
    requires start <= filePos
    requires Select(get, infos, first, last).Success?
    requires OpenFrom(open, Select(get, infos, first, last).value, first)
          == Success(inside)
    ensures RangeBetween(open, get, infos, first, last, start, filePos, len) == Success(Slice(inside, filePos - start, len))
  {
  }

  lemma BetweenReads(open: Opener, get: Getter, infos: seq<ChunkInfo>, first: nat, last: nat, start: nat,
        filePos: nat, len: nat, plain: seq<Bytes>)
    requires start <= filePos && first <= last < |infos|
    requires Readable(open, infos, get, plain)
    ensures RangeBetween(open, get, infos, first, last, start, filePos, len) == Success(Slice(Concat(plain[first..last + 1]), filePos - start, len))
  {
    SelectedOpens(open, infos, get, plain, first, last);
    BetweenOpens(open, get, infos, first, last, start, filePos, len, Concat(plain[first..last + 1]));
  }

  lemma CoveredRange(open: Opener, get: Getter, infos: seq<ChunkInfo>, first: nat, last: nat, start: nat,
        filePos: nat, len: nat, plain: seq<Bytes>)
    requires Covers(infos, first, last, start, filePos, len)
    requires Readable(open, infos, get, plain)
    ensures RangeBetween(open, get, infos, first, last, start, filePos, len) == Success(Slice(Concat(plain), filePos, len))
  {
    BetweenReads(open, get, infos, first, last, start, filePos, len, plain);
    CoveredSlice(open, infos, get, plain, first, last,
                 start, filePos, len);
  }

  /** On a standard-layout map the closed form finds the same bytes as the scan of the entries: exactly the
      file's bytes from the position on, at most `len` of them. */
  lemma {:induction false} RangeOfIsSlice(open: Opener, get: Getter, infos: seq<ChunkInfo>, max: nat, filePos: nat,
        len: nat, plain: seq<Bytes>)
    requires StandardLayout(infos, max) && filePos + len < USIZE_LIMIT
    requires Readable(open, infos, get, plain)
    ensures RangeOf(open, get, infos, max, filePos, len) == Success(Slice(Concat(plain), filePos, len))
  {
    RangeUpToReads(open, get, infos, max, filePos, len, plain);
    NoOverflow(open, get, infos, max, filePos, len, Success(Slice(Concat(plain), filePos, len)));
  }

  lemma {:induction false} NoOverflow(open: Opener, get: Getter, infos: seq<ChunkInfo>, max: nat, filePos: nat,
        len: nat, r: Result<Bytes>)
    requires max >= 1 && filePos + len < USIZE_LIMIT
    requires RangeUpTo(open, get, infos, max, filePos, Min(filePos + len, Offset(infos, |infos|)), len) == r
    ensures RangeOf(open, get, infos, max, filePos, len) == r
  {
  }

  lemma {:induction false} RangeUpToReads(open: Opener, get: Getter, infos: seq<ChunkInfo>, max: nat, filePos: nat,
        len: nat, plain: seq<Bytes>)
    requires StandardLayout(infos, max)
    requires Readable(open, infos, get, plain)
    ensures RangeUpTo(open, get, infos, max, filePos, Min(filePos + len, Offset(infos, |infos|)), len)
         == Success(Slice(Concat(plain), filePos, len))
  {
    var first, last, start := FirstAndLast(infos, max, filePos, len);
    CoveredRange(open, get, infos, first, last, start, filePos, len, plain);
    RangeUpToIs(open, get, infos, max, filePos, Min(filePos + len, Offset(infos, |infos|)), len, first, last, start);
  }

  lemma {:induction false} RangeUpToIs(open: Opener, get: Getter, infos: seq<ChunkInfo>, max: nat, filePos: nat,
        end: nat, len: nat, first: nat, last: nat, start: nat)
    requires max >= 1 && first == ChunkIndex(Offset(infos, |infos|), filePos, max)
    requires last == ChunkIndex(Offset(infos, |infos|), end, max)
    requires first < NumChunks(Offset(infos, |infos|), max)
    requires start == StartPosition(Offset(infos, |infos|), first, max) <= filePos
    ensures RangeUpTo(open, get, infos, max, filePos, end, len) == RangeBetween(open, get, infos, first, last, start, filePos, len)
  {
  }

  /** Whether `filePos + len` fits a usize, or does not and makes no difference: the position is beyond the end, or
      the wrapped sum falls into the last chunk too. */
  predicate WrapsHarmlessly(size: nat, max: nat, filePos: nat, len: nat)
    requires max >= 1
  {
    || filePos + len < USIZE_LIMIT
    || filePos >= size
    || ChunkIndex(size, WrapAdd(filePos, len), max) + 1 == NumChunks(size, max)
  }

  lemma ChunkIndexIsMonotone(size: nat, max: nat, p: nat, q: nat)
    requires max >= 1 && NumChunks(size, max) > 0 && p <= q
    ensures ChunkIndex(size, p, max) <= ChunkIndex(size, q, max) < NumChunks(size, max)
  {
    FirstChunkPositive(size, max);
    var step := ChunkSize(size, 0, max);
    DivLocates(p, step, p / step);
    DivLocates(q, step, p / step);
  }

  lemma {:induction false} NothingSelected(get: Getter, infos: seq<ChunkInfo>, first: nat, last: nat)
    requires last < first
    ensures Select(get, infos, first, last) == Success([])
  {
    if infos != [] {
      NothingSelected(get, infos[..|infos| - 1], first, last);
    }
  }

  /** Where the range begins, and what the layout says of its chunk. */
  lemma RangeBegins(infos: seq<ChunkInfo>, max: nat, filePos: nat)
    requires StandardLayout(infos, max)
    ensures var size := Offset(infos, |infos|);
            var first := ChunkIndex(size, filePos, max);
            && first < |infos| == NumChunks(size, max) && StartPosition(size, first, max) == Offset(infos, first) <= filePos
            && (filePos < size ==> filePos < Offset(infos, first + 1))
            && (filePos >= size ==> first + 1 == |infos|)
            && (Offset(infos, first + 1) == size <==> first + 1 == |infos|)
  {
    var size := Offset(infos, |infos|);
    NumChunksAtLeast3(size, max);
    ChunkIndexInvertsLayout(size, filePos, 0, max);
    var first := ChunkIndex(size, filePos, max);
    ChunkIndexInvertsLayout(size, filePos, first, max);
    BoundMonotone(size, first, |infos|, max);
    BoundMonotone(size, first + 1, |infos|, max);
    assert Offset(infos, first) == Bound(size, first, max) && Offset(infos, first + 1) == Bound(size, first + 1, max);
  }

  /** An overflowing range request: nothing, or what the chunk of the position has left. */
  lemma {:induction false} OverflowedRangeOf(open: Opener, get: Getter, infos: seq<ChunkInfo>, max: nat, filePos: nat,
        len: nat, plain: seq<Bytes>)
    returns (first: nat, last: nat, r: Result<Bytes>)
    requires StandardLayout(infos, max) && Offset(infos, |infos|) < USIZE_LIMIT
    requires filePos < USIZE_LIMIT && len < USIZE_LIMIT && filePos + len >= USIZE_LIMIT
    requires Readable(open, infos, get, plain)
    ensures first == ChunkIndex(Offset(infos, |infos|), filePos, max) < |infos| == |plain|
    ensures Offset(infos, first) <= filePos
    ensures last == ChunkIndex(Offset(infos, |infos|), Min(WrapAdd(filePos, len), Offset(infos, |infos|)), max) <= first
    ensures r == Success(if last == first then Slice(plain[first], filePos - Offset(infos, first), len) else [])
    ensures RangeOf(open, get, infos, max, filePos, len) == r
  {
    var size := Offset(infos, |infos|);
    RangeBegins(infos, max, filePos);
    first := ChunkIndex(size, filePos, max);
    var end := Min(WrapAdd(filePos, len), size);
    ChunkIndexIsMonotone(size, max, end, filePos);
    last := ChunkIndex(size, end, max);
    r := BetweenOverflowed(open, get, infos, first, last, filePos, len, plain);
    RangeUpToIs(open, get, infos, max, filePos, end, len, first, last, Offset(infos, first));
  }

  lemma {:induction false} BetweenOverflowed(open: Opener, get: Getter, infos: seq<ChunkInfo>, first: nat, last: nat,
        filePos: nat, len: nat, plain: seq<Bytes>) returns (r: Result<Bytes>)
    requires last <= first < |infos| && Offset(infos, first) <= filePos
    requires Readable(open, infos, get, plain)
    ensures |plain| == |infos|
    ensures r == Success(if last == first then Slice(plain[first], filePos - Offset(infos, first), len) else [])
    ensures RangeBetween(open, get, infos, first, last, Offset(infos, first), filePos, len) == r
  {
    if last == first {
      BetweenOne(open, get, infos, first, filePos, len, plain);
      r := Success(Slice(plain[first], filePos - Offset(infos, first), len));
    } else {
      BetweenNothing(open, get, infos, first, last, Offset(infos, first), filePos, len);
      r := Success([]);
    }
  }

  lemma {:induction false} BetweenOne(open: Opener, get: Getter, infos: seq<ChunkInfo>, k: nat, filePos: nat,
        len: nat, plain: seq<Bytes>)
    requires k < |infos| && Offset(infos, k) <= filePos
    requires Readable(open, infos, get, plain)
    ensures |plain| == |infos|
    ensures RangeBetween(open, get, infos, k, k, Offset(infos, k), filePos, len) == Success(Slice(plain[k], filePos - Offset(infos, k), len))
  {
    BetweenReads(open, get, infos, k, k, Offset(infos, k), filePos, len, plain);
    OneChunk(plain, k);
  }

  lemma {:induction false} BetweenNothing(open: Opener, get: Getter, infos: seq<ChunkInfo>, first: nat, last: nat,
        start: nat, filePos: nat, len: nat)
    requires last < first && start <= filePos
    ensures RangeBetween(open, get, infos, first, last, start, filePos, len) == Success([])
  {
    NothingSelected(get, infos, first, last);
    BetweenOpens(open, get, infos, first, last, start, filePos, len, []);
  }

  lemma OneChunk(plain: seq<Bytes>, k: nat)
    requires k < |plain|
    ensures Concat(plain[k..k + 1]) == plain[k]
  {
    assert plain[k..k + 1][..0] == [];
  }

  /** A range request on a standard-layout map returns the slice if and only if its sum wraps harmlessly. */
  lemma RangeOfExactly(open: Opener, get: Getter, infos: seq<ChunkInfo>, max: nat, filePos: nat, len: nat,
        plain: seq<Bytes>)
    requires StandardLayout(infos, max) && Offset(infos, |infos|) < USIZE_LIMIT && filePos < USIZE_LIMIT
    requires len < USIZE_LIMIT
    requires Readable(open, infos, get, plain)
    ensures RangeOf(open, get, infos, max, filePos, len) == Success(Slice(Concat(plain), filePos, len))
            <==> WrapsHarmlessly(Offset(infos, |infos|), max, filePos, len)
  {
    if filePos + len < USIZE_LIMIT {
      RangeOfIsSlice(open, get, infos, max, filePos, len, plain);
    } else {
      OverflowedExactly(open, get, infos, max, filePos, len, plain);
    }
  }

  lemma {:induction false} OverflowedExactly(open: Opener, get: Getter, infos: seq<ChunkInfo>, max: nat, filePos: nat,
        len: nat, plain: seq<Bytes>)
    requires StandardLayout(infos, max) && Offset(infos, |infos|) < USIZE_LIMIT
    requires filePos < USIZE_LIMIT && len < USIZE_LIMIT && filePos + len >= USIZE_LIMIT
    requires Readable(open, infos, get, plain)
    ensures RangeOf(open, get, infos, max, filePos, len) == Success(Slice(Concat(plain), filePos, len))
            <==> WrapsHarmlessly(Offset(infos, |infos|), max, filePos, len)
  {
    var first, last, r := OverflowedRangeOf(open, get, infos, max, filePos, len, plain);
    ReadableSizes(open, infos, get, plain);
    OverflowIff(infos, max, plain, filePos, len, first, last, r);
  }

  ghost predicate SizesMatch(infos: seq<ChunkInfo>, plain: seq<Bytes>) {
    |plain| == |infos| && forall i | 0 <= i < |infos| :: infos[i].srcSize == |plain[i]|
  }

  lemma ReadableSizes(open: Opener, infos: seq<ChunkInfo>, get: Getter, plain: seq<Bytes>)
    requires Readable(open, infos, get, plain)
    ensures SizesMatch(infos, plain)
  {
  }

  lemma {:induction false} OverflowIff(infos: seq<ChunkInfo>, max: nat, plain: seq<Bytes>, filePos: nat, len: nat,
        first: nat, last: nat, r: Result<Bytes>)
    requires StandardLayout(infos, max) && SizesMatch(infos, plain)
    requires Offset(infos, |infos|) < USIZE_LIMIT && filePos < USIZE_LIMIT && len < USIZE_LIMIT
    requires filePos + len >= USIZE_LIMIT
    requires first == ChunkIndex(Offset(infos, |infos|), filePos, max) < |infos| && Offset(infos, first) <= filePos
    requires last == ChunkIndex(Offset(infos, |infos|), Min(WrapAdd(filePos, len), Offset(infos, |infos|)), max) <= first
    requires r == Success(if last == first then Slice(plain[first], filePos - Offset(infos, first), len) else [])
    ensures r == Success(Slice(Concat(plain), filePos, len)) <==> WrapsHarmlessly(Offset(infos, |infos|), max, filePos, len)
  {
    WhatIsLeft(infos, max, plain, filePos, len);
  }

  /** What a chunk has left from a position is what the file has left, exactly if it is the last chunk. */
  lemma {:induction false} WhatIsLeft(infos: seq<ChunkInfo>, max: nat, plain: seq<Bytes>, filePos: nat, len: nat)
    requires StandardLayout(infos, max) && |plain| == |infos| && forall i | 0 <= i < |infos| :: infos[i].srcSize == |plain[i]|
    requires Offset(infos, |infos|) <= filePos + len
    ensures var size := Offset(infos, |infos|);
            var first := ChunkIndex(size, filePos, max);
            && first < |infos| && Offset(infos, first) <= filePos
            && (filePos < size ==> Slice(Concat(plain), filePos, len) != [])
            && (filePos < size ==>
                  (Slice(plain[first], filePos - Offset(infos, first), len) == Slice(Concat(plain), filePos, len) <==> first + 1 == |infos|))
            && (filePos >= size ==>
                  Slice(plain[first], filePos - Offset(infos, first), len) == [] && Slice(Concat(plain), filePos, len) == [])
  {
    var size := Offset(infos, |infos|);
    RangeBegins(infos, max, filePos);
    var first := ChunkIndex(size, filePos, max);
    OffsetIsLength(infos, plain, |infos|);
    assert plain[..|infos|] == plain;
    if filePos < size {
      RestOfChunk(infos, plain, first, filePos, len);
    } else {
      assert Offset(infos, first + 1) == Offset(infos, first) + |plain[first]|;
    }
  }

  lemma FirstAndLast(infos: seq<ChunkInfo>, max: nat, filePos: nat, len: nat)
    returns (first: nat, last: nat, start: nat)
    requires StandardLayout(infos, max)
    ensures first == ChunkIndex(Offset(infos, |infos|), filePos, max)
    ensures last == ChunkIndex(Offset(infos, |infos|), Min(filePos + len, Offset(infos, |infos|)), max)
    ensures first < NumChunks(Offset(infos, |infos|), max) && start == StartPosition(Offset(infos, |infos|), first, max)
    ensures Covers(infos, first, last, start, filePos, len)
  {
    ChunksOfRange(infos, max, filePos, len);
    var size := Offset(infos, |infos|);
    first, last := ChunkIndex(size, filePos, max), ChunkIndex(size, Min(filePos + len, size), max);
    start := StartPosition(size, first, max);
  }

  lemma SelectedOpens(open: Opener, infos: seq<ChunkInfo>, get: Getter, plain: seq<Bytes>, first: nat, last: nat)
    requires Readable(open, infos, get, plain) && first <= last < |infos|
    ensures Select(get, infos, first, last).Success?
    ensures OpenFrom(open, Select(get, infos, first, last).value, first) == Success(Concat(plain[first..last + 1]))
  {
    SelectAll(open, infos, get, plain, first, last);
    var selected := Select(get, infos, first, last).value;
    OpenFromReads(open, selected, first, plain, |selected|);
    assert selected[..|selected|] == selected;
  }
}
