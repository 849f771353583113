/** Stream decryption with getters that leave chunks out, fail, or change their answers between calls
    (self_encryption/src/stream_decrypt.rs). */
module StreamFaults {
  import opened Prelude
  import opened Codec
  import opened Crypto
  import opened Decrypt
  import opened Parallel
  import opened Ranges
  import opened StreamDecrypt

  // Chunks left out of an answer. The getter in the documentation of get_range answers what it has and says
  // nothing about the rest.

  /** Whatever is asked for, some of it is answered, as the getter would and in any order. */
  ghost predicate AnswersSome(batch: BatchGetter, get: Getter) {
    forall request | Answerable(get, request) ::
      batch(request).Success? && multiset(batch(request).value) <= multiset(Answers(get, request))
  }

  /** The chunks from `first` up to `end` whose index is one of `kept`, joined. */
  function Kept(plain: seq<Bytes>, kept: set<nat>, first: nat, end: nat): Bytes
    requires end <= |plain|
  {
    if end <= first then []
    else Kept(plain, kept, first, end - 1) + if end - 1 in kept then plain[end - 1] else []
  }

  /** What the map has opens to the file's chunks. */
  ghost predicate MapIsHonest(open: Opener, chunkMap: map<nat, Bytes>, plain: seq<Bytes>) {
    forall i | i in chunkMap :: i < |plain| && open(i, chunkMap[i]) == Success(plain[i])
  }

  lemma {:induction false} OpenIndicesKeeps(open: Opener, chunkMap: map<nat, Bytes>, plain: seq<Bytes>, first: nat,
        end: nat)
    requires MapIsHonest(open, chunkMap, plain) && end <= |plain|
    ensures OpenIndices(open, chunkMap, first, end) == Success(Kept(plain, chunkMap.Keys, first, end))
    decreases end
  {
    if first < end {
      OpenIndicesKeeps(open, chunkMap, plain, first, end - 1);
      var most := Kept(plain, chunkMap.Keys, first, end - 1);
      assert end - 1 !in chunkMap ==> most + [] == most;
    }
  }

  /** Collected into a map, some of the expected answers are still those answers. */
  lemma SomeAnswersAreHonest(open: Opener, infos: seq<ChunkInfo>, get: Getter, plain: seq<Bytes>,
        first: nat, end: nat, answers: seq<(nat, Bytes)>)
    requires Readable(open, infos, get, plain) && first <= end <= |infos|
    requires Answerable(get, Request(infos[first..end]))
    requires multiset(answers) <= multiset(Answers(get, Request(infos[first..end])))
    ensures MapIsHonest(open, ToMap(answers), plain)
  {
    var expected := Answers(get, Request(infos[first..end]));
    ToMapFacts(answers);
    forall i | i in ToMap(answers)
      ensures i < |plain| && open(i, ToMap(answers)[i]) == Success(plain[i])
    {
      assert (i, ToMap(answers)[i]) in multiset(answers);
      assert (i, ToMap(answers)[i]) in multiset(expected);
      var j :| 0 <= j < |expected| && expected[j] == (i, ToMap(answers)[i]);
      SliceAt(infos, first, end, j);
    }
  }

  /** The indices for which a request of the chunks `first` to `last` is answered. */
  function Answered(batch: BatchGetter, infos: seq<ChunkInfo>, first: nat, last: nat): set<nat> {
    var r := batch(SortByKey(RequestRange(infos, first, last)));
    if r.Success? then ToMap(r.value).Keys else {}
  }

  lemma SomeOfTheRange(open: Opener, get: Getter, plain: seq<Bytes>, batch: BatchGetter,
        infos: seq<ChunkInfo>, first: nat, last: nat)
    returns (answers: seq<(nat, Bytes)>)
    requires Readable(open, infos, get, plain) && AnswersSome(batch, get) && first <= last < |infos|
    ensures batch(SortByKey(RequestRange(infos, first, last))) == Success(answers)
    ensures MapIsHonest(open, ToMap(answers), plain)
  {
    var request := Request(infos[first..last + 1]);
    BatchRequest(open, infos, get, plain, first, last + 1);
    RequestRangeIs(infos, first, last);
    SortRestores(request, request);
    answers := batch(request).value;
    SomeAnswersAreHonest(open, infos, get, plain, first, last + 1, answers);
  }

  lemma FetchIndicesKeeps(open: Opener, get: Getter, plain: seq<Bytes>, batch: BatchGetter,
        infos: seq<ChunkInfo>, first: nat, last: nat)
    returns (bytes: Bytes)
    requires Readable(open, infos, get, plain) && AnswersSome(batch, get) && first <= last < |infos|
    ensures bytes == Kept(plain, Answered(batch, infos, first, last), first, last + 1)
    ensures FetchIndices(open, batch, infos, first, last) == Success(bytes)
  {
    var answers := SomeOfTheRange(open, get, plain, batch, infos, first, last);
    bytes := Kept(plain, ToMap(answers).Keys, first, last + 1);
    OpenIndicesKeeps(open, ToMap(answers), plain, first, last + 1);
  }

  /** Chunk `first` holds the first byte of the range and chunk `last` its last byte. */
  predicate Spans(infos: seq<ChunkInfo>, first: nat, last: nat, start: nat, end: nat) {
    first <= last < |infos| && start < end && Holds(infos, first, start) && Holds(infos, last, end - 1)
  }

  /** Where a range request starts and ends. */
  lemma RangeEnds(infos: seq<ChunkInfo>, start: nat, end: nat) returns (first: nat, last: nat)
    requires Consecutive(infos) && start < end <= Offset(infos, |infos|)
    ensures first == IndexFrom(infos, start, 0) && last == IndexFrom(infos, end - 1, 0)
    ensures Spans(infos, first, last, start, end)
  {
    first, last := HoldsInOrder(infos, start, end - 1);
  }

  /** With some of the chunks left out, a range request puts the others together and cuts as if all were there. */
  lemma RangeSplices(open: Opener, get: Getter, plain: seq<Bytes>, batch: BatchGetter,
        infos: seq<ChunkInfo>, start: nat, len: nat)
    returns (first: nat, last: nat, end: nat, bytes: Bytes)
    requires Readable(open, infos, get, plain) && AnswersSome(batch, get) && SortedInfos(infos)
    requires start < Offset(infos, |infos|) && len > 0 && start + len < USIZE_LIMIT
    ensures end == Min(start + len, Offset(infos, |infos|)) && Spans(infos, first, last, start, end)
    ensures first == IndexFrom(infos, start, 0) && last == IndexFrom(infos, end - 1, 0)
    ensures bytes == Kept(plain, Answered(batch, infos, first, last), first, last + 1)
    ensures RangeAt(open, batch, infos, start, len) == Success(Slice(bytes, start - Offset(infos, first), end - start))
  {
    hide RangeAt, Concat, Kept, Offset, Slice, RequestRange, SortByKey;
    end := Min(start + len, Offset(infos, |infos|));
    first, last := RangeEnds(infos, start, end);
    bytes := FetchIndicesKeeps(open, get, plain, batch, infos, first, last);
    RangeOfBytes(open, batch, infos, start, len, first, last, end, bytes);
  }

  lemma RangeOfBytes(open: Opener, batch: BatchGetter, infos: seq<ChunkInfo>, start: nat, len: nat,
        first: nat, last: nat, end: nat, bytes: Bytes)
    requires SortedInfos(infos) && Consecutive(infos) && start < Offset(infos, |infos|) && len > 0
    requires start + len < USIZE_LIMIT
    requires end == Min(start + len, Offset(infos, |infos|)) && Spans(infos, first, last, start, end)
    requires first == IndexFrom(infos, start, 0) && last == IndexFrom(infos, end - 1, 0)
    requires FetchIndices(open, batch, infos, first, last) == Success(bytes)
    ensures RangeAt(open, batch, infos, start, len) == Success(Slice(bytes, start - Offset(infos, first), end - start))
  {
    SumBelowIsOffset(infos, first);
    RangeCuts(open, batch, infos, start, end - 1, end - start, first, last, bytes);
    RangeWithoutOverflow(open, batch, infos, start, len, end, Success(Slice(bytes, start - SumBelow(infos, first), end - start)));
  }

  /** Only empty chunks of the range are left out. */
  predicate OnlyEmptyMissing(infos: seq<ChunkInfo>, kept: set<nat>, first: nat, last: nat) {
    forall i | first <= i <= last && i < |infos| :: i in kept || infos[i].srcSize == 0
  }

  /** The chunks have the sizes of the entries. */
  ghost predicate Sized(infos: seq<ChunkInfo>, plain: seq<Bytes>) {
    |plain| == |infos| && forall i | 0 <= i < |infos| :: infos[i].srcSize == |plain[i]|
  }

  /** From `offset` on, the bytes are what the data has from `start` on. */
  ghost predicate CutsTo(bytes: Bytes, offset: nat, data: Bytes, start: nat, len: nat) {
    Slice(bytes, offset, len) == Slice(data, start, len)
  }

  /** The kept chunks of a range, cut like the range, are the file's slice. */
  ghost predicate ReadRightly(infos: seq<ChunkInfo>, plain: seq<Bytes>, kept: set<nat>, first: nat, last: nat,
        start: nat, end: nat)
    requires |plain| == |infos| && Spans(infos, first, last, start, end)
  {
    CutsTo(Kept(plain, kept, first, last + 1), start - Offset(infos, first), Concat(plain), start, end - start)
  }

  lemma {:induction false} KeptIsAll(infos: seq<ChunkInfo>, plain: seq<Bytes>, kept: set<nat>, first: nat, last: nat,
        end: nat)
    requires Sized(infos, plain) && OnlyEmptyMissing(infos, kept, first, last) && first <= end <= last + 1
    requires end <= |plain|
    ensures Kept(plain, kept, first, end) == Concat(plain[first..end])
    decreases end
  {
    if first < end {
      KeptIsAll(infos, plain, kept, first, last, end - 1);
      ConcatGrows(plain, first, end - 1);
      var most := Concat(plain[first..end - 1]);
      if end - 1 !in kept {
        assert plain[end - 1] == [];
        assert most + [] == most;
      }
    }
  }

  lemma ReadRightlyIfAnswered(infos: seq<ChunkInfo>, plain: seq<Bytes>, kept: set<nat>, first: nat,
        last: nat, start: nat, end: nat)
    requires Sized(infos, plain) && Consecutive(infos) && Spans(infos, first, last, start, end)
    requires OnlyEmptyMissing(infos, kept, first, last)
    ensures ReadRightly(infos, plain, kept, first, last, start, end)
  {
    CutRightly(infos, plain, kept, first, last, start, end, Kept(plain, kept, first, last + 1));
  }

  lemma CutRightly(infos: seq<ChunkInfo>, plain: seq<Bytes>, kept: set<nat>, first: nat, last: nat,
        start: nat, end: nat, bytes: Bytes)
    requires Sized(infos, plain) && Consecutive(infos) && Spans(infos, first, last, start, end)
    requires OnlyEmptyMissing(infos, kept, first, last)
    requires bytes == Kept(plain, kept, first, last + 1)
    ensures CutsTo(bytes, start - Offset(infos, first), Concat(plain), start, end - start)
  {
    hide Concat, Kept, Slice;
    assert bytes == Concat(plain[first..last + 1]) by {
      KeptIsAll(infos, plain, kept, first, last, last + 1);
    }
    SliceFromChunks(infos, plain, first, last, start, end - start);
  }

  /** A file of zeros with a single one, at byte `at` of chunk `k`. */
  function Marked(infos: seq<ChunkInfo>, k: nat, at: nat): (plain: seq<Bytes>)
    ensures |plain| == |infos|
    ensures forall i | 0 <= i < |infos| :: infos[i].srcSize == |plain[i]|
  {
    seq(|infos|, i requires 0 <= i < |infos| => seq(infos[i].srcSize, j => if i == k && j == at then 1 else 0))
  }

  ghost predicate Zeros(bytes: Bytes) {
    forall j | 0 <= j < |bytes| :: bytes[j] == 0
  }

  lemma {:induction false} KeptIsZero(infos: seq<ChunkInfo>, kept: set<nat>, k: nat, at: nat, first: nat, end: nat)
    requires k !in kept && end <= |infos|
    ensures Zeros(Kept(Marked(infos, k, at), kept, first, end))
    decreases end
  {
    if first < end {
      KeptIsZero(infos, kept, k, at, first, end - 1);
    }
  }

  lemma MarkShows(infos: seq<ChunkInfo>, k: nat, at: nat)
    requires k < |infos| && at < infos[k].srcSize
    ensures Offset(infos, k) + at < |Concat(Marked(infos, k, at))|
    ensures Concat(Marked(infos, k, at))[Offset(infos, k) + at] == 1
  {
    var plain := Marked(infos, k, at);
    assert Concat(plain) == Concat(plain[..k]) + plain[k] + Concat(plain[k + 1..]) by {
      ConcatSplit(plain, k, k + 1);
      ConcatGrows(plain, k, k);
    }
    assert |Concat(plain[..k])| == Offset(infos, k) by { OffsetIsLength(infos, plain, k); }
  }

  /** A byte of chunk `k` that the range asks for. */
  lemma RequestedByte(infos: seq<ChunkInfo>, first: nat, last: nat, k: nat, start: nat, end: nat)
    returns (p: nat)
    requires Spans(infos, first, last, start, end) && first <= k <= last && infos[k].srcSize > 0
    ensures start <= p < end && Offset(infos, k) <= p < Offset(infos, k) + infos[k].srcSize
  {
    if k < last { OffsetMonotone(infos, k + 1, last); }
    if first < k { OffsetMonotone(infos, first + 1, k); }
    p := if start <= Offset(infos, k) then Offset(infos, k) else start;
  }

  /** If a chunk with bytes is left out, some file with these sizes is read wrongly. */
  lemma OmissionShows(infos: seq<ChunkInfo>, kept: set<nat>, first: nat, last: nat, start: nat,
        end: nat)
    returns (plain: seq<Bytes>, bytes: Bytes)
    requires Spans(infos, first, last, start, end) && !OnlyEmptyMissing(infos, kept, first, last)
    ensures Sized(infos, plain) && bytes == Kept(plain, kept, first, last + 1)
    ensures !CutsTo(bytes, start - Offset(infos, first), Concat(plain), start, end - start)
  {
    hide Concat, Kept, Slice, Offset, Marked;
    var k: nat :| first <= k <= last && k < |infos| && k !in kept && infos[k].srcSize > 0;
    var p := RequestedByte(infos, first, last, k, start, end);
    var at := p - Offset(infos, k);
    plain := Marked(infos, k, at);
    bytes := Kept(plain, kept, first, last + 1);
    MarkShows(infos, k, at);
    KeptIsZero(infos, kept, k, at, first, last + 1);
    MarkDiffers(bytes, start - Offset(infos, first), Concat(plain), start, end - start, p);
  }

  lemma MarkDiffers(zeros: Bytes, offset: nat, data: Bytes, start: nat, len: nat, p: nat)
    requires Zeros(zeros) && start <= p < start + len && p < |data| && data[p] == 1
    ensures !CutsTo(zeros, offset, data, start, len)
  {
    assert Slice(data, start, len)[p - start] == 1;
  }

  /** Every file with these chunk sizes is read rightly if and only if only empty chunks are left out. */
  lemma ReadRightlyExactly(infos: seq<ChunkInfo>, kept: set<nat>, first: nat, last: nat,
        start: nat, end: nat)
    requires Consecutive(infos) && Spans(infos, first, last, start, end)
    ensures (forall plain | Sized(infos, plain) :: ReadRightly(infos, plain, kept, first, last, start, end))
            <==> OnlyEmptyMissing(infos, kept, first, last)
  {
    if OnlyEmptyMissing(infos, kept, first, last) {
      forall plain | Sized(infos, plain)
        ensures ReadRightly(infos, plain, kept, first, last, start, end)
      {
        ReadRightlyIfAnswered(infos, plain, kept, first, last, start, end);
      }
    } else {
      var plain, bytes := OmissionShows(infos, kept, first, last, start, end);
      assert Sized(infos, plain) && !ReadRightly(infos, plain, kept, first, last, start, end);
    }
  }

  lemma ClippedRange(open: Opener, get: Getter, plain: seq<Bytes>, infos: seq<ChunkInfo>,
        start: nat, len: nat, end: nat)
    requires Readable(open, infos, get, plain) && start < Offset(infos, |infos|)
    requires end == Min(start + len, Offset(infos, |infos|))
    ensures Slice(Concat(plain), start, end - start) == Slice(Concat(plain), start, len)
  {
    ReadableLength(open, infos, get, plain);
    SliceClipped(Concat(plain), start, len);
  }

  /** A range request for which every chunk with bytes is answered returns the file's slice. */
  lemma RangeOfAnsweredChunks(open: Opener, get: Getter, plain: seq<Bytes>, batch: BatchGetter,
        infos: seq<ChunkInfo>, start: nat, len: nat)
    requires Readable(open, infos, get, plain) && AnswersSome(batch, get) && SortedInfos(infos)
    requires start < Offset(infos, |infos|) && len > 0 && start + len < USIZE_LIMIT
    requires var first, last := IndexFrom(infos, start, 0), IndexFrom(infos, Min(start + len, Offset(infos, |infos|)) - 1, 0);
             OnlyEmptyMissing(infos, Answered(batch, infos, first, last), first, last)
    ensures RangeAt(open, batch, infos, start, len) == Success(Slice(Concat(plain), start, len))
  {
    hide RangeAt, Concat, Kept, Offset, Slice;
    var first, last, end, bytes := RangeSplices(open, get, plain, batch, infos, start, len);
    CutRightly(infos, plain, Answered(batch, infos, first, last), first, last, start, end, bytes);
    ClippedRange(open, get, plain, infos, start, len, end);
    CutDecides(RangeAt(open, batch, infos, start, len), bytes, start - Offset(infos, first), Concat(plain), start, end - start, len);
  }

  lemma CutDecides(r: Result<Bytes>, bytes: Bytes, offset: nat, data: Bytes, start: nat,
        taken: nat, len: nat)
    requires r == Success(Slice(bytes, offset, taken)) && Slice(data, start, taken) == Slice(data, start, len)
    ensures if CutsTo(bytes, offset, data, start, taken) then r == Success(Slice(data, start, len))
            else r.Success? && r.value != Slice(data, start, len)
  {
  }

  /** Of a request, the answers for the kept indices, all with the same content. */
  function AnswerOnly(kept: set<nat>, request: seq<(nat, Name)>): seq<(nat, Bytes)> {
    if request == [] then []
    else
      var last := request[|request| - 1];
      AnswerOnly(kept, request[..|request| - 1]) + if last.0 in kept then [(last.0, [])] else []
  }

  lemma {:induction false} OnlyKeptAnswered(kept: set<nat>, request: seq<(nat, Name)>)
    ensures forall a | a in AnswerOnly(kept, request) :: a.0 in kept
  {
    if request != [] {
      OnlyKeptAnswered(kept, request[..|request| - 1]);
    }
  }

  lemma {:induction false} AnswerOnlyIsSome(kept: set<nat>, get: Getter, request: seq<(nat, Name)>)
    requires forall h :: get(h) == Success([])
    ensures multiset(AnswerOnly(kept, request)) <= multiset(Answers(get, request))
  {
    if request != [] {
      var most, last := request[..|request| - 1], request[|request| - 1];
      AnswerOnlyIsSome(kept, get, most);
      assert Answers(get, request) == Answers(get, most) + [(last.0, [])];
      var some, all := AnswerOnly(kept, most), Answers(get, most);
      var answer := if last.0 in kept then [(last.0, [])] else [];
      assert multiset(some + answer) == multiset(some) + multiset(answer);
    }
  }

  /** Opens chunk `i` as part `i`, whatever its content. */
  function ReadsAs(plain: seq<Bytes>): Opener {
    (i: nat, content: Bytes) => if i < |plain| then Success(plain[i]) else Failure(Opening)
  }

  /** A getter that has an empty content under every hash, and one that answers for the kept indices only. */
  lemma KeptGetter(kept: set<nat>) returns (get: Getter, batch: BatchGetter)
    ensures (forall h :: get(h) == Success([])) && AnswersSome(batch, get)
    ensures forall request :: batch(request) == Success(AnswerOnly(kept, request))
  {
    get := h => Success([]);
    batch := request => Success(AnswerOnly(kept, request));
    forall request
      ensures multiset(AnswerOnly(kept, request)) <= multiset(Answers(get, request))
    {
      AnswerOnlyIsSome(kept, get, request);
    }
  }

  lemma AnsweredIsKept(batch: BatchGetter, kept: set<nat>, infos: seq<ChunkInfo>, first: nat,
        last: nat)
    requires forall request :: batch(request) == Success(AnswerOnly(kept, request))
    ensures Answered(batch, infos, first, last) <= kept
  {
    var request := SortByKey(RequestRange(infos, first, last));
    OnlyKeptAnswered(kept, request);
    ToMapFacts(AnswerOnly(kept, request));
  }

  /** Whichever chunk with bytes a getter leaves out of a range, there is a file that the range request reads wrongly
      without an error. */
  lemma OmissionGoesUnnoticed(infos: seq<ChunkInfo>, kept: set<nat>, start: nat, len: nat)
    returns (open: Opener, get: Getter, plain: seq<Bytes>, batch: BatchGetter)
    requires Consecutive(infos) && SortedInfos(infos)
    requires start < Offset(infos, |infos|) && len > 0 && start + len < USIZE_LIMIT
    requires var first, last := IndexFrom(infos, start, 0), IndexFrom(infos, Min(start + len, Offset(infos, |infos|)) - 1, 0);
             !OnlyEmptyMissing(infos, kept, first, last)
    ensures Readable(open, infos, get, plain) && AnswersSome(batch, get)
    ensures forall request :: batch(request) == Success(AnswerOnly(kept, request))
    ensures RangeAt(open, batch, infos, start, len).Success?
    ensures RangeAt(open, batch, infos, start, len).value != Slice(Concat(plain), start, len)
  {
    hide RangeAt, Concat, Kept, Offset, Slice, RequestRange, SortByKey;
    var end := Min(start + len, Offset(infos, |infos|));
    var first, last := RangeEnds(infos, start, end);
    get, batch := KeptGetter(kept);
    AnsweredIsKept(batch, kept, infos, first, last);
    var bytes;
    FewerAnswered(infos, Answered(batch, infos, first, last), kept, first, last);
    plain, bytes := OmissionShows(infos, Answered(batch, infos, first, last), first, last, start, end);
    open := ReadsAs(plain);
    SplicedWrongly(open, get, plain, batch, infos, start, len, first, end, bytes);
  }

  lemma FewerAnswered(infos: seq<ChunkInfo>, answered: set<nat>, kept: set<nat>, first: nat,
        last: nat)
    requires answered <= kept && !OnlyEmptyMissing(infos, kept, first, last)
    ensures !OnlyEmptyMissing(infos, answered, first, last)
  {
    var k: nat :| first <= k <= last && k < |infos| && k !in kept && infos[k].srcSize > 0;
    assert k !in answered;
  }

  lemma SplicedWrongly(open: Opener, get: Getter, plain: seq<Bytes>, batch: BatchGetter,
        infos: seq<ChunkInfo>, start: nat, len: nat, first: nat, end: nat, bytes: Bytes)
    requires Readable(open, infos, get, plain) && AnswersSome(batch, get) && SortedInfos(infos)
    requires start < Offset(infos, |infos|) && len > 0 && start + len < USIZE_LIMIT
    requires end == Min(start + len, Offset(infos, |infos|))
    requires first == IndexFrom(infos, start, 0) < |infos| && Offset(infos, first) <= start
    requires IndexFrom(infos, end - 1, 0) < |infos|
    requires bytes == Kept(plain, Answered(batch, infos, first, IndexFrom(infos, end - 1, 0)), first, IndexFrom(infos, end - 1, 0) + 1)
    requires !CutsTo(bytes, start - Offset(infos, first), Concat(plain), start, end - start)
    ensures RangeAt(open, batch, infos, start, len).Success?
    ensures RangeAt(open, batch, infos, start, len).value != Slice(Concat(plain), start, len)
  {
    hide RangeAt, Concat, Kept, Offset, Slice;
    var f, l, e, b := RangeSplices(open, get, plain, batch, infos, start, len);
    ClippedRange(open, get, plain, infos, start, len, end);
    CutDecides(RangeAt(open, batch, infos, start, len), bytes, start - Offset(infos, first), Concat(plain), start, end - start, len);
  }

  // Iterating on after an error.

  /** After a fetch that failed, the next item is a chunk if and only if the cursor left behind has one to yield;
      otherwise it is the same error, and so on without end. */
  lemma ChunkFollowsError(open: Opener, batch: BatchGetter, infos: seq<ChunkInfo>, batchSize: nat,
        c: Cursor, left: Cursor, error: Error)
    requires c.index >= |c.chunks| && FetchAt(open, batch, infos, batchSize, c) == (left, Failure(error))
    ensures NextAt(open, batch, infos, batchSize, c) == (left, Some(Failure(error)))
    ensures var (after, item) := NextAt(open, batch, infos, batchSize, left);
            && (IsChunk(item) <==> left.index < |left.chunks|)
            && (left.index >= |left.chunks| ==> after == left && item == Some(Failure(error)))
  {
  }

  predicate IsChunk(item: Option<Result<Bytes>>) {
    item.Some? && item.value.Success?
  }

  /** Successful answers have at least as many parts as the request. */
  ghost predicate AnswersAll(batch: BatchGetter) {
    forall request | batch(request).Success? :: |batch(request).value| >= |request|
  }

  /** Where iteration stands after `n` calls, if none of them returned an error. */
  function CursorAfter(open: Opener, batch: BatchGetter, infos: seq<ChunkInfo>, batchSize: nat, n: nat)
    : Option<Cursor>
  {
    if n == 0 then Some(Cursor(0, [], 0))
    else
      var before := CursorAfter(open, batch, infos, batchSize, n - 1);
      if before.None? then None
      else
        var (after, item) := NextAt(open, batch, infos, batchSize, before.value);
        if item.Some? && item.value.Failure? then None else Some(after)
  }

  /** Before the first fetch nothing is there to yield; after it the last batch is a full one, unless it was the last
      of the file. */
  predicate InStep(infos: seq<ChunkInfo>, batchSize: nat, c: Cursor) {
    && c.start <= |infos| && c.index <= |c.chunks|
    && (c.start == 0 ==> c.chunks == [])
    && (0 < c.start < |infos| ==> |c.chunks| == batchSize)
  }

  lemma SortKeepsLength<T>(s: seq<(nat, T)>)
    ensures |SortByKey(s)| == |s|
  {
    SortFacts(s);
    assert |multiset(SortByKey(s))| == |multiset(s)|;
  }

  /** A successful fetch opens as many chunks as the batch has entries. */
  lemma FetchFills(open: Opener, batch: BatchGetter, infos: seq<ChunkInfo>, batchSize: nat,
        c: Cursor)
    requires AnswersAll(batch) && c.start < |infos|
    ensures var (after, r) := FetchAt(open, batch, infos, batchSize, c);
            var end := Min(c.start + batchSize, |infos|);
            if r.Success? then r.value && after == Cursor(end, after.chunks, 0) && |after.chunks| == end - c.start
            else after.start == c.start && after.index == c.index && (after.chunks == c.chunks || |after.chunks| < end - c.start)
  {
    var request := Request(infos[c.start..Min(c.start + batchSize, |infos|)]);
    if batch(request).Success? { SortKeepsLength(batch(request).value); }
  }

  lemma {:induction false} StaysInStep(open: Opener, batch: BatchGetter, infos: seq<ChunkInfo>, batchSize: nat, n: nat)
    requires AnswersAll(batch) && CursorAfter(open, batch, infos, batchSize, n).Some?
    ensures InStep(infos, batchSize, CursorAfter(open, batch, infos, batchSize, n).value)
  {
    if n > 0 {
      StaysInStep(open, batch, infos, batchSize, n - 1);
      var c := CursorAfter(open, batch, infos, batchSize, n - 1).value;
      if c.start < |infos| { FetchFills(open, batch, infos, batchSize, c); }
    }
  }

  /** After the first error of an iteration, the next item is a chunk if and only if it was the first batch that failed
      and some of its chunks had been opened. */
  lemma ChunkFollowsFirstError(open: Opener, batch: BatchGetter, infos: seq<ChunkInfo>,
        batchSize: nat, n: nat, c: Cursor, left: Cursor, error: Error)
    requires AnswersAll(batch) && CursorAfter(open, batch, infos, batchSize, n) == Some(c)
    requires NextAt(open, batch, infos, batchSize, c) == (left, Some(Failure(error)))
    ensures IsChunk(NextAt(open, batch, infos, batchSize, left).1) <==> c.start == 0 && left.chunks != []
  {
    StaysInStep(open, batch, infos, batchSize, n);
    FetchFills(open, batch, infos, batchSize, c);
    ChunkFollowsError(open, batch, infos, batchSize, c, left, error);
  }

  /** If the first batch failed at its chunk number `count` and the next fetch succeeds, the chunks before it are
      yielded twice: once after the error, and again from the start of the file. */
  lemma RetryYieldsTwice(open: Opener, get: Getter, plain: seq<Bytes>, failing: BatchGetter,
        batch: BatchGetter, infos: seq<ChunkInfo>, batchSize: nat, count: nat, error: Error, k: nat)
    requires Readable(open, infos, get, plain) && Serves(batch, get) && batchSize >= 1 && 0 < count <= |plain|
    requires NextAt(open, failing, infos, batchSize, Cursor(0, [], 0)) == (Cursor(0, plain[..count], 0), Some(Failure(error)))
    requires k <= count
    ensures var (after, item) := NextAt(open, batch, infos, batchSize, Cursor(0, plain[..count], k));
            if k < count then after == Cursor(0, plain[..count], k + 1) && item == Some(Success(plain[k]))
            else Stands(after, plain, 1) && item == Some(Success(plain[0]))
  {
    if k == count {
      FetchReads(open, get, plain, batch, infos, batchSize, Cursor(0, plain[..count], k));
    }
  }

  /** If any other batch failed, a later fetch that succeeds goes on where the error interrupted: nothing is lost and
      nothing comes twice. */
  lemma RetryResumes(open: Opener, get: Getter, plain: seq<Bytes>, failing: BatchGetter,
        batch: BatchGetter, infos: seq<ChunkInfo>, batchSize: nat, n: nat, c: Cursor, left: Cursor, error: Error)
    requires Readable(open, infos, get, plain) && Serves(batch, get) && batchSize >= 1
    requires AnswersAll(failing) && CursorAfter(open, failing, infos, batchSize, n) == Some(c)
    requires NextAt(open, failing, infos, batchSize, c) == (left, Some(Failure(error)))
    requires c.start > 0 || left.chunks == []
    ensures var (after, item) := NextAt(open, batch, infos, batchSize, left);
            c.start < |plain| && item == Some(Success(plain[c.start])) && Stands(after, plain, c.start + 1)
  {
    StaysInStep(open, failing, infos, batchSize, n);
    FetchFills(open, failing, infos, batchSize, c);
    FetchReads(open, get, plain, batch, infos, batchSize, left);
  }

  /** A batch of which only the first `count` chunks are answered: the others are passed over, without an error. */
  lemma ShortBatchIsPassedOver(open: Opener, get: Getter, plain: seq<Bytes>, batch: BatchGetter,
        infos: seq<ChunkInfo>, batchSize: nat, c: Cursor, count: nat)
    requires Readable(open, infos, get, plain) && c.start < |infos|
    requires c.start + count <= Min(c.start + batchSize, |infos|)
    requires var request := Request(infos[c.start..Min(c.start + batchSize, |infos|)]);
             Answerable(get, request) && batch(request).Success? && multiset(batch(request).value) == multiset(Answers(get, request)[..count])
    ensures FetchAt(open, batch, infos, batchSize, c)
         == (Cursor(Min(c.start + batchSize, |infos|), plain[c.start..c.start + count], 0), Success(true))
  {
    hide Opened, Concat, SortByKey, Offset;
    var end := Min(c.start + batchSize, |infos|);
    var request := Request(infos[c.start..end]);
    BatchRequest(open, infos, get, plain, c.start, end);
    var expected := Answers(get, request)[..count];
    SortRestores(expected, batch(request).value);
    FirstOfBatchOpen(open, infos[c.start..end], expected, plain[c.start..c.start + count]);
  }

  lemma FirstOfBatchOpen(open: Opener, infos: seq<ChunkInfo>, answers: seq<(nat, Bytes)>,
        expected: seq<Bytes>)
    requires |answers| == |expected| <= |infos|
    requires forall i | 0 <= i < |answers| :: open(infos[i].index, answers[i].1) == Success(expected[i])
    ensures OpenPairs(open, infos, answers) == (expected, None)
  {
    FirstOpened(open, infos, answers, expected, |expected|);
    assert expected[..|expected|] == expected;
  }

  lemma {:induction false} FirstOpened(open: Opener, infos: seq<ChunkInfo>, answers: seq<(nat, Bytes)>,
        expected: seq<Bytes>, k: nat)
    requires k <= |answers| == |expected| <= |infos|
    requires forall i | 0 <= i < |answers| :: open(infos[i].index, answers[i].1) == Success(expected[i])
    ensures Opened(open, infos, answers, k) == expected[..k]
  {
    if k > 0 {
      FirstOpened(open, infos, answers, expected, k - 1);
      PrefixSnoc(expected, k - 1);
    }
  }
}
