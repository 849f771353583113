/** Streaming and random-access decryption (self_encryption/src/stream_decrypt.rs). */
module StreamDecrypt {
  import opened Prelude
  import opened Crypto
  import opened Codec
  import opened Encrypt
  import opened Decrypt
  import opened Parallel
  import opened Ranges

  /** The sum of the sizes of all entries with a smaller index. */
  function SumBelow(infos: seq<ChunkInfo>, index: nat): nat {
    if infos == [] then 0
    else
      var last := infos[|infos| - 1];
      SumBelow(infos[..|infos| - 1], index) + if last.index < index then last.srcSize else 0
  }

  /** Entry `k` holds the byte at the position. */
  predicate Holds(infos: seq<ChunkInfo>, k: nat, position: nat) {
    k < |infos| && Offset(infos, k) <= position < Offset(infos, k + 1)
  }

  /** The requests for the entries whose index lies in a range, in the order of the entries. */
  function RequestRange(infos: seq<ChunkInfo>, first: nat, last: nat): seq<(nat, Name)> {
    if infos == [] then []
    else
      var info := infos[|infos| - 1];
      RequestRange(infos[..|infos| - 1], first, last) +
      if first <= info.index <= last then [(info.index, info.dstHash)] else []
  }

  /** Pairs collected into a map; of two with the same key the later one stays. */
  function ToMap(pairs: seq<(nat, Bytes)>): map<nat, Bytes> {
    if pairs == [] then map[]
    else
      var last := pairs[|pairs| - 1];
      ToMap(pairs[..|pairs| - 1])[last.0 := last.1]
  }

  /** Where iteration stands: how many entries were fetched, the chunks of the last batch, and how many of those
      were yielded. */
  datatype Cursor = Cursor(start: nat, chunks: seq<Bytes>, index: nat)

  /** Of the first `k` pairs of entries and answers, the chunks opened before the first that does not open. */
  function Opened(open: Opener, infos: seq<ChunkInfo>, answers: seq<(nat, Bytes)>, k: nat): (r: seq<Bytes>)
    requires k <= |infos| && k <= |answers|
    ensures |r| <= k
  {
    if k == 0 then []
    else
      var most := Opened(open, infos, answers, k - 1);
      if |most| < k - 1 then most
      else
        var plain := open(infos[k - 1].index, answers[k - 1].1);
        if plain.Failure? then most else most + [plain.value]
  }

  /** If not all were opened, the next one does not open. */
  lemma {:induction false} OpenedStops(open: Opener, infos: seq<ChunkInfo>, answers: seq<(nat, Bytes)>, k: nat)
    requires k <= |infos| && k <= |answers|
    ensures var n := |Opened(open, infos, answers, k)|; n < k ==> open(infos[n].index, answers[n].1).Failure?
  {
    if k > 0 {
      OpenedStops(open, infos, answers, k - 1);
    }
  }

  lemma {:induction false} OpenedStaysStopped(open: Opener, infos: seq<ChunkInfo>, answers: seq<(nat, Bytes)>, j: nat,
        k: nat)
    requires j <= k <= |infos| && k <= |answers|
    requires |Opened(open, infos, answers, j)| < j
    ensures Opened(open, infos, answers, k) == Opened(open, infos, answers, j)
    decreases k
  {
    if j < k {
      OpenedStaysStopped(open, infos, answers, j, k - 1);
    }
  }

  function Fewer(infos: seq<ChunkInfo>, answers: seq<(nat, Bytes)>): nat {
    if |infos| <= |answers| then |infos| else |answers|
  }

  /** Opening a batch: all of it, or the chunks before the first failure and that failure. */
  function OpenPairs(open: Opener, infos: seq<ChunkInfo>, answers: seq<(nat, Bytes)>): (seq<Bytes>, Option<Error>) {
    var k := Fewer(infos, answers);
    var read := Opened(open, infos, answers, k);
    OpenedStops(open, infos, answers, k);
    (read, if |read| < k then Some(open(infos[|read|].index, answers[|read|].1).error) else None)
  }

  /** Fetching the next batch. A failing getter changes nothing; a chunk that does not open leaves those before it
      in place of the last batch. */
  function FetchAt(open: Opener, batch: BatchGetter, infos: seq<ChunkInfo>, batchSize: nat, c: Cursor)
    : (Cursor, Result<bool>)
  {
    if c.start >= |infos| then (c, Success(false))
    else
      var end := Min(c.start + batchSize, |infos|);
      var fetched := batch(Request(infos[c.start..end]));
      if fetched.Failure? then (c, Failure(fetched.error))
      else
        var (read, error) := OpenPairs(open, infos[c.start..end], SortByKey(fetched.value));
        if error.Some? then (c.(chunks := read), Failure(error.value)) else (Cursor(end, read, 0), Success(true))
  }

  function NextAt(open: Opener, batch: BatchGetter, infos: seq<ChunkInfo>, batchSize: nat, c: Cursor)
    : (Cursor, Option<Result<Bytes>>)
  {
    if c.index < |c.chunks| then (c.(index := c.index + 1), Some(Success(c.chunks[c.index])))
    else
      var (fetched, r) := FetchAt(open, batch, infos, batchSize, c);
      if r.Failure? then (fetched, Some(Failure(r.error)))
      else if r.value && fetched.index < |fetched.chunks|
      then (fetched.(index := fetched.index + 1), Some(Success(fetched.chunks[fetched.index])))
      else (fetched, None)
  }

  /** The next chunk to be yielded is number `position`; the last batch holds the chunks around it. */
  ghost predicate Stands(c: Cursor, plain: seq<Bytes>, position: nat) {
    && |c.chunks| <= c.start <= |plain| && c.index <= |c.chunks|
    && c.chunks == plain[c.start - |c.chunks|..c.start]
    && position == c.start - |c.chunks| + c.index
  }

  lemma {:induction false} OpenedAll(open: Opener, infos: seq<ChunkInfo>, answers: seq<(nat, Bytes)>,
        expected: seq<Bytes>, k: nat)
    requires BatchOpens(open, infos, answers, expected) && k <= |infos|
    ensures Opened(open, infos, answers, k) == expected[..k]
  {
    if k > 0 {
      OpenedAll(open, infos, answers, expected, k - 1);
      PrefixSnoc(expected, k - 1);
    }
  }

  lemma PairsOpen(open: Opener, infos: seq<ChunkInfo>, answers: seq<(nat, Bytes)>, expected: seq<Bytes>)
    requires BatchOpens(open, infos, answers, expected)
    ensures OpenPairs(open, infos, answers) == (expected, None)
  {
    OpenedAll(open, infos, answers, expected, |infos|);
    assert expected[..|infos|] == expected;
  }

  /** A batch answered in any order becomes the next chunks of the file, in order. */
  lemma FetchReads(open: Opener, get: Getter, plain: seq<Bytes>, batch: BatchGetter, infos: seq<ChunkInfo>,
        batchSize: nat, c: Cursor)
    requires Readable(open, infos, get, plain) && Serves(batch, get) && c.start < |infos|
    ensures var end := Min(c.start + batchSize, |infos|);
            FetchAt(open, batch, infos, batchSize, c) == (Cursor(end, plain[c.start..end], 0), Success(true))
  {
    var end := Min(c.start + batchSize, |infos|);
    BatchInOrder(open, infos, get, plain, batch, c.start, end);
    var answers := SortByKey(batch(Request(infos[c.start..end])).value);
    PairsOpen(open, infos[c.start..end], answers, plain[c.start..end]);
  }

  /** From position `position`, the next chunk of the file; at the end nothing, and no change. */
  lemma NextReads(open: Opener, get: Getter, plain: seq<Bytes>, batch: BatchGetter, infos: seq<ChunkInfo>,
        batchSize: nat, c: Cursor, position: nat)
    requires Readable(open, infos, get, plain) && Serves(batch, get) && batchSize >= 1 && Stands(c, plain, position)
    ensures position <= |plain|
    ensures var (after, r) := NextAt(open, batch, infos, batchSize, c);
            if position < |plain| then r == Some(Success(plain[position])) && Stands(after, plain, position + 1)
            else r == None && after == c
  {
    if c.index >= |c.chunks| && c.start < |infos| {
      FetchReads(open, get, plain, batch, infos, batchSize, c);
    }
  }

  /** The index of the entry that holds a position, as the scan finds it from entry `k` on. */
  function IndexFrom(infos: seq<ChunkInfo>, position: nat, k: nat): nat
    requires k <= |infos|
    decreases |infos| - k
  {
    if k == |infos| then (if infos == [] then 0 else infos[|infos| - 1].index)
    else if Holds(infos, k, position) then infos[k].index
    else IndexFrom(infos, position, k + 1)
  }

  lemma {:induction false} IndexFromHolds(infos: seq<ChunkInfo>, position: nat, k: nat)
    requires k <= |infos| && Offset(infos, k) <= position < Offset(infos, |infos|)
    ensures exists j: nat :: Holds(infos, j, position) && IndexFrom(infos, position, k) == infos[j].index
    decreases |infos| - k
  {
    if !Holds(infos, k, position) {
      IndexFromHolds(infos, position, k + 1);
    }
  }

  /** The chunks of the indices from `first` up to `end` that the map has, opened and joined. */
  function OpenIndices(open: Opener, chunkMap: map<nat, Bytes>, first: nat, end: nat): Result<Bytes>
    decreases end
  {
    if end <= first then Success([])
    else
      var most :- OpenIndices(open, chunkMap, first, end - 1);
      if end - 1 !in chunkMap then Success(most)
      else
        var plain :- open(end - 1, chunkMap[end - 1]);
        Success(most + plain)
  }

  lemma {:induction false} OpenIndicesFails(open: Opener, chunkMap: map<nat, Bytes>, first: nat, k: nat, end: nat)
    requires k <= end && OpenIndices(open, chunkMap, first, k).Failure?
    ensures OpenIndices(open, chunkMap, first, end) == OpenIndices(open, chunkMap, first, k)
    decreases end
  {
    if k < end {
      OpenIndicesFails(open, chunkMap, first, k, end - 1);
    }
  }

  lemma {:induction false} OpenIndicesReads(open: Opener, chunkMap: map<nat, Bytes>, first: nat, last: nat,
        plain: seq<Bytes>, end: nat)
    requires MapOpens(open, chunkMap, first, last, plain) && first <= end <= last + 1
    ensures OpenIndices(open, chunkMap, first, end) == Success(Concat(plain[first..end]))
    decreases end
  {
    if first < end {
      OpenIndicesReads(open, chunkMap, first, last, plain, end - 1);
      ConcatGrows(plain, first, end - 1);
    }
  }

  /** The chunks of an index range, requested together, opened and joined; those not answered are left out. */
  function FetchIndices(open: Opener, batch: BatchGetter, infos: seq<ChunkInfo>, first: nat, last: nat): Result<Bytes> {
    var answers :- batch(SortByKey(RequestRange(infos, first, last)));
    OpenIndices(open, ToMap(answers), first, last + 1)
  }

  /** The chunks from the one that holds `start` to the one that holds `lastByte`, and `take` bytes from `start` on. */
  function RangeFound(open: Opener, batch: BatchGetter, infos: seq<ChunkInfo>, start: nat, lastByte: nat,
        take: nat): Result<Bytes>
    requires SortedInfos(infos) && start < Offset(infos, |infos|)
  {
    var first := IndexFrom(infos, start, 0);
    var bytes :- FetchIndices(open, batch, infos, first, IndexFrom(infos, lastByte, 0));
    IndexFromHolds(infos, start, 0);
    StartIsNotBelow(infos, first, start);
    Success(Slice(bytes, start - SumBelow(infos, first), take))
  }

  /** What a range request returns, for any map in index order and any getter. The sum is not checked. */
  function RangeAt(open: Opener, batch: BatchGetter, infos: seq<ChunkInfo>, start: nat, len: nat): Result<Bytes>
    requires SortedInfos(infos)
  {
    var size := Offset(infos, |infos|);
    if start >= size then Success([])
    else
      var end := Min(WrapAdd(start, len), size);
      var take := WrapSub(end, start);
      if take == 0 then Success([]) else RangeFound(open, batch, infos, start, SaturatingSub(end, 1), take)
  }

  lemma RangeCuts(open: Opener, batch: BatchGetter, infos: seq<ChunkInfo>, start: nat, lastByte: nat, take: nat,
        first: nat, last: nat, bytes: Bytes)
    requires SortedInfos(infos) && start < Offset(infos, |infos|)
    requires first == IndexFrom(infos, start, 0) && last == IndexFrom(infos, lastByte, 0)
    requires FetchIndices(open, batch, infos, first, last) == Success(bytes)
    ensures SumBelow(infos, first) <= start
    ensures RangeFound(open, batch, infos, start, lastByte, take) == Success(Slice(bytes, start - SumBelow(infos, first), take))
  {
    IndexFromHolds(infos, start, 0);
    StartIsNotBelow(infos, first, start);
  }

  lemma {:induction false} RangeWithoutOverflow(open: Opener, batch: BatchGetter, infos: seq<ChunkInfo>, start: nat,
        len: nat, end: nat, r: Result<Bytes>)
    requires SortedInfos(infos) && start + len < USIZE_LIMIT && start < Offset(infos, |infos|) && len > 0
    requires end == Min(start + len, Offset(infos, |infos|))
    requires r == RangeFound(open, batch, infos, start, end - 1, end - start)
    ensures RangeAt(open, batch, infos, start, len) == r
  {
  }

  lemma FetchIndicesReads(open: Opener, get: Getter, plain: seq<Bytes>, batch: BatchGetter, infos: seq<ChunkInfo>,
        first: nat, last: nat)
    requires Readable(open, infos, get, plain) && Serves(batch, get) && first <= last < |infos|
    ensures FetchIndices(open, batch, infos, first, last) == Success(Concat(plain[first..last + 1]))
  {
    RangeRequest(open, infos, get, plain, batch, first, last);
    OpenIndicesReads(open, ToMap(batch(SortByKey(RequestRange(infos, first, last))).value), first, last, plain, last + 1);
  }

  lemma FirstAndLast(infos: seq<ChunkInfo>, start: nat, end: nat) returns (first: nat, last: nat)
    requires Consecutive(infos) && start < end <= Offset(infos, |infos|)
    ensures first == IndexFrom(infos, start, 0) && last == IndexFrom(infos, end - 1, 0)
    ensures first <= last < |infos| && Offset(infos, first) <= start && end <= Offset(infos, last + 1)
  {
    IndexFromHolds(infos, start, 0);
    IndexFromHolds(infos, end - 1, 0);
    first, last := IndexFrom(infos, start, 0), IndexFrom(infos, end - 1, 0);
    RangeSpan(infos, first, last, start, end);
  }

  lemma ReadableSlice(open: Opener, get: Getter, plain: seq<Bytes>, infos: seq<ChunkInfo>, first: nat, last: nat,
        start: nat, end: nat)
    requires Readable(open, infos, get, plain) && first <= last < |infos|
    requires Offset(infos, first) <= start < end <= Offset(infos, |infos|) && end <= Offset(infos, last + 1)
    ensures SumBelow(infos, first) <= start
    ensures Slice(Concat(plain[first..last + 1]), start - SumBelow(infos, first), end - start) == Slice(Concat(plain), start, end - start)
  {
    ReadableLength(open, infos, get, plain);
    RangeIsSlice(infos, plain, first, last, start, end - start, end - start);
  }

  /** The parts that a range request of a readable file puts together. */
  lemma RangeParts(open: Opener, get: Getter, plain: seq<Bytes>, batch: BatchGetter, infos: seq<ChunkInfo>,
        start: nat, end: nat)
    returns (first: nat, last: nat, bytes: Bytes)
    requires Readable(open, infos, get, plain) && Serves(batch, get) && start < end <= Offset(infos, |infos|)
    ensures first == IndexFrom(infos, start, 0) && last == IndexFrom(infos, end - 1, 0)
    ensures FetchIndices(open, batch, infos, first, last) == Success(bytes)
    ensures SumBelow(infos, first) <= start
    ensures Slice(bytes, start - SumBelow(infos, first), end - start) == Slice(Concat(plain), start, end - start)
  {
    first, last := FirstAndLast(infos, start, end);
    bytes := Concat(plain[first..last + 1]);
    FetchIndicesReads(open, get, plain, batch, infos, first, last);
    ReadableSlice(open, get, plain, infos, first, last, start, end);
  }

  lemma InnerRangeReads(open: Opener, get: Getter, plain: seq<Bytes>, batch: BatchGetter, infos: seq<ChunkInfo>,
        start: nat, len: nat)
    requires Readable(open, infos, get, plain) && Serves(batch, get) && SortedInfos(infos) && start + len < USIZE_LIMIT
    requires start < |Concat(plain)| == Offset(infos, |infos|) && len > 0
    ensures RangeAt(open, batch, infos, start, len) == Success(Slice(Concat(plain), start, len))
  {
    hide SumBelow, IndexFrom, FetchIndices, Readable, Serves, Offset, Slice;
    var end := Min(start + len, |Concat(plain)|);
    var first, last, bytes := RangeParts(open, get, plain, batch, infos, start, end);
    assert Slice(Concat(plain), start, end - start) == Slice(Concat(plain), start, len) by { SliceClipped(Concat(plain), start, len); }
    RangeCuts(open, batch, infos, start, end - 1, end - start, first, last, bytes);
    RangeWithoutOverflow(open, batch, infos, start, len, end, Success(Slice(bytes, start - SumBelow(infos, first), end - start)));
  }

  /** Any byte range of a readable file: exactly the file's bytes from `start`, at most `len` of them. */
  lemma RangeReads(open: Opener, get: Getter, plain: seq<Bytes>, batch: BatchGetter, infos: seq<ChunkInfo>,
        start: nat, len: nat)
    requires Readable(open, infos, get, plain) && Serves(batch, get) && SortedInfos(infos) && start + len < USIZE_LIMIT
    ensures RangeAt(open, batch, infos, start, len) == Success(Slice(Concat(plain), start, len))
  {
    ReadableLength(open, infos, get, plain);
    if start >= |Concat(plain)| || len == 0 {
      SliceEmpty(Concat(plain), start, len);
    } else {
      InnerRangeReads(open, get, plain, batch, infos, start, len);
    }
  }

  /** Whether `start + len` fits a usize, or does not and makes no difference: nothing is asked for that the file has,
      or the wrapped sum falls into the chunk of `start` and that chunk ends the file. */
  predicate SumIsHarmless(infos: seq<ChunkInfo>, start: nat, len: nat) {
    || start + len < USIZE_LIMIT
    || start >= Offset(infos, |infos|)
    || (var first := IndexFrom(infos, start, 0);
        && IndexFrom(infos, SaturatingSub(WrapAdd(start, len), 1), 0) == first
        && first < |infos| && Offset(infos, first + 1) == Offset(infos, |infos|))
  }

  lemma HoldsInOrder(infos: seq<ChunkInfo>, p: nat, q: nat) returns (i: nat, j: nat)
    requires Consecutive(infos) && p <= q < Offset(infos, |infos|)
    ensures i == IndexFrom(infos, p, 0) && j == IndexFrom(infos, q, 0) && i <= j < |infos|
    ensures Holds(infos, i, p) && Holds(infos, j, q)
  {
    IndexFromHolds(infos, p, 0);
    IndexFromHolds(infos, q, 0);
    i, j := IndexFrom(infos, p, 0), IndexFrom(infos, q, 0);
    if j < i { OffsetMonotone(infos, j + 1, i); }
  }

  lemma {:induction false} NoRequest(infos: seq<ChunkInfo>, first: nat, last: nat)
    requires last < first
    ensures RequestRange(infos, first, last) == []
  {
    if infos != [] {
      NoRequest(infos[..|infos| - 1], first, last);
    }
  }

  lemma NothingFetched(open: Opener, get: Getter, batch: BatchGetter, infos: seq<ChunkInfo>, first: nat, last: nat)
    requires Serves(batch, get) && last < first
    ensures FetchIndices(open, batch, infos, first, last) == Success([])
  {
    NoRequest(infos, first, last);
    var request: seq<(nat, Name)> := [];
    assert SortByKey(request) == request;
    assert Answerable(get, request);
  }

  lemma OneChunkFetched(open: Opener, get: Getter, plain: seq<Bytes>, batch: BatchGetter, infos: seq<ChunkInfo>, k: nat)
    requires Readable(open, infos, get, plain) && Serves(batch, get) && k < |infos|
    ensures FetchIndices(open, batch, infos, k, k) == Success(plain[k])
  {
    FetchIndicesReads(open, get, plain, batch, infos, k, k);
    assert plain[k..k + 1][..0] == [];
    assert Concat(plain[k..k + 1]) == plain[k];
  }

  /** What a range request returns when its sum overflows: nothing, or the rest of the chunk that holds `start`. */
  lemma OverflowedRange(open: Opener, get: Getter, plain: seq<Bytes>, batch: BatchGetter, infos: seq<ChunkInfo>,
        start: nat, len: nat)
    returns (first: nat)
    requires Readable(open, infos, get, plain) && Serves(batch, get) && SortedInfos(infos)
    requires start < Offset(infos, |infos|) < USIZE_LIMIT && len < USIZE_LIMIT && start + len >= USIZE_LIMIT
    ensures first == IndexFrom(infos, start, 0) && first < |infos| && Holds(infos, first, start)
    ensures RangeAt(open, batch, infos, start, len) ==
            Success(if IndexFrom(infos, SaturatingSub(WrapAdd(start, len), 1), 0) == first
                    then Slice(plain[first], start - Offset(infos, first), len) else [])
  {
    hide FetchIndices, Serves, Concat, SumBelow;
    var lastByte := SaturatingSub(WrapAdd(start, len), 1);
    var last;
    last, first := HoldsInOrder(infos, lastByte, start);
    SumBelowIsOffset(infos, first);
    if last == first {
      OneChunkFetched(open, get, plain, batch, infos, first);
      RangeCuts(open, batch, infos, start, lastByte, len, first, last, plain[first]);
    } else {
      NothingFetched(open, get, batch, infos, first, last);
      RangeCuts(open, batch, infos, start, lastByte, len, first, last, []);
    }
    OverflowTakes(open, batch, infos, start, len);
  }

  lemma {:induction false} OverflowTakes(open: Opener, batch: BatchGetter, infos: seq<ChunkInfo>, start: nat, len: nat)
    requires SortedInfos(infos)
    requires start < Offset(infos, |infos|) < USIZE_LIMIT && len < USIZE_LIMIT && start + len >= USIZE_LIMIT
    ensures RangeAt(open, batch, infos, start, len)
         == RangeFound(open, batch, infos, start, SaturatingSub(WrapAdd(start, len), 1), len)
  {
  }

  lemma RestOfLast(infos: seq<ChunkInfo>, plain: seq<Bytes>, first: nat, start: nat, len: nat)
    requires |plain| == |infos| && forall i | 0 <= i < |infos| :: infos[i].srcSize == |plain[i]|
    requires Holds(infos, first, start) && start + len >= Offset(infos, |infos|)
    requires Offset(infos, first + 1) == Offset(infos, |infos|)
    ensures Slice(plain[first], start - Offset(infos, first), len) == Slice(Concat(plain), start, len)
  {
    hide Offset, Slice;
    SliceFromChunks(infos, plain, first, first, start, len);
    assert plain[first..first + 1][..0] == [];
    assert Concat(plain[first..first + 1]) == plain[first];
  }

  /** The rest of a chunk is the rest of the file exactly if nothing follows it. */
  lemma RestOfChunk(infos: seq<ChunkInfo>, plain: seq<Bytes>, first: nat, start: nat, len: nat)
    requires |plain| == |infos| && forall i | 0 <= i < |infos| :: infos[i].srcSize == |plain[i]|
    requires Holds(infos, first, start) && start + len >= Offset(infos, |infos|)
    ensures Slice(plain[first], start - Offset(infos, first), len) == Slice(Concat(plain), start, len)
            <==> Offset(infos, first + 1) == Offset(infos, |infos|)
    ensures Slice(Concat(plain), start, len) != []
  {
    hide Concat;
    OffsetMonotone(infos, first + 1, |infos|);
    OffsetIsLength(infos, plain, |infos|);
    assert plain[..|infos|] == plain;
    if Offset(infos, first + 1) == Offset(infos, |infos|) {
      RestOfLast(infos, plain, first, start, len);
    } else {
      assert |Slice(plain[first], start - Offset(infos, first), len)| <= |plain[first]| - (start - Offset(infos, first));
    }
  }

  lemma OverflowedExactly(open: Opener, get: Getter, plain: seq<Bytes>, batch: BatchGetter, infos: seq<ChunkInfo>,
        start: nat, len: nat)
    requires Readable(open, infos, get, plain) && Serves(batch, get) && SortedInfos(infos)
    requires start < Offset(infos, |infos|) < USIZE_LIMIT && len < USIZE_LIMIT && start + len >= USIZE_LIMIT
    ensures RangeAt(open, batch, infos, start, len) == Success(Slice(Concat(plain), start, len)) <==> SumIsHarmless(infos, start, len)
  {
    var first := OverflowedRange(open, get, plain, batch, infos, start, len);
    RestOfChunk(infos, plain, first, start, len);
  }

  /** A range request of a readable file returns the slice if and only if its sum is harmless. */
  lemma RangeReadsExactly(open: Opener, get: Getter, plain: seq<Bytes>, batch: BatchGetter, infos: seq<ChunkInfo>,
        start: nat, len: nat)
    requires Readable(open, infos, get, plain) && Serves(batch, get) && SortedInfos(infos)
    requires start < USIZE_LIMIT && len < USIZE_LIMIT && Offset(infos, |infos|) < USIZE_LIMIT
    ensures RangeAt(open, batch, infos, start, len) == Success(Slice(Concat(plain), start, len)) <==> SumIsHarmless(infos, start, len)
  {
    ReadableLength(open, infos, get, plain);
    if start + len < USIZE_LIMIT {
      RangeReads(open, get, plain, batch, infos, start, len);
    } else if start < Offset(infos, |infos|) {
      OverflowedExactly(open, get, plain, batch, infos, start, len);
    } else {
      SliceEmpty(Concat(plain), start, len);
    }
  }

  class DecryptionStream {
    const cr: Suite
    const batchSize: nat
    const chunkInfos: seq<ChunkInfo>
    const srcHashes: seq<Name>
    const childLevel: nat
    const getChunkParallel: BatchGetter
    var currentBatchStart: nat
    var currentBatchChunks: seq<Bytes>
    var currentBatchIndex: nat

    ghost predicate Valid() {
      SortedInfos(chunkInfos)
    }

    /** The file is `plain`, chunk by chunk, and the batch getter serves its chunks. */
    ghost predicate Reads(get: Getter, plain: seq<Bytes>) {
      Readable(OpensWith(cr, srcHashes, childLevel), chunkInfos, get, plain) && Serves(getChunkParallel, get)
    }

    ghost function Opens(): Opener {
      OpensWith(cr, srcHashes, childLevel)
    }

    ghost function Position(): Cursor
      reads this
    {
      Cursor(currentBatchStart, currentBatchChunks, currentBatchIndex)
    }

    /** The next chunk to be yielded is number `position`. */
    ghost predicate At(plain: seq<Bytes>, position: nat)
      reads this
    {
      Stands(Position(), plain, position)
    }

    constructor (cr: Suite, batchSize: nat, root: DataMap, getChunkParallel: BatchGetter)
      ensures Valid()
      ensures this.cr == cr && this.batchSize == batchSize && this.getChunkParallel == getChunkParallel
      ensures chunkInfos == SortByIndex(root.infos) && srcHashes == ExtractHashes(root) && childLevel == root.Level()
      ensures Position() == Cursor(0, [], 0) && forall plain :: At(plain, 0)
    {
      this.cr, this.batchSize, this.getChunkParallel := cr, batchSize, getChunkParallel;
      childLevel := root.Level();
      chunkInfos := SortByIndex(root.infos);
      srcHashes := ExtractHashes(root);
      currentBatchStart, currentBatchChunks, currentBatchIndex := 0, [], 0;
      SortByIndexSorts(root.infos);
    }

    function FileSize(): nat {
      Offset(chunkInfos, |chunkInfos|)
    }

    /** Fetches, reorders and opens the next batch. */
    method FetchNextBatch() returns (r: Result<bool>)
      modifies this
      ensures (Position(), r) == FetchAt(Opens(), getChunkParallel, chunkInfos, batchSize, old(Position()))
    {
      hide OpenPairs, SortByKey, Request, DecryptChunk, OpensWith;
      if currentBatchStart >= |chunkInfos| {
        return Success(false);
      }
      var batchEnd := Min(currentBatchStart + batchSize, |chunkInfos|);
      var batchInfos := chunkInfos[currentBatchStart..batchEnd];
      var fetched := getChunkParallel(Request(batchInfos));
      if fetched.Failure? { return Failure(fetched.error); }
      var sorted := SortByKey(fetched.value);
      var error := OpenBatch(batchInfos, sorted);
      if error.Some? { return Failure(error.value); }
      currentBatchStart := batchEnd;
      currentBatchIndex := 0;
      r := Success(true);
    }

    /** Opens the chunks of a batch into the current batch, pairing entries with answers as far as both go. */
    method OpenBatch(batchInfos: seq<ChunkInfo>, answers: seq<(nat, Bytes)>) returns (error: Option<Error>)
      modifies this`currentBatchChunks
      ensures (currentBatchChunks, error) == OpenPairs(Opens(), batchInfos, answers)
    {
      currentBatchChunks := [];
      var pairs := Fewer(batchInfos, answers);
      for i := 0 to pairs
        invariant currentBatchChunks == Opened(Opens(), batchInfos, answers, i) && |currentBatchChunks| == i
      {
        var chunk := DecryptChunk(cr, batchInfos[i].index, answers[i].1, srcHashes, childLevel);
        assert chunk == Opens()(batchInfos[i].index, answers[i].1);
        if chunk.Failure? {
          OpenedStaysStopped(Opens(), batchInfos, answers, i + 1, pairs);
          return Some(chunk.error);
        }
        currentBatchChunks := currentBatchChunks + [chunk.value];
      }
      error := None;
    }

    /** The next chunk, from the current batch or else from the next one; after an error iteration goes on. */
    method Next() returns (r: Option<Result<Bytes>>)
      modifies this
      ensures (Position(), r) == NextAt(Opens(), getChunkParallel, chunkInfos, batchSize, old(Position()))
    {
      if currentBatchIndex >= |currentBatchChunks| {
        var fetched := FetchNextBatch();
        if fetched.Failure? { return Some(Failure(fetched.error)); }
        if !fetched.value { return None; }
      }
      if currentBatchIndex < |currentBatchChunks| {
        r := Some(Success(currentBatchChunks[currentBatchIndex]));
        currentBatchIndex := currentBatchIndex + 1;
      } else {
        r := None;
      }
    }

    /** The next chunk of a readable file, in order, each exactly once; None when all have been yielded. */
    method NextChunk(ghost get: Getter, ghost plain: seq<Bytes>, ghost position: nat) returns (r: Option<Result<Bytes>>)
      requires Reads(get, plain) && At(plain, position) && batchSize >= 1
      modifies this
      ensures position <= |plain|
      ensures if position < |plain| then r == Some(Success(plain[position])) && At(plain, position + 1)
              else r == None && Position() == old(Position())
    {
      NextReads(Opens(), get, plain, getChunkParallel, chunkInfos, batchSize, Position(), position);
      r := Next();
    }

    /** The index of the chunk that holds a position; beyond the end, the last index. */
    method GetChunkIndexFromInfos(position: nat) returns (r: nat)
      ensures r == IndexFrom(chunkInfos, position, 0)
      ensures position < FileSize() ==> exists k: nat :: Holds(chunkInfos, k, position) && r == chunkInfos[k].index
    {
      if position < FileSize() { IndexFromHolds(chunkInfos, position, 0); }
      var accumulated := 0;
      for i := 0 to |chunkInfos|
        invariant accumulated == Offset(chunkInfos, i) <= position
        invariant IndexFrom(chunkInfos, position, 0) == IndexFrom(chunkInfos, position, i)
      {
        if position >= accumulated && position < accumulated + chunkInfos[i].srcSize {
          return chunkInfos[i].index;
        }
        accumulated := accumulated + chunkInfos[i].srcSize;
      }
      r := if chunkInfos == [] then 0 else chunkInfos[|chunkInfos| - 1].index;
    }

    method CollectRequests(first: nat, last: nat) returns (request: seq<(nat, Name)>)
      ensures request == SortByKey(RequestRange(chunkInfos, first, last))
    {
      request := [];
      for i := 0 to |chunkInfos|
        invariant request == RequestRange(chunkInfos[..i], first, last)
      {
        assert chunkInfos[..i + 1][..i] == chunkInfos[..i];
        if chunkInfos[i].index >= first && chunkInfos[i].index <= last {
          request := request + [(chunkInfos[i].index, chunkInfos[i].dstHash)];
        }
      }
      assert chunkInfos[..|chunkInfos|] == chunkInfos;
      request := SortByKey(request);
    }

    method CollectAnswers(answers: seq<(nat, Bytes)>) returns (chunkMap: map<nat, Bytes>)
      ensures chunkMap == ToMap(answers)
    {
      chunkMap := map[];
      for i := 0 to |answers|
        invariant chunkMap == ToMap(answers[..i])
      {
        assert answers[..i + 1][..i] == answers[..i];
        chunkMap := chunkMap[answers[i].0 := answers[i].1];
      }
      assert answers[..|answers|] == answers;
    }

    /** Opens the chunks of an index range that the map has, in index order. */
    method OpenRange(chunkMap: map<nat, Bytes>, first: nat, last: nat) returns (r: Result<Bytes>)
      ensures r == OpenIndices(Opens(), chunkMap, first, last + 1)
    {
      var allBytes: Bytes := [];
      var chunkIndex := first;
      while chunkIndex <= last
        invariant first <= chunkIndex && (if first <= last then chunkIndex <= last + 1 else chunkIndex == first)
        invariant OpenIndices(Opens(), chunkMap, first, chunkIndex) == Success(allBytes)
        decreases last + 1 - chunkIndex
      {
        if chunkIndex in chunkMap {
          var decrypted := DecryptChunk(cr, chunkIndex, chunkMap[chunkIndex], srcHashes, childLevel);
          assert decrypted == Opens()(chunkIndex, chunkMap[chunkIndex]);
          if decrypted.Failure? {
            OpenIndicesFails(Opens(), chunkMap, first, chunkIndex + 1, last + 1);
            return Failure(decrypted.error);
          }
          allBytes := allBytes + decrypted.value;
        }
        chunkIndex := chunkIndex + 1;
      }
      assert chunkIndex == if first <= last then last + 1 else first;
      r := Success(allBytes);
    }

    /** Fetches and opens the chunks of an index range. */
    method FetchRange(first: nat, last: nat) returns (r: Result<Bytes>)
      ensures r == FetchIndices(Opens(), getChunkParallel, chunkInfos, first, last)
    {
      var request := CollectRequests(first, last);
      var fetched := getChunkParallel(request);
      if fetched.Failure? { return Failure(fetched.error); }
      var chunkMap := CollectAnswers(fetched.value);
      r := OpenRange(chunkMap, first, last);
    }

    lemma ReadsLength(get: Getter, plain: seq<Bytes>)
      requires Reads(get, plain)
      ensures |Concat(plain)| == FileSize()
    {
      ReadableLength(Opens(), chunkInfos, get, plain);
    }

    /** Any byte range, found by the sizes of the entries. */
    method GetRange(start: nat, len: nat) returns (r: Result<Bytes>)
      requires Valid() && start < USIZE_LIMIT && len < USIZE_LIMIT && FileSize() < USIZE_LIMIT
      ensures r == RangeAt(Opens(), getChunkParallel, chunkInfos, start, len)
      ensures start >= FileSize() || len == 0 ==> r == Success([])
    {
      var fileSize := FileSize();
      if start >= fileSize { return Success([]); }
      var endPos := Min(WrapAdd(start, len), fileSize);
      var actualLen := WrapSub(endPos, start);
      if actualLen == 0 { return Success([]); }
      var startChunk := GetChunkIndexFromInfos(start);
      var endChunk := GetChunkIndexFromInfos(SaturatingSub(endPos, 1));
      var bytes := FetchRange(startChunk, endChunk);
      if bytes.Failure? { return Failure(bytes.error); }
      StartIsNotBelow(chunkInfos, startChunk, start);
      var internalOffset := start - SumBelow(chunkInfos, startChunk);
      var cut := CutRange(bytes.value, internalOffset, actualLen);
      r := Success(cut);
    }

    /** A range of a readable file: exactly the file's bytes from `start`, at most `len` of them, unless the sum of
        both overflows and that matters. */
    method GetSlice(start: nat, len: nat, ghost get: Getter, ghost plain: seq<Bytes>) returns (r: Result<Bytes>)
      requires Valid() && start < USIZE_LIMIT && len < USIZE_LIMIT && FileSize() < USIZE_LIMIT
      ensures Reads(get, plain) ==> (r == Success(Slice(Concat(plain), start, len)) <==> SumIsHarmless(chunkInfos, start, len))
      ensures len == 0 ==> r == Success([])
    {
      r := GetRange(start, len);
      if Reads(get, plain) { RangeReadsExactly(Opens(), get, plain, getChunkParallel, chunkInfos, start, len); }
    }

    method Range(start: nat, end: nat, ghost get: Getter, ghost plain: seq<Bytes>) returns (r: Result<Bytes>)
      requires Valid() && start < USIZE_LIMIT && end < USIZE_LIMIT && FileSize() < USIZE_LIMIT
      ensures Reads(get, plain) ==> r == Success(if start < end then Slice(Concat(plain), start, end - start) else [])
    {
      r := GetSlice(start, SaturatingSub(end, start), get, plain);
    }

    method RangeFrom(start: nat, ghost get: Getter, ghost plain: seq<Bytes>) returns (r: Result<Bytes>)
      requires Valid() && start < USIZE_LIMIT && FileSize() < USIZE_LIMIT
      ensures Reads(get, plain) ==> r == Success(if start <= |Concat(plain)| then Concat(plain)[start..] else [])
    {
      if Reads(get, plain) {
        ReadsLength(get, plain);
        SliceToEnd(Concat(plain), start);
      }
      r := GetSlice(start, SaturatingSub(FileSize(), start), get, plain);
    }

    method RangeTo(end: nat, ghost get: Getter, ghost plain: seq<Bytes>) returns (r: Result<Bytes>)
      requires Valid() && end < USIZE_LIMIT && FileSize() < USIZE_LIMIT
      ensures Reads(get, plain) ==> r == Success(Concat(plain)[..Min(end, |Concat(plain)|)])
    {
      r := GetSlice(0, end, get, plain);
    }

    method RangeFull(ghost get: Getter, ghost plain: seq<Bytes>) returns (r: Result<Bytes>)
      requires Valid() && FileSize() < USIZE_LIMIT
      ensures Reads(get, plain) ==> r == Success(Concat(plain))
    {
      if Reads(get, plain) {
        ReadsLength(get, plain);
        SliceToEnd(Concat(plain), 0);
      }
      r := GetSlice(0, FileSize(), get, plain);
    }

    /** Both ends included. With `end` before `start` it is still one byte, the one at `start`. Up to the largest
        position of all, the length or the sum overflows. */
    method RangeInclusive(start: nat, end: nat, ghost get: Getter, ghost plain: seq<Bytes>) returns (r: Result<Bytes>)
      requires Valid() && start < USIZE_LIMIT && end < USIZE_LIMIT && FileSize() < USIZE_LIMIT
      ensures Reads(get, plain) && start + 1 < USIZE_LIMIT && end + 1 < USIZE_LIMIT ==>
                r == Success(Slice(Concat(plain), start, if start <= end then end - start + 1 else 1))
      ensures start == 0 && end + 1 == USIZE_LIMIT ==> r == Success([])
      ensures Reads(get, plain) && 0 < start <= end && end + 1 == USIZE_LIMIT ==>
                (r == Success(Slice(Concat(plain), start, end - start + 1)) <==>
                 SumIsHarmless(chunkInfos, start, USIZE_LIMIT - start))
    {
      r := GetSlice(start, WrapAdd(SaturatingSub(end, start), 1), get, plain);
    }

    /** Iterates to the end, as a `for` loop over the stream does. */
    method ReadAll(ghost get: Getter, ghost plain: seq<Bytes>) returns (chunks: seq<Bytes>)
      requires Reads(get, plain) && At(plain, 0) && batchSize >= 1
      modifies this
      ensures chunks == plain && At(plain, |plain|)
    {
      chunks := [];
      ghost var position: nat := 0;
      while true
        invariant position <= |plain| && chunks == plain[..position] && At(plain, position)
        decreases |plain| - position
      {
        var next := NextChunk(get, plain, position);
        if next.None? { break; }
        if next.value.Success? { chunks := chunks + [next.value.value]; }
        position := position + 1;
      }
    }
  }

  /** Entry by entry, the answers open to the expected chunks. */
  ghost predicate BatchOpens(open: Opener, infos: seq<ChunkInfo>, answers: seq<(nat, Bytes)>, expected: seq<Bytes>) {
    |infos| == |answers| == |expected| &&
    forall i | 0 <= i < |infos| :: open(infos[i].index, answers[i].1) == Success(expected[i])
  }

  /** The map has the chunks of the range, and they open to the file's. */
  ghost predicate MapOpens(open: Opener, chunkMap: map<nat, Bytes>, first: nat, last: nat, plain: seq<Bytes>) {
    first <= last < |plain| &&
    forall i | first <= i <= last :: i in chunkMap && open(i, chunkMap[i]) == Success(plain[i])
  }

  /** A batch of a readable map can be answered, and its expected answers have growing indices. */
  lemma BatchRequest(open: Opener, infos: seq<ChunkInfo>, get: Getter, plain: seq<Bytes>, first: nat, end: nat)
    requires Readable(open, infos, get, plain) && first <= end <= |infos|
    ensures var request := Request(infos[first..end]);
            && Answerable(get, request) && StrictlyOrdered(request) && StrictlyOrdered(Answers(get, request))
            && BatchOpens(open, infos[first..end], Answers(get, request), plain[first..end])
  {
    var request := Request(infos[first..end]);
    forall i | 0 <= i < |request|
      ensures get(request[i].1).Success? && request[i].0 == first + i
      ensures open(first + i, get(request[i].1).value) == Success(plain[first + i])
    {
      assert infos[first..end][i] == infos[first + i];
    }
  }

  /** However the answers were permuted, sorted they are in the order of the batch. */
  lemma BatchInOrder(open: Opener, infos: seq<ChunkInfo>, get: Getter, plain: seq<Bytes>, batch: BatchGetter,
        first: nat, end: nat)
    requires Readable(open, infos, get, plain) && Serves(batch, get)
    requires first <= end <= |infos|
    ensures var request := Request(infos[first..end]);
            && batch(request).Success?
            && BatchOpens(open, infos[first..end], SortByKey(batch(request).value), plain[first..end])
  {
    BatchRequest(open, infos, get, plain, first, end);
    var request := Request(infos[first..end]);
    SortRestores(Answers(get, request), batch(request).value);
  }

  lemma ConcatGrows(plain: seq<Bytes>, first: nat, k: nat)
    requires first <= k < |plain|
    ensures Concat(plain[first..k + 1]) == Concat(plain[first..k]) + plain[k]
  {
    assert plain[first..k + 1][..k - first] == plain[first..k];
    ConcatSnoc(plain[first..], k - first);
    assert plain[first..][..k + 1 - first] == plain[first..k + 1];
    assert plain[first..][..k - first] == plain[first..k];
  }

  lemma {:induction false} SumBelowPrefix(infos: seq<ChunkInfo>, index: nat, k: nat, j: nat)
    requires SortedInfos(infos) && k < |infos| && infos[k].index == index && j <= |infos|
    ensures SumBelow(infos[..j], index) <= Offset(infos, Min(j, k))
    ensures Consecutive(infos) ==> SumBelow(infos[..j], index) == Offset(infos, Min(j, k))
    decreases j
  {
    if j > 0 {
      SumBelowPrefix(infos, index, k, j - 1);
      assert infos[..j][..j - 1] == infos[..j - 1];
    }
  }

  /** The start position of the chunk found for a byte is never behind that byte: the offset inside the
      opened chunks does not underflow, for any sorted map. */
  lemma StartIsNotBelow(infos: seq<ChunkInfo>, index: nat, position: nat)
    requires SortedInfos(infos)
    requires exists k: nat :: Holds(infos, k, position) && index == infos[k].index
    ensures SumBelow(infos, index) <= position
  {
    var k: nat :| Holds(infos, k, position) && index == infos[k].index;
    SumBelowPrefix(infos, index, k, |infos|);
    assert infos[..|infos|] == infos;
  }

  lemma SumBelowIsOffset(infos: seq<ChunkInfo>, k: nat)
    requires SortedInfos(infos) && Consecutive(infos) && k < |infos|
    ensures SumBelow(infos, k) == Offset(infos, k)
  {
    SumBelowPrefix(infos, k, k, |infos|);
    assert infos[..|infos|] == infos;
  }

  lemma {:induction false} RequestRangePrefix(infos: seq<ChunkInfo>, first: nat, last: nat, k: nat)
    requires Consecutive(infos) && first <= last < |infos| && k <= |infos|
    ensures RequestRange(infos[..k], first, last) == Request(infos[Min(first, k)..Min(last + 1, k)])
  {
    if k > 0 {
      RequestRangePrefix(infos, first, last, k - 1);
      assert infos[..k][..k - 1] == infos[..k - 1];
    }
  }

  lemma RequestRangeIs(infos: seq<ChunkInfo>, first: nat, last: nat)
    requires Consecutive(infos) && first <= last < |infos|
    ensures RequestRange(infos, first, last) == Request(infos[first..last + 1])
  {
    RequestRangePrefix(infos, first, last, |infos|);
    assert infos[..|infos|] == infos;
  }

  lemma {:induction false} ToMapFacts(pairs: seq<(nat, Bytes)>)
    ensures forall key | key in ToMap(pairs) :: (key, ToMap(pairs)[key]) in pairs
    ensures forall p | p in pairs :: p.0 in ToMap(pairs)
  {
    if pairs != [] {
      ToMapFacts(pairs[..|pairs| - 1]);
      assert pairs == pairs[..|pairs| - 1] + [pairs[|pairs| - 1]];
    }
  }

  /** With distinct keys a permutation makes the same map. */
  lemma ToMapFinds(expected: seq<(nat, Bytes)>, answers: seq<(nat, Bytes)>, i: nat)
    requires StrictlyOrdered(expected) && multiset(answers) == multiset(expected) && i < |expected|
    ensures expected[i].0 in ToMap(answers) && ToMap(answers)[expected[i].0] == expected[i].1
  {
    ToMapFacts(answers);
    assert expected[i] in multiset(answers);
    assert expected[i] in answers;
    var pair := (expected[i].0, ToMap(answers)[expected[i].0]);
    assert pair in multiset(expected);
    var j :| 0 <= j < |expected| && expected[j] == pair;
  }

  /** The chunks of the first and the last byte are in order and cover the range. */
  lemma RangeSpan(infos: seq<ChunkInfo>, first: nat, last: nat, start: nat, end: nat)
    requires Consecutive(infos) && start < end
    requires exists k: nat :: Holds(infos, k, start) && first == infos[k].index
    requires exists k: nat :: Holds(infos, k, end - 1) && last == infos[k].index
    ensures first <= last < |infos| && Offset(infos, first) <= start && end <= Offset(infos, last + 1)
  {
    var a: nat :| Holds(infos, a, start) && first == infos[a].index;
    var b: nat :| Holds(infos, b, end - 1) && last == infos[b].index;
    if b < a { OffsetMonotone(infos, b + 1, a); }
  }

  /** What GetRange asks for and gets: all chunks of the index range, answered in any order. */
  lemma RangeRequest(open: Opener, infos: seq<ChunkInfo>, get: Getter, plain: seq<Bytes>, batch: BatchGetter,
        first: nat, last: nat)
    requires Readable(open, infos, get, plain) && Serves(batch, get)
    requires first <= last < |infos|
    ensures var request := SortByKey(RequestRange(infos, first, last));
            batch(request).Success? && MapOpens(open, ToMap(batch(request).value), first, last, plain)
  {
    var request := Request(infos[first..last + 1]);
    BatchRequest(open, infos, get, plain, first, last + 1);
    RequestRangeIs(infos, first, last);
    SortRestores(request, request);
    AnswersAsMap(open, infos, get, plain, request, batch(request).value, first, last);
  }

  lemma SliceAt<T>(s: seq<T>, first: nat, end: nat, j: nat)
    requires first + j < end <= |s|
    ensures s[first..end][j] == s[first + j]
  {
  }

  lemma AnswersAsMap(open: Opener, infos: seq<ChunkInfo>, get: Getter, plain: seq<Bytes>, request: seq<(nat, Name)>,
                     answers: seq<(nat, Bytes)>, first: nat, last: nat)
    requires first <= last < |infos| == |plain| && Consecutive(infos) && request == Request(infos[first..last + 1])
    requires Answerable(get, request) && multiset(answers) == multiset(Answers(get, request))
    requires StrictlyOrdered(Answers(get, request))
    requires BatchOpens(open, infos[first..last + 1], Answers(get, request), plain[first..last + 1])
    ensures MapOpens(open, ToMap(answers), first, last, plain)
  {
    var expected := Answers(get, request);
    forall i | first <= i <= last
      ensures i in ToMap(answers) && open(i, ToMap(answers)[i]) == Success(plain[i])
    {
      var j := i - first;
      SliceAt(infos, first, last + 1, j);
      SliceAt(plain, first, last + 1, j);
      assert expected[j].0 == i;
      ToMapFinds(expected, answers, j);
    }
  }

  /** Cut out of its chunks, a range is the slice of the whole file. */
  lemma RangeIsSlice(infos: seq<ChunkInfo>, plain: seq<Bytes>, first: nat, last: nat, start: nat, len: nat,
        actualLen: nat)
    requires |plain| == |infos| && forall i | 0 <= i < |infos| :: infos[i].srcSize == |plain[i]|
    requires Consecutive(infos) && first <= last < |infos|
    requires |Concat(plain)| == Offset(infos, |infos|) && start < |Concat(plain)|
    requires actualLen == Min(start + len, |Concat(plain)|) - start
    requires Offset(infos, first) <= start && Min(start + len, |Concat(plain)|) <= Offset(infos, last + 1)
    ensures SumBelow(infos, first) == Offset(infos, first)
    ensures Slice(Concat(plain[first..last + 1]), start - Offset(infos, first), actualLen) == Slice(Concat(plain), start, len)
  {
    SumBelowIsOffset(infos, first);
    SliceFromChunks(infos, plain, first, last, start, actualLen);
    SliceClipped(Concat(plain), start, len);
  }

  /** The end of GetRange: what there is of the range in the opened bytes. */
  method CutRange(bytes: Bytes, internalOffset: nat, actualLen: nat) returns (r: Bytes)
    ensures r == Slice(bytes, internalOffset, actualLen)
  {
    if internalOffset >= |bytes| { return []; }
    var availableLen := |bytes| - internalOffset;
    var rangeLen := Min(actualLen, availableLen);
    r := bytes[internalOffset..internalOffset + rangeLen];
  }

  /** Unwinds child maps in parallel and opens a stream on the root map. */
  method StreamingDecrypt(cr: Suite, batchSize: nat, m: DataMap, getChunkParallel: BatchGetter)
    returns (r: Result<DecryptionStream>)
    ensures var root := if m.IsChild() then RootMapBatch(cr, getChunkParallel, m, map[], 0) else Success(m);
            && (r.Failure? <==> root.Failure?)
            && (r.Success? ==>
                  && fresh(r.value) && r.value.Valid() && (forall plain :: r.value.At(plain, 0))
                  && r.value.cr == cr && r.value.batchSize == batchSize && r.value.getChunkParallel == getChunkParallel
                  && r.value.chunkInfos == SortByIndex(root.value.infos)
                  && r.value.srcHashes == ExtractHashes(root.value) && r.value.childLevel == root.value.Level())
  {
    var root := m;
    if m.IsChild() {
      var unwound := GetRootDataMapParallel(cr, getChunkParallel, m);
      if unwound.Failure? { return Failure(unwound.error); }
      root := unwound.value;
    }
    var stream := new DecryptionStream(cr, batchSize, root, getChunkParallel);
    r := Success(stream);
  }
}
