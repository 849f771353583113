/** When iteration and range requests succeed, and with what failure if not, for any getter, any opener and any map in
    index order (self_encryption/src/stream_decrypt.rs). Nothing is assumed of the chunks. */
module StreamExact {
  import opened Prelude
  import opened Crypto
  import opened Codec
  import opened Encrypt
  import opened Decrypt
  import opened Parallel
  import opened Ranges
  import opened StreamDecrypt

  // Opening an index range.

  /** The chunk answered for index `i`, if one was, opens. */
  ghost predicate AnswerOpens(open: Opener, chunkMap: map<nat, Bytes>, i: nat) {
    i in chunkMap ==> open(i, chunkMap[i]).Success?
  }

  /** What index `i` contributes: what its chunk opens to, and nothing if none was answered. */
  ghost function OpenedAs(open: Opener, chunkMap: map<nat, Bytes>, i: nat): Bytes {
    if i in chunkMap && open(i, chunkMap[i]).Success? then open(i, chunkMap[i]).value else []
  }

  ghost function Contributions(open: Opener, chunkMap: map<nat, Bytes>, first: nat, end: nat): (r: seq<Bytes>)
    requires first <= end
    ensures |r| == end - first && forall k | 0 <= k < end - first :: r[k] == OpenedAs(open, chunkMap, first + k)
  {
    seq(end - first, k requires 0 <= k < end - first => OpenedAs(open, chunkMap, first + k))
  }

  /** An index range opens exactly if every answered chunk in it does, */
  lemma {:induction false} OpenIndicesExactly(open: Opener, chunkMap: map<nat, Bytes>, first: nat, end: nat)
    ensures OpenIndices(open, chunkMap, first, end).Success? <==> forall i | first <= i < end :: AnswerOpens(open, chunkMap, i)
    decreases end
  {
    if first < end {
      OpenIndicesExactly(open, chunkMap, first, end - 1);
      assert AnswerOpens(open, chunkMap, end - 1) <==>
             end - 1 !in chunkMap || open(end - 1, chunkMap[end - 1]).Success?;
    }
  }

  lemma ContributionsGrow(open: Opener, chunkMap: map<nat, Bytes>, first: nat, end: nat)
    requires first < end
    ensures Concat(Contributions(open, chunkMap, first, end))
         == Concat(Contributions(open, chunkMap, first, end - 1)) + OpenedAs(open, chunkMap, end - 1)
  {
    var parts := Contributions(open, chunkMap, first, end);
    assert parts[..|parts| - 1] == Contributions(open, chunkMap, first, end - 1);
  }

  /** and then to what they open to, in index order. */
  lemma {:induction false} OpenIndicesGives(open: Opener, chunkMap: map<nat, Bytes>, first: nat, end: nat)
    requires first <= end && OpenIndices(open, chunkMap, first, end).Success?
    ensures OpenIndices(open, chunkMap, first, end) == Success(Concat(Contributions(open, chunkMap, first, end)))
    decreases end
  {
    if first < end {
      OpenIndicesGives(open, chunkMap, first, end - 1);
      ContributionsGrow(open, chunkMap, first, end);
      var most := OpenIndices(open, chunkMap, first, end - 1).value;
      assert most + [] == most;
    }
  }

  /** Otherwise the failure is that of the lowest answered index whose chunk does not open. */
  lemma {:induction false} LowestFails(open: Opener, chunkMap: map<nat, Bytes>, first: nat, end: nat) returns (i: nat)
    requires OpenIndices(open, chunkMap, first, end).Failure?
    ensures first <= i < end && i in chunkMap && (forall j | first <= j < i :: AnswerOpens(open, chunkMap, j))
    ensures open(i, chunkMap[i]) == Failure(OpenIndices(open, chunkMap, first, end).error)
    decreases end
  {
    if OpenIndices(open, chunkMap, first, end - 1).Failure? {
      i := LowestFails(open, chunkMap, first, end - 1);
    } else {
      OpenIndicesExactly(open, chunkMap, first, end - 1);
      i := end - 1;
    }
  }

  // What a range request asks for, and how its answers are collected.

  lemma {:induction false} RequestSnoc(infos: seq<ChunkInfo>, k: nat)
    requires k < |infos|
    ensures Request(infos[..k + 1]) == Request(infos[..k]) + [(infos[k].index, infos[k].dstHash)]
  {
  }

  lemma {:induction false} RequestRangeSnoc(infos: seq<ChunkInfo>, first: nat, last: nat, k: nat)
    requires k < |infos|
    ensures RequestRange(infos[..k + 1], first, last)
         == RequestRange(infos[..k], first, last)
            + if first <= infos[k].index <= last then [(infos[k].index, infos[k].dstHash)] else []
  {
    assert infos[..k + 1][..k] == infos[..k];
  }

  lemma {:induction false} RequestedPrefix(infos: seq<ChunkInfo>, first: nat, last: nat, k: nat, index: nat)
    requires k <= |infos|
    ensures WithKey(RequestRange(infos[..k], first, last), index)
         == if first <= index <= last then WithKey(Request(infos[..k]), index) else []
  {
    if k > 0 {
      hide RequestRange, Request, WithKey;
      var entry := (infos[k - 1].index, infos[k - 1].dstHash);
      var most := RequestRange(infos[..k - 1], first, last);
      RequestedPrefix(infos, first, last, k - 1, index);
      RequestRangeSnoc(infos, first, last, k - 1);
      RequestSnoc(infos, k - 1);
      WithKeySnoc(most, entry, index);
      WithKeySnoc(Request(infos[..k - 1]), entry, index);
      assert most + [] == most;
    } else {
      assert Request(infos[..0]) == [];
    }
  }

  /** Asked for are the entries whose index lies in the range, all of them, in index order, and those with the same index
      in the order they are in. */
  lemma {:induction false} RequestedExactly(infos: seq<ChunkInfo>, first: nat, last: nat, index: nat)
    ensures Ordered(SortByKey(RequestRange(infos, first, last)))
    ensures WithKey(SortByKey(RequestRange(infos, first, last)), index)
         == if first <= index <= last then WithKey(Request(infos), index) else []
  {
    SortFacts(RequestRange(infos, first, last));
    SortStable(RequestRange(infos, first, last), index);
    RequestedPrefix(infos, first, last, |infos|, index);
    assert infos[..|infos|] == infos;
  }

  /** Of several answers for one index the last is kept, and there is none for an index that was not answered. */
  lemma {:induction false} AnswersKeepLast(answers: seq<(nat, Bytes)>, i: nat)
    requires i < |answers| && forall j | i < j < |answers| :: answers[j].0 != answers[i].0
    ensures answers[i].0 in ToMap(answers) && ToMap(answers)[answers[i].0] == answers[i].1
  {
    if i < |answers| - 1 {
      assert answers[..|answers| - 1][i] == answers[i];
      AnswersKeepLast(answers[..|answers| - 1], i);
    }
  }

  /** Beyond the end of the file the scan settles on the last entry. */
  lemma {:induction false} IndexBeyondEnd(infos: seq<ChunkInfo>, position: nat, k: nat)
    requires k <= |infos| && Offset(infos, |infos|) <= position
    ensures IndexFrom(infos, position, k) == if infos == [] then 0 else infos[|infos| - 1].index
    decreases |infos| - k
  {
    if k < |infos| {
      OffsetMonotone(infos, k + 1, |infos|);
      IndexBeyondEnd(infos, position, k + 1);
    }
  }

  lemma {:induction false} SumBelowTo(infos: seq<ChunkInfo>, index: nat, k: nat, j: nat)
    requires k <= |infos| && j <= |infos|
    requires (forall i | 0 <= i < k :: infos[i].index < index)
    requires (forall i | k <= i < |infos| :: infos[i].index >= index)
    ensures SumBelow(infos[..j], index) == Offset(infos, Min(j, k))
    decreases j
  {
    if j > 0 {
      SumBelowTo(infos, index, k, j - 1);
      assert infos[..j][..j - 1] == infos[..j - 1];
    }
  }

  /** The sizes below an index are the offset of the first entry that is not below it. */
  lemma {:induction false} SumBelowExactly(infos: seq<ChunkInfo>, index: nat, k: nat)
    requires k <= |infos|
    requires (forall i | 0 <= i < k :: infos[i].index < index)
    requires (forall i | k <= i < |infos| :: infos[i].index >= index)
    ensures SumBelow(infos, index) == Offset(infos, k)
  {
    SumBelowTo(infos, index, k, |infos|);
    assert infos[..|infos|] == infos;
  }

  // Range requests.

  /** The last byte asked for: one before the end of the range or of the file. When the sum overflows, what is left
      of it counts from the start of the file. */
  function LastByte(size: nat, start: nat, len: nat): nat {
    if start + len < 0x1_0000_0000_0000_0000 then SaturatingSub(Min(start + len, size), 1)
    else SaturatingSub(Min(start + len - 0x1_0000_0000_0000_0000, size), 1)
  }

  /** What a range request that reaches the chunks gets for its indices. */
  ghost function Fetched(batch: BatchGetter, infos: seq<ChunkInfo>, start: nat, len: nat): Result<map<nat, Bytes>> {
    var first, last := IndexFrom(infos, start, 0), IndexFrom(infos, LastByte(Offset(infos, |infos|), start, len), 0);
    var answers := batch(SortByKey(RequestRange(infos, first, last)));
    if answers.Failure? then Failure(answers.error) else Success(ToMap(answers.value))
  }

  /** Every answered chunk between the one that holds `start` and the one that holds the last byte opens. */
  ghost predicate RangeOpens(open: Opener, infos: seq<ChunkInfo>, chunkMap: map<nat, Bytes>, start: nat, len: nat) {
    forall i | IndexFrom(infos, start, 0) <= i <= IndexFrom(infos, LastByte(Offset(infos, |infos|), start, len), 0) ::
      AnswerOpens(open, chunkMap, i)
  }

  lemma {:induction false} RangeIsFound(open: Opener, batch: BatchGetter, infos: seq<ChunkInfo>, start: nat,
        len: nat) returns (take: nat)
    requires SortedInfos(infos) && 0 < len < USIZE_LIMIT && start < Offset(infos, |infos|) < USIZE_LIMIT
    ensures RangeAt(open, batch, infos, start, len)
         == RangeFound(open, batch, infos, start, LastByte(Offset(infos, |infos|), start, len), take)
    ensures start + len < USIZE_LIMIT ==> take == Min(start + len, Offset(infos, |infos|)) - start
    ensures start + len >= USIZE_LIMIT ==> take == len
  {
    var size := Offset(infos, |infos|);
    var end := Min(WrapAdd(start, len), size);
    take := WrapSub(end, start);
  }

  /** A range request that reaches the chunks succeeds exactly if the batch getter does and every answered chunk of the
      range opens. A failing getter's error is the request's. */
  lemma {:induction false} RangeSucceedsExactly(open: Opener, batch: BatchGetter, infos: seq<ChunkInfo>, start: nat,
        len: nat)
    requires SortedInfos(infos) && 0 < len < USIZE_LIMIT && start < Offset(infos, |infos|) < USIZE_LIMIT
    ensures var fetched, r := Fetched(batch, infos, start, len), RangeAt(open, batch, infos, start, len);
            && (r.Success? <==> fetched.Success? && RangeOpens(open, infos, fetched.value, start, len))
            && (fetched.Failure? ==> r == Failure(fetched.error))
  {
    var take := RangeIsFound(open, batch, infos, start, len);
    var first, last := IndexFrom(infos, start, 0), IndexFrom(infos, LastByte(Offset(infos, |infos|), start, len), 0);
    var fetched := Fetched(batch, infos, start, len);
    if fetched.Success? {
      OpenIndicesExactly(open, fetched.value, first, last + 1);
    }
  }

  /** If it is not the getter that fails, the request's error is that of the lowest index that does not open. */
  lemma {:induction false} RangeFailsWithLowest(open: Opener, batch: BatchGetter, infos: seq<ChunkInfo>, start: nat,
        len: nat)
    returns (i: nat)
    requires SortedInfos(infos) && 0 < len < USIZE_LIMIT && start < Offset(infos, |infos|) < USIZE_LIMIT
    requires RangeAt(open, batch, infos, start, len).Failure? && Fetched(batch, infos, start, len).Success?
    ensures var chunkMap := Fetched(batch, infos, start, len).value;
            && IndexFrom(infos, start, 0) <= i <= IndexFrom(infos, LastByte(Offset(infos, |infos|), start, len), 0)
            && i in chunkMap && (forall j | IndexFrom(infos, start, 0) <= j < i :: AnswerOpens(open, chunkMap, j))
            && open(i, chunkMap[i]) == Failure(RangeAt(open, batch, infos, start, len).error)
  {
    var take := RangeIsFound(open, batch, infos, start, len);
    var first, last := IndexFrom(infos, start, 0), IndexFrom(infos, LastByte(Offset(infos, |infos|), start, len), 0);
    i := LowestFails(open, Fetched(batch, infos, start, len).value, first, last + 1);
  }

  /** A range request that succeeds returns what the answered chunks open to, joined in index order and cut at the place
      of `start` behind the sizes below the first index. */
  lemma {:induction false} RangeGives(open: Opener, batch: BatchGetter, infos: seq<ChunkInfo>, start: nat, len: nat)
    requires SortedInfos(infos) && 0 < len < USIZE_LIMIT && start < Offset(infos, |infos|) < USIZE_LIMIT
    requires RangeAt(open, batch, infos, start, len).Success?
    ensures Fetched(batch, infos, start, len).Success? && SumBelow(infos, IndexFrom(infos, start, 0)) <= start
    ensures var first := IndexFrom(infos, start, 0);
            var last := IndexFrom(infos, LastByte(Offset(infos, |infos|), start, len), 0);
            var chunkMap := Fetched(batch, infos, start, len).value;
            var take := if start + len < USIZE_LIMIT then Min(start + len, Offset(infos, |infos|)) - start else len;
            RangeAt(open, batch, infos, start, len) ==
            Success(Slice(if first <= last then Concat(Contributions(open, chunkMap, first, last + 1)) else [],
                          start - SumBelow(infos, first), take))
  {
    hide SumBelow, RequestRange, Contributions, SortByKey, Slice, Offset, ToMap, IndexFrom;
    var first := IndexFrom(infos, start, 0);
    var last := IndexFrom(infos, LastByte(Offset(infos, |infos|), start, len), 0);
    var take := RangeIsFound(open, batch, infos, start, len);
    var bytes := FetchIndices(open, batch, infos, first, last).value;
    RangeCuts(open, batch, infos, start, LastByte(Offset(infos, |infos|), start, len), take, first, last, bytes);
    if first <= last {
      OpenIndicesGives(open, Fetched(batch, infos, start, len).value, first, last + 1);
    }
  }

  // Iteration.

  /** The first pairs open. */
  ghost predicate PairOpens(open: Opener, infos: seq<ChunkInfo>, answers: seq<(nat, Bytes)>, i: nat)
    requires i < |infos| && i < |answers|
  {
    open(infos[i].index, answers[i].1).Success?
  }

  /** Opened are the pairs up to the first that does not open, each to what its answer opens to as its entry's chunk. */
  lemma {:induction false} OpenedExactly(open: Opener, infos: seq<ChunkInfo>, answers: seq<(nat, Bytes)>, k: nat)
    requires k <= |infos| && k <= |answers|
    ensures var read := Opened(open, infos, answers, k);
            && (forall i | 0 <= i < |read| :: open(infos[i].index, answers[i].1) == Success(read[i]))
            && (|read| == k <==> forall i | 0 <= i < k :: PairOpens(open, infos, answers, i))
  {
    if k > 0 {
      OpenedExactly(open, infos, answers, k - 1);
      OpenedStops(open, infos, answers, k - 1);
      var most := Opened(open, infos, answers, k - 1);
      if |most| < k - 1 {
        assert !PairOpens(open, infos, answers, |most|);
      } else {
        assert PairOpens(open, infos, answers, k - 1) <==> open(infos[k - 1].index, answers[k - 1].1).Success?;
      }
    }
  }

  /** A batch opens exactly if every pair does; if not, the failure is that of the first pair that does not. */
  lemma {:induction false} BatchOpensExactly(open: Opener, infos: seq<ChunkInfo>, answers: seq<(nat, Bytes)>)
    ensures var pairs := if |infos| <= |answers| then |infos| else |answers|;
            var (read, error) := OpenPairs(open, infos, answers);
            && |read| <= pairs
            && (error.None? <==> forall i | 0 <= i < pairs :: PairOpens(open, infos, answers, i))
            && (error.None? ==> |read| == pairs)
            && (error.Some? ==> |read| < pairs && open(infos[|read|].index, answers[|read|].1) == Failure(error.value))
            && (forall i | 0 <= i < |read| :: open(infos[i].index, answers[i].1) == Success(read[i]))
  {
    OpenedExactly(open, infos, answers, Fewer(infos, answers));
    OpenedStops(open, infos, answers, Fewer(infos, answers));
  }

  /** Fetching a batch succeeds exactly if the getter does and the answers, sorted, open with the entries. Then the
      batch holds what they open to and the next one starts behind it. If not, the failure is the getter's or that of
      the batch, and the next fetch starts at the same entry. */
  lemma {:induction false} FetchSucceedsExactly(open: Opener, batch: BatchGetter, infos: seq<ChunkInfo>,
        batchSize: nat, c: Cursor)
    requires c.start < |infos|
    ensures var end := if c.start + batchSize <= |infos| then c.start + batchSize else |infos|;
            var due, answers := infos[c.start..end], batch(Request(infos[c.start..end]));
            var (after, r) := FetchAt(open, batch, infos, batchSize, c);
            && (answers.Failure? ==> after == c && r == Failure(answers.error))
            && (answers.Success? ==>
                  var (read, error) := OpenPairs(open, due, SortByKey(answers.value));
                  && (error.None? ==> r == Success(true) && after == Cursor(end, read, 0))
                  && (error.Some? ==> r == Failure(error.value) && after == Cursor(c.start, read, c.index)))
  {
  }

  /** A batch of which nothing is answered ends the iteration, although it has been passed over and the next call goes on
      behind it. */
  lemma {:induction false} EmptyBatchEnds(open: Opener, batch: BatchGetter, infos: seq<ChunkInfo>, batchSize: nat,
        c: Cursor)
    requires c.start < |infos| && c.index >= |c.chunks|
    requires batch(Request(infos[c.start..Min(c.start + batchSize, |infos|)])) == Success([])
    ensures NextAt(open, batch, infos, batchSize, c) == (Cursor(Min(c.start + batchSize, |infos|), [], 0), None)
  {
    var due := infos[c.start..Min(c.start + batchSize, |infos|)];
    BatchOpensExactly(open, due, []);
  }
}
