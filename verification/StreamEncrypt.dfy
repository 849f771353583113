/** Streaming encryption (self_encryption/src/stream_encrypt.rs). */
module StreamEncrypt {
  import opened Prelude
  import opened Layout
  import opened Crypto
  import opened Codec
  import opened Encrypt

  /** What the stream hands out (the source's ChunkOrDataMap). */
  datatype Item = Chunk(content: Bytes) | Map(dataMap: DataMap)

  /** The chunk in an item, if it is one. */
  function ChunkIn(item: Option<Item>): seq<Bytes> {
    if item.Some? && item.value.Chunk? then [item.value.content] else []
  }

  // What the stream works towards. These values never change.

  /** All the input there will be, its layout, its pieces, their seals, the result of batch encryption, and the root map
      as the stream records it with the result of shrinking that. */
  datatype Plan = Plan(cr: Suite, max: nat, size: nat, n: nat, whole: Bytes, bounds: seq<nat>, pieces: seq<Bytes>,
                       seals: seq<Result<Bytes>>, batch: Result<(DataMap, seq<Bytes>)>,
                       root: DataMap, shrunk: Result<(DataMap, seq<Bytes>)>)

  /** Chunk boundaries as the layout computes them. */
  ghost predicate LaidOut(size: nat, max: nat, n: nat, bounds: seq<nat>) {
    && max >= 1 && n == NumChunks(size, max) && n >= 3
    && |bounds| == n + 1 && bounds[0] == 0 && bounds[n] == size
    && (forall i, j | 0 <= i < j <= n :: bounds[i] < bounds[j])
    && (forall i, j | 0 <= i < j <= n && j <= i + 1 :: bounds[j] <= bounds[i] + max + 1)
    && (forall i {:trigger StartEnd(size, i, max)} | 0 <= i < n :: StartEnd(size, i, max) == (bounds[i], bounds[i + 1]))
  }

  /** The data cut at the boundaries, as far as it reaches. */
  ghost predicate CutAt(whole: Bytes, bounds: seq<nat>, pieces: seq<Bytes>) {
    && |bounds| == |pieces| + 1
    && (forall i, j | 0 <= i <= j <= |pieces| :: bounds[i] <= bounds[j])
    && (forall i | 0 <= i < |pieces| :: pieces[i] == whole[Min(bounds[i], |whole|)..Min(bounds[i + 1], |whole|)])
  }

  /** The seals of the pieces at level 0, with the key material of all source hashes. */
  ghost predicate SealsOf(cr: Suite, pieces: seq<Bytes>, seals: seq<Result<Bytes>>) {
    && |seals| == |pieces|
    && (forall i {:trigger SealPiece(cr, pieces, 0, i)} | 0 <= i < |pieces| :: SealPiece(cr, pieces, 0, i) == seals[i])
  }

  ghost predicate Sound(plan: Plan) {
    match plan
    case Plan(cr, max, size, n, whole, bounds, pieces, seals, batch, root, shrunk) =>
      && LaidOut(size, max, n, bounds) && CutAt(whole, bounds, pieces) && |pieces| == n
      && SealsOf(cr, pieces, seals) && RootOf(cr, pieces, seals, root) && Outcomes(cr, max, seals, root, shrunk, batch)
  }

  /** The entry of a piece: as long as it has no seal, with the hash of nothing in place of its seal's. */
  ghost function EntryOf(cr: Suite, index: nat, piece: Bytes, seal: Option<Bytes>): ChunkInfo {
    ChunkInfo(index, cr.hash(if seal.Some? then seal.value else []), cr.hash(piece), |piece|)
  }

  function Kept(seal: Result<Bytes>): Option<Bytes> {
    if seal.Success? then Some(seal.value) else None
  }

  /** The map of all entries, those of pieces that could not be sealed included. */
  ghost predicate RootOf(cr: Suite, pieces: seq<Bytes>, seals: seq<Result<Bytes>>, root: DataMap) {
    && root.child == None && |root.infos| == |pieces| == |seals|
    && forall i | 0 <= i < |pieces| :: root.infos[i] == EntryOf(cr, i, pieces[i], Kept(seals[i]))
  }

  ghost function Values(results: seq<Result<Bytes>>): (r: seq<Bytes>)
    ensures |r| == |results|
    ensures forall i | 0 <= i < |r| && results[i].Success? :: r[i] == results[i].value
  {
    seq(|results|, i requires 0 <= i < |results| => if results[i].Success? then results[i].value else [])
  }

  ghost predicate AllKept(seals: seq<Result<Bytes>>) {
    forall i | 0 <= i < |seals| :: seals[i].Success?
  }

  /** Batch encryption fails if a piece cannot be sealed; otherwise it returns the seals and what shrinking adds, which
      is no chunk at all or a whole encryption's worth. */
  ghost predicate Outcomes(cr: Suite, max: nat, seals: seq<Result<Bytes>>, root: DataMap,
        shrunk: Result<(DataMap, seq<Bytes>)>, batch: Result<(DataMap, seq<Bytes>)>)
  {
    && Ends(max, |root.infos|) && shrunk == Shrink(cr, max, root)
    && (shrunk.Success? ==> shrunk.value.1 == [] || |shrunk.value.1| >= 3)
    && (if AllKept(seals) then batch == After(Values(seals), shrunk) else batch.Failure?)
  }

  ghost function SealResults(cr: Suite, pieces: seq<Bytes>): (r: seq<Result<Bytes>>)
    ensures |r| == |pieces| && forall i | 0 <= i < |pieces| :: r[i] == SealPiece(cr, pieces, 0, i)
  {
    seq(|pieces|, i requires 0 <= i < |pieces| => SealPiece(cr, pieces, 0, i))
  }

  ghost function RecordedRoot(cr: Suite, pieces: seq<Bytes>, seals: seq<Result<Bytes>>): (root: DataMap)
    requires |pieces| == |seals|
    ensures RootOf(cr, pieces, seals, root)
  {
    DataMap(seq(|pieces|, i requires 0 <= i < |pieces| => EntryOf(cr, i, pieces[i], Kept(seals[i]))), None)
  }

  ghost function MakePlan(cr: Suite, max: nat, size: nat, whole: Bytes): (plan: Plan)
    requires max >= 1 && Ends(max, NumChunks(size, max)) && size >= 3
    ensures plan.cr == cr && plan.max == max && plan.size == size && plan.whole == whole
    ensures plan.n == NumChunks(size, max) == |plan.pieces| == |plan.seals| && plan.n >= 3
    ensures plan.bounds == Bounds(size, max) && plan.pieces == Cut(whole, size, max)
    ensures forall i | 0 <= i < plan.n :: plan.seals[i] == SealPiece(cr, plan.pieces, 0, i)
    ensures RootOf(cr, plan.pieces, plan.seals, plan.root) && plan.shrunk == Shrink(cr, max, plan.root)
    ensures plan.batch == EncryptPieces(cr, max, plan.pieces, 0)
  {
    NumChunksAtLeast3(size, max);
    var pieces := Cut(whole, size, max);
    var seals := SealResults(cr, pieces);
    var root := RecordedRoot(cr, pieces, seals);
    Plan(cr, max, size, NumChunks(size, max), whole, Bounds(size, max), pieces, seals, EncryptPieces(cr, max, pieces, 0),
         root, Shrink(cr, max, root))
  }

  lemma PlanIsSound(cr: Suite, max: nat, size: nat, whole: Bytes)
    requires max >= 1 && Ends(max, NumChunks(size, max)) && size >= 3
    ensures Sound(MakePlan(cr, max, size, whole))
  {
    hide Shrink, EncryptPieces, SealPiece, Concat, Cut, Bounds, NumChunks;
    BoundsAreLaidOut(size, max);
    CutIsCutAt(whole, size, max);
    NumChunksAtLeast3(size, max);
    var plan := MakePlan(cr, max, size, whole);
    OutcomesOf(cr, max, plan.pieces, plan.seals, plan.root);
  }

  /** With all pieces sealed, the entries are those of the batch map. */
  lemma RootIsBatchMap(cr: Suite, pieces: seq<Bytes>, seals: seq<Result<Bytes>>, root: DataMap)
    requires SealsOf(cr, pieces, seals) && RootOf(cr, pieces, seals, root) && AllKept(seals)
    ensures AllSealed(cr, pieces, 0) && Values(seals) == Sealed(cr, pieces, 0) && root == MapOf(cr, pieces, 0)
  {
    forall i | 0 <= i < |pieces|
      ensures SealPiece(cr, pieces, 0, i) == seals[i] && seals[i].Success?
    {
    }
    forall i | 0 <= i < |pieces|
      ensures root.infos[i] == MapOf(cr, pieces, 0).infos[i]
    {
      assert SealPiece(cr, pieces, 0, i) == seals[i];
      assert root.infos[i] == EntryOf(cr, i, pieces[i], Kept(seals[i]));
    }
  }

  lemma OutcomesOf(cr: Suite, max: nat, pieces: seq<Bytes>, seals: seq<Result<Bytes>>, root: DataMap)
    requires Ends(max, |pieces|) && |pieces| >= 3 && SealsOf(cr, pieces, seals) && RootOf(cr, pieces, seals, root)
    ensures Outcomes(cr, max, seals, root, Shrink(cr, max, root), EncryptPieces(cr, max, pieces, 0))
  {
    if Shrink(cr, max, root).Success? { ShrinkCount(cr, max, root); }
    if AllKept(seals) {
      RootIsBatchMap(cr, pieces, seals, root);
      EncryptIsShrink(cr, max, pieces);
    } else {
      var i :| 0 <= i < |seals| && seals[i].Failure?;
      assert SealPiece(cr, pieces, 0, i) == seals[i];
    }
  }

  lemma EncryptIsShrink(cr: Suite, max: nat, pieces: seq<Bytes>)
    requires Ends(max, |pieces|) && |pieces| >= 3 && AllSealed(cr, pieces, 0)
    ensures EncryptPieces(cr, max, pieces, 0) == After(Sealed(cr, pieces, 0), Shrink(cr, max, MapOf(cr, pieces, 0)))
  {
  }

  /** Shrinking adds no chunk at all or a whole encryption's worth. */
  lemma ShrinkCount(cr: Suite, max: nat, m: DataMap)
    requires Ends(max, |m.infos|) && Shrink(cr, max, m).Success?
    ensures Shrink(cr, max, m).value.1 == [] || |Shrink(cr, max, m).value.1| >= 3
  {
    if |m.infos| > 3 {
      ShrinkTakesOneRound(cr, max, m);
      EncryptAtCount(cr, max, ToBytes(m), NextLevel(m));
    }
  }

  lemma BoundsAreLaidOut(size: nat, max: nat)
    requires max >= 1 && size >= 3
    ensures LaidOut(size, max, NumChunks(size, max), Bounds(size, max))
  {
    NumChunksAtLeast3(size, max);
    var n, bounds := NumChunks(size, max), Bounds(size, max);
    Tiling(size, 0, max);
    forall i, j | 0 <= i < j <= n
      ensures bounds[i] < bounds[j]
      ensures j <= i + 1 ==> bounds[j] <= bounds[i] + max + 1
    {
      BoundMonotone(size, i, j, max);
      Tiling(size, i, max);
    }
    forall i | 0 <= i < n
      ensures StartEnd(size, i, max) == (bounds[i], bounds[i + 1])
    {
      Tiling(size, i, max);
    }
  }

  lemma CutIsCutAt(data: Bytes, size: nat, max: nat)
    requires max >= 1 && size >= 3
    ensures CutAt(data, Bounds(size, max), Cut(data, size, max))
  {
    NumChunksAtLeast3(size, max);
    forall i, j | 0 <= i <= j <= NumChunks(size, max)
      ensures Bounds(size, max)[i] <= Bounds(size, max)[j]
    {
      BoundMonotone(size, i, j, max);
    }
  }

  // The input side.

  /** Input still to come, whether the end of input was seen, what was fed so far, how many chunks were taken
      from it, what is buffered, and the length of the piece fed last. */
  datatype Feed = Feed(rest: Bytes, complete: bool, fed: Bytes, done: nat, buffer: Bytes, lastPiece: nat)

  /** Conservation: the bytes fed are the processed prefix followed by the buffer; and the bound: while no more
      than the declared size was fed, the buffer holds at most a maximal chunk and the last piece. */
  ghost predicate Conserves(plan: Plan, feed: Feed) {
    match feed
    case Feed(rest, complete, fed, done, buffer, lastPiece) =>
      && done <= plan.n && |plan.bounds| == plan.n + 1
      && fed + rest == plan.whole
      && (complete ==> rest == [])
      && buffer == fed[Min(plan.bounds[done], |fed|)..]
      && (!complete ==> plan.bounds[done] <= |fed|)
      && (done > 0 ==> plan.bounds[done - 1] < |fed|)
      && (!complete && |fed| <= plan.size ==> |buffer| <= plan.max + lastPiece)
  }

  /** The size of the next chunk as far as its data is there. */
  ghost predicate TakesNext(plan: Plan, feed: Feed, size: nat) {
    && feed.done < plan.n && |plan.bounds| == plan.n + 1 && 0 < size <= |feed.buffer|
    && plan.bounds[feed.done] < plan.bounds[feed.done + 1]
    && size == if feed.complete then Min(plan.bounds[feed.done + 1] - plan.bounds[feed.done], |feed.buffer|)
               else plan.bounds[feed.done + 1] - plan.bounds[feed.done]
  }

  /** The data of the next chunk is there. */
  ghost predicate Held(plan: Plan, feed: Feed) {
    && feed.done < plan.n && |plan.bounds| == plan.n + 1 && plan.bounds[feed.done] < |plan.whole|
    && (!feed.complete ==> plan.bounds[feed.done + 1] - plan.bounds[feed.done] <= |feed.buffer|)
  }

  lemma FeedNext(plan: Plan, feed: Feed, size: nat)
    requires Sound(plan) && Conserves(plan, feed) && TakesNext(plan, feed, size)
    ensures Conserves(plan, feed.(done := feed.done + 1, buffer := feed.buffer[size..]))
  {
    Drained(feed.fed, feed.buffer, plan.bounds[feed.done], plan.bounds[feed.done + 1], size, feed.complete);
  }

  lemma Drained(fed: Bytes, buffer: Bytes, start: nat, end: nat, size: nat, complete: bool)
    requires start < end && buffer == fed[Min(start, |fed|)..] && 0 < size <= |buffer|
    requires size == if complete then Min(end - start, |buffer|) else end - start
    ensures start < |fed| && buffer[size..] == fed[Min(end, |fed|)..] && (!complete ==> end <= |fed|)
  {
    assert buffer[size..] == fed[start + size..];
  }

  lemma FeedPiece(plan: Plan, feed: Feed, piece: Bytes, rest: Bytes)
    requires Sound(plan) && Conserves(plan, feed) && !feed.complete && feed.rest == piece + rest
    requires feed.done < plan.n ==> |feed.buffer| <= plan.max
    ensures Conserves(plan, Feed(rest, false, feed.fed + piece, feed.done, feed.buffer + piece, |piece|))
  {
    hide SealsOf, RootOf, Outcomes, CutAt;
    var fed, bound := feed.fed, plan.bounds[feed.done];
    assert feed.done == plan.n ==> bound == plan.size;
    assert fed + piece + rest == fed + (piece + rest);
    assert (fed + piece)[bound..] == fed[bound..] + piece;
  }

  /** The front of the buffer is the next piece; once the end of input was seen and nothing is left of the
      chunk, the input ended before it. */
  lemma PieceIsFront(plan: Plan, feed: Feed)
    requires Sound(plan) && Conserves(plan, feed) && feed.done < plan.n
    ensures var size := plan.bounds[feed.done + 1] - plan.bounds[feed.done];
            && (!feed.complete && |feed.buffer| >= size ==> plan.pieces[feed.done] == feed.buffer[..size])
            && (feed.complete ==> plan.pieces[feed.done] == feed.buffer[..Min(size, |feed.buffer|)])
    ensures feed.complete ==> (|plan.whole| <= plan.bounds[feed.done] <==> feed.buffer == [])
  {
    FrontOfBuffer(plan.whole, feed.fed, feed.rest, plan.bounds[feed.done], plan.bounds[feed.done + 1], feed.complete);
  }

  lemma FrontOfBuffer(whole: Bytes, fed: Bytes, rest: Bytes, start: nat, end: nat, complete: bool)
    requires fed + rest == whole && start < end
    requires if complete then rest == [] else start <= |fed|
    ensures var buffer := fed[Min(start, |fed|)..];
            var piece := whole[Min(start, |whole|)..Min(end, |whole|)];
            && (!complete && |buffer| >= end - start ==> piece == buffer[..end - start])
            && (complete ==> piece == buffer[..Min(end - start, |buffer|)])
            && (complete ==> (|whole| <= start <==> buffer == []))
  {
    assert whole[..|fed|] == fed;
    if complete {
      assert fed == whole;
    } else if |fed| >= end {
      assert whole[start..end] == fed[start..end];
    }
  }

  lemma {:induction false} PiecesPrefix(plan: Plan, k: nat)
    requires Sound(plan) && k <= plan.n
    ensures |plan.pieces| == plan.n && |plan.bounds| == plan.n + 1
    ensures Concat(plan.pieces[..k]) == plan.whole[..Min(plan.bounds[k], |plan.whole|)]
  {
    hide SealsOf, RootOf, Outcomes;
    if k > 0 {
      PiecesPrefix(plan, k - 1);
      ConcatSnoc(plan.pieces, k - 1);
    }
  }

  /** Whatever was fed is the chunks taken so far followed by the buffer, and while no more than the declared size
      was fed the buffer holds at most a maximal chunk and the last piece. */
  lemma BufferConserves(plan: Plan, feed: Feed)
    requires Sound(plan) && Conserves(plan, feed)
    ensures feed.done <= |plan.pieces| && feed.fed == Concat(plan.pieces[..feed.done]) + feed.buffer
    ensures !feed.complete && |feed.fed| <= plan.size ==> |feed.buffer| <= plan.max + feed.lastPiece
  {
    hide SealsOf, RootOf, Outcomes, LaidOut;
    PiecesPrefix(plan, feed.done);
    var bound := Min(plan.bounds[feed.done], |plan.whole|);
    assert feed.fed == plan.whole[..|feed.fed|];
    assert feed.fed == feed.fed[..Min(plan.bounds[feed.done], |feed.fed|)] + feed.buffer;
    assert feed.complete ==> feed.fed == plan.whole;
  }

  lemma FeedEnds(plan: Plan, feed: Feed)
    requires Conserves(plan, feed) && feed.rest == []
    ensures Conserves(plan, feed.(complete := true))
  {
  }

  // The record side.

  /** Chunks read, how many of chunks 0 and 1 were taken up to be sealed, the tables kept about the chunks, and whether
      the next chunk was tried and could not be sealed. */
  datatype Record = Record(done: nat, front: nat, hashes: seq<Option<Name>>, infos: seq<Option<ChunkInfo>>,
                           deferred: seq<Option<Bytes>>, tried: bool)

  ghost function ExpectedInfo(plan: Plan, index: nat, ready: bool): ChunkInfo
    requires index < |plan.pieces| == |plan.seals|
  {
    EntryOf(plan.cr, index, plan.pieces[index], if ready then Kept(plan.seals[index]) else None)
  }

  /** The tables know the source hash of every chunk read, an entry for it, and the data of deferred chunks. A chunk
      that could not be sealed is known, too. */
  ghost predicate Recorded(plan: Plan, rec: Record) {
    match rec
    case Record(done, front, hashes, infos, deferred, tried) =>
      && |plan.pieces| == |plan.seals| == |hashes| == |infos| == plan.n && |deferred| == 2 && plan.n >= 3
      && done <= plan.n && front <= 2 && (front > 0 ==> done == plan.n)
      && (tried ==> 2 <= done < plan.n && plan.seals[done].Failure? && StopsShort(plan))
      && (forall i | 0 <= i < plan.n ::
            hashes[i] == if i < done || (tried && i == done) then Some(plan.cr.hash(plan.pieces[i])) else None)
      && (forall i | 0 <= i < plan.n ::
            infos[i] == if i < done || (tried && i == done)
                        then Some(ExpectedInfo(plan, i, i < done && (i >= 2 || i < front))) else None)
      && (forall i | 0 <= i < 2 :: deferred[i] == if front <= i < done then Some(plan.pieces[i]) else None)
      && (forall i | 2 <= i < done :: plan.seals[i].Success?)
  }

  /** What the record says about the next chunk and those before it. */
  lemma RecordedMeans(plan: Plan, rec: Record)
    requires Recorded(plan, rec) && rec.done < plan.n
    ensures |plan.pieces| == |plan.seals| == |rec.hashes| == |rec.infos| == plan.n && |rec.deferred| == 2 && plan.n >= 3
    ensures forall i | 0 <= i < rec.done :: rec.hashes[i] == Some(plan.cr.hash(plan.pieces[i]))
    ensures rec.tried ==> rec.done >= 2 && plan.seals[rec.done].Failure?
  {
  }

  lemma RecordFirst(plan: Plan, rec: Record)
    requires Recorded(plan, rec) && rec.done < 2
    ensures var done := rec.done;
            Recorded(plan, Record(done + 1, 0, rec.hashes[done := Some(plan.cr.hash(plan.pieces[done]))],
                                  rec.infos[done := Some(ExpectedInfo(plan, done, false))],
                                  rec.deferred[done := Some(plan.pieces[done])], rec.tried))
  {
  }

  lemma RecordLater(plan: Plan, rec: Record)
    requires Recorded(plan, rec) && 2 <= rec.done < plan.n && plan.seals[rec.done].Success?
    ensures var done := rec.done;
            Recorded(plan, Record(done + 1, 0, rec.hashes[done := Some(plan.cr.hash(plan.pieces[done]))],
                                  rec.infos[done := Some(ExpectedInfo(plan, done, true))], rec.deferred,
                                  rec.tried))
  {
  }

  /** A chunk that cannot be sealed: its hash and its entry are there, the chunk still counts as unread. */
  lemma RecordTried(plan: Plan, rec: Record)
    requires Recorded(plan, rec) && 2 <= rec.done < plan.n && plan.seals[rec.done].Failure? && StopsShort(plan)
    ensures var done := rec.done;
            Recorded(plan, Record(done, rec.front, rec.hashes[done := Some(plan.cr.hash(plan.pieces[done]))],
                                  rec.infos[done := Some(ExpectedInfo(plan, done, false))], rec.deferred,
                                  true))
  {
  }

  /** A deferred chunk taken up: sealed, or lost. */
  lemma RecordFront(plan: Plan, rec: Record)
    requires Recorded(plan, rec) && rec.done == plan.n && rec.front < 2
    ensures var front := rec.front;
            Recorded(plan, Record(rec.done, front + 1, rec.hashes, rec.infos[front := Some(ExpectedInfo(plan, front, true))],
                                  rec.deferred[front := None], rec.tried))
    ensures plan.seals[rec.front].Failure? ==> rec.infos[rec.front] == Some(ExpectedInfo(plan, rec.front, true))
  {
  }

  // The output side.

  /** The seal of chunk `k`, if it was taken up and could be sealed. */
  ghost function SealAt(seals: seq<Result<Bytes>>, k: nat, front: nat): (r: seq<Bytes>)
    ensures |r| <= 1
  {
    if k < front && k < |seals| && seals[k].Success? then [seals[k].value] else []
  }

  /** The chunks handed out before shrinking: chunks 2 and up in order, then chunks 0 and 1 as far as they could be
      sealed. */
  ghost function HandedOut(seals: seq<Result<Bytes>>, done: nat, front: nat): (r: seq<Bytes>)
    requires done <= |seals|
    ensures |r| <= SaturatingSub(done, 2) + 2
  {
    (if done <= 2 then [] else Values(seals[2..done])) + (SealAt(seals, 0, front) + SealAt(seals, 1, front))
  }

  /** End of input seen, all done, final map, shrink chunks and how many of them were handed out, progress as in
      Record, and all chunks handed out so far. */
  datatype Output = Output(complete: bool, finished: bool, final: Option<DataMap>, shrinking: seq<Bytes>, index: nat,
                           done: nat, front: nat, yielded: seq<Bytes>)

  /** The final map and the shrink chunks are those of shrinking the recorded root map. */
  ghost predicate Shrunk(plan: Plan, m: DataMap, extra: seq<Bytes>) {
    (extra == [] || |extra| >= 3) && plan.shrunk == Success((m, extra))
  }

  ghost predicate Delivered(plan: Plan, out: Output) {
    match out
    case Output(complete, finished, final, shrinking, index, done, front, yielded) =>
      && done <= plan.n == |plan.seals| && front <= 2 <= plan.n
      && (front > 0 ==> complete)
      && if final.None? then
           shrinking == [] && index == 0 && !finished && yielded == HandedOut(plan.seals, done, front)
         else
           && complete && done == plan.n && front == 2
           && Shrunk(plan, final.value, shrinking)
           && index <= |shrinking| && (finished <==> index == |shrinking|)
           && yielded == HandedOut(plan.seals, plan.n, 2) + shrinking[..index]
  }

  lemma DeliverEnd(plan: Plan, out: Output)
    requires Delivered(plan, out) && out.final.None?
    ensures Delivered(plan, out.(complete := true))
  {
  }

  lemma DeliverNone(plan: Plan, out: Output)
    requires Delivered(plan, out) && out.final.None? && out.done < 2 && out.front == 0
    ensures Delivered(plan, out.(done := out.done + 1))
  {
  }

  lemma DeliverLater(plan: Plan, out: Output)
    requires Delivered(plan, out) && out.final.None? && 2 <= out.done < plan.n && out.front == 0
    requires plan.seals[out.done].Success?
    ensures Delivered(plan, out.(done := out.done + 1, yielded := out.yielded + [plan.seals[out.done].value]))
  {
    var seals, done := plan.seals, out.done;
    assert SealAt(seals, 0, 0) + SealAt(seals, 1, 0) == [];
    assert seals[2..done + 1] == seals[2..done] + [seals[done]];
    assert HandedOut(seals, done + 1, 0) == HandedOut(seals, done, 0) + [seals[done].value];
  }

  /** A deferred chunk taken up: handed out, or lost. */
  lemma DeliverFront(plan: Plan, out: Output)
    requires Delivered(plan, out) && out.final.None? && out.complete && out.done == plan.n && out.front < 2
    ensures var sealed := SealAt(plan.seals, out.front, out.front + 1);
            Delivered(plan, out.(front := out.front + 1, yielded := out.yielded + sealed))
  {
    var seals, front := plan.seals, out.front;
    assert HandedOut(seals, plan.n, front + 1) == HandedOut(seals, plan.n, front) + SealAt(seals, front, front + 1);
  }

  lemma DeliverShrunk(plan: Plan, out: Output, m: DataMap, shrinking: seq<Bytes>)
    requires Delivered(plan, out) && out.final.None? && out.complete && out.done == plan.n && out.front == 2
    requires Shrunk(plan, m, shrinking)
    ensures Delivered(plan, out.(final := Some(m), shrinking := shrinking, finished := shrinking == []))
  {
    assert shrinking[..0] == [];
  }

  lemma DeliverNext(plan: Plan, out: Output)
    requires Delivered(plan, out) && out.index < |out.shrinking|
    ensures var index := out.index + 1;
            Delivered(plan, out.(index := index, finished := index == |out.shrinking|,
                                 yielded := out.yielded + [out.shrinking[out.index]]))
  {
    PrefixSnoc(out.shrinking, out.index);
  }

  // The state a stream starts in.

  lemma InitialFeed(plan: Plan)
    requires Sound(plan)
    ensures Conserves(plan, Feed(plan.whole, false, [], 0, [], 0))
  {
    assert [] + plan.whole == plan.whole;
  }

  lemma InitialRecord(plan: Plan)
    requires Sound(plan)
    ensures Recorded(plan, Record(0, 0, seq(plan.n, _ => None), seq(plan.n, _ => None), [None, None], false))
  {
  }

  lemma InitialOutput(plan: Plan)
    requires Sound(plan)
    ensures Delivered(plan, Output(false, false, None, [], 0, 0, 0, []))
  {
    assert HandedOut(plan.seals, 0, 0) == [];
  }

  // Why a stream fails.

  /** The start of the last chunk. */
  ghost function LastStart(plan: Plan): nat
    requires plan.n >= 1 && |plan.bounds| == plan.n + 1
  {
    plan.bounds[plan.n - 1]
  }

  /** The input reaches into the last chunk. */
  ghost predicate ReachesLast(plan: Plan) {
    plan.n >= 1 && |plan.bounds| == plan.n + 1 && LastStart(plan) < |plan.whole|
  }

  /** A chunk that the input reaches cannot be sealed when it is read. Chunks 0 and 1 are sealed later. */
  ghost predicate StopsShort(plan: Plan) {
    exists i | 2 <= i < |plan.seals| && i < |plan.bounds| :: plan.bounds[i] < |plan.whole| && plan.seals[i].Failure?
  }

  /** A chunk about to be taken has been reached. */
  lemma NextIsReached(plan: Plan, feed: Feed, size: nat)
    requires Conserves(plan, feed) && TakesNext(plan, feed, size)
    ensures plan.bounds[feed.done] < |plan.whole| && Held(plan, feed)
  {
    assert Conserves(plan, feed);
  }

  lemma StopsAt(plan: Plan, index: nat)
    requires 2 <= index < |plan.seals| && index < |plan.bounds| && plan.bounds[index] < |plan.whole|
    requires plan.seals[index].Failure?
    ensures StopsShort(plan)
  {
  }

  lemma LastIsReached(plan: Plan, feed: Feed)
    requires Sound(plan) && Conserves(plan, feed) && feed.done == plan.n
    ensures ReachesLast(plan)
  {
    assert Conserves(plan, feed);
  }

  /** If some piece cannot be sealed, or the map cannot be shrunk, batch encryption fails. */
  lemma UnsealableMeans(plan: Plan)
    requires Sound(plan)
    ensures (exists i :: 0 <= i < |plan.seals| && plan.seals[i].Failure?) || plan.shrunk.Failure? ==> plan.batch.Failure?
  {
    if i :| 0 <= i < |plan.seals| && plan.seals[i].Failure? {
      assert !AllKept(plan.seals);
    }
  }

  // Sealing.

  /** A vector that knows the chunk's own hash and the two before it gives the chunk its key. */
  lemma NeighbouringHashes(cr: Suite, pieces: seq<Bytes>, hashes: seq<Name>, index: nat)
    requires 2 <= index < |pieces| == |hashes|
    requires forall i | index - 2 <= i <= index :: hashes[i] == cr.hash(pieces[i])
    ensures GetPadKeyAndNonce(cr, index, hashes, 0) == GetPadKeyAndNonce(cr, index, SrcHashes(cr, pieces), 0)
  {
    assert hashes[index - 2..index + 1] == SrcHashes(cr, pieces)[index - 2..index + 1];
    KeyScheduleStable(cr, index, hashes, SrcHashes(cr, pieces), 0);
  }

  /** With both deferred chunks taken up, the entries are those of the root map. */
  lemma EverythingRecorded(plan: Plan, rec: Record)
    requires Sound(plan) && Recorded(plan, rec) && rec.done == plan.n && rec.front == 2
    ensures |rec.infos| == |plan.root.infos| && forall i | 0 <= i < plan.n :: rec.infos[i] == Some(plan.root.infos[i])
  {
    forall i | 0 <= i < plan.n
      ensures rec.infos[i] == Some(plan.root.infos[i])
    {
      assert rec.infos[i] == Some(ExpectedInfo(plan, i, true));
      assert plan.root.infos[i] == EntryOf(plan.cr, i, plan.pieces[i], Kept(plan.seals[i]));
    }
  }

  lemma RootIsSorted(plan: Plan)
    requires Sound(plan)
    ensures SortByIndex(plan.root.infos) == plan.root.infos
    ensures SortByIndex(SortByIndex(plan.root.infos)) == plan.root.infos
    ensures plan.root == DataMap(plan.root.infos, None) && Ends(plan.max, |plan.root.infos|)
    ensures plan.shrunk == Shrink(plan.cr, plan.max, plan.root)
    ensures plan.shrunk.Success? ==> Shrunk(plan, plan.shrunk.value.0, plan.shrunk.value.1)
  {
    forall i, j | 0 <= i < j < |plan.root.infos|
      ensures plan.root.infos[i].index <= plan.root.infos[j].index
    {
      assert plan.root.infos[i] == EntryOf(plan.cr, i, plan.pieces[i], Kept(plan.seals[i]));
      assert plan.root.infos[j] == EntryOf(plan.cr, j, plan.pieces[j], Kept(plan.seals[j]));
    }
    SortIsIdentity(plan.root.infos);
  }

  class EncryptionStream {
    const cr: Suite
    const max: nat
    const dataSize: nat
    const totalChunks: nat
    var dataIter: seq<Bytes>
    var buffer: Bytes
    var chunksProcessed: nat
    var srcHashes: seq<Option<Name>>
    var deferredChunks: seq<Option<Bytes>>
    var chunkInfos: seq<Option<ChunkInfo>>
    var inputComplete: bool
    var isComplete: bool
    var finalDatamap: Option<DataMap>
    var shrinkingChunks: seq<Bytes>
    var shrinkingChunkIndex: nat

    ghost const plan: Plan
    ghost var fed: Bytes
    ghost var lastPiece: nat
    ghost var front: nat
    ghost var tried: bool
    ghost var yielded: seq<Bytes>

    ghost function FeedState(): Feed
      reads this`dataIter, this`inputComplete, this`fed, this`chunksProcessed, this`buffer, this`lastPiece
    {
      Feed(Concat(dataIter), inputComplete, fed, chunksProcessed, buffer, lastPiece)
    }

    ghost function RecordState(): Record
      reads this`chunksProcessed, this`front, this`srcHashes, this`chunkInfos, this`deferredChunks, this`tried
    {
      Record(chunksProcessed, front, srcHashes, chunkInfos, deferredChunks, tried)
    }

    ghost function OutputState(): Output
      reads this`inputComplete, this`isComplete, this`finalDatamap, this`shrinkingChunks, this`shrinkingChunkIndex
      reads this`chunksProcessed, this`front, this`yielded
    {
      Output(inputComplete, isComplete, finalDatamap, shrinkingChunks, shrinkingChunkIndex, chunksProcessed, front, yielded)
    }

    ghost predicate Planned() {
      Sound(plan) && plan.cr == cr && plan.max == max && plan.size == dataSize && plan.n == totalChunks
    }

    ghost predicate Valid()
      reads this
    {
      && Planned() && Conserves(plan, FeedState()) && Recorded(plan, RecordState()) && Delivered(plan, OutputState())
      && (tried ==> Held(plan, FeedState()))
    }

    /** Out of input before the last chunk: the chunk to be read next has no data. */
    ghost predicate Starved()
      reads this
    {
      finalDatamap.None? && inputComplete && chunksProcessed < plan.n < |plan.bounds| && |plan.whole| <= plan.bounds[chunksProcessed]
    }

    /** Nothing more will be handed out. */
    ghost predicate Finished()
      reads this
    {
      (finalDatamap.Some? && isComplete) || Starved()
    }

    /** Some chunk that was read cannot be sealed; or all were read and batch encryption fails. */
    ghost predicate Unsealable() {
      StopsShort(plan) || (ReachesLast(plan) && plan.batch.Failure?)
    }

    /** No chunk has failed to be sealed so far. */
    ghost predicate Intact()
      reads this`front, this`tried
    {
      !tried && forall i | 0 <= i < front && i < |plan.seals| :: plan.seals[i].Success?
    }

    /** All that is left to do fails, and always will. */
    ghost predicate Stuck()
      reads this
    {
      finalDatamap.None? && (tried || (inputComplete && chunksProcessed == plan.n && front == 2 && plan.shrunk.Failure?))
    }

    ghost function StuckError(): Error
      requires Valid() && Stuck()
      reads this
    {
      assert tried ==> plan.seals[chunksProcessed].Failure? by { assert Recorded(plan, RecordState()); }
      if tried then plan.seals[chunksProcessed].error else plan.shrunk.error
    }

    constructor (cr: Suite, max: nat, dataSize: nat, input: seq<Bytes>, ghost plan: Plan)
      requires Sound(plan) && plan.cr == cr && plan.max == max && plan.size == dataSize
      requires plan.whole == Concat(input)
      ensures Valid() && Intact() && this.plan == plan && yielded == [] && finalDatamap == None
    {
      this.cr, this.max, this.dataSize := cr, max, dataSize;
      totalChunks := NumChunks(dataSize, max);
      dataIter, buffer, chunksProcessed := input, [], 0;
      srcHashes := seq(NumChunks(dataSize, max), _ => None);
      chunkInfos := seq(NumChunks(dataSize, max), _ => None);
      deferredChunks := [None, None];
      inputComplete, isComplete, finalDatamap := false, false, None;
      shrinkingChunks, shrinkingChunkIndex := [], 0;
      this.plan := plan;
      fed, lastPiece, front, tried, yielded := [], 0, 0, false, [];
      new;
      InitialFeed(plan);
      InitialRecord(plan);
      assert srcHashes == seq(plan.n, _ => None) && chunkInfos == seq(plan.n, _ => None);
      InitialOutput(plan);
    }

    /** Bytes in the chunks processed so far. */
    method GetProcessedBytes() returns (processed: nat)
      requires Planned() && chunksProcessed <= totalChunks
      ensures processed == plan.bounds[chunksProcessed]
    {
      processed := 0;
      for i := 0 to chunksProcessed
        invariant processed == plan.bounds[i]
      {
        var (start, end) := StartEnd(dataSize, i, max);
        processed := processed + (end - start);
      }
    }

    /** The data of the next chunk, if the buffer has it: all of it while input may follow, else what is left.
        The place where it starts in the buffer is always 0. */
    method TakeChunk() returns (bufferStart: nat, chunk: Option<Bytes>)
      requires Planned() && Conserves(plan, FeedState()) && chunksProcessed < totalChunks
      ensures bufferStart == 0
      ensures chunk.Some? ==> chunk.value == plan.pieces[chunksProcessed] && TakesNext(plan, FeedState(), |chunk.value|)
      ensures chunk.None? ==> !Held(plan, FeedState()) && if inputComplete then |plan.whole| <= plan.bounds[chunksProcessed] else |buffer| <= max
    {
      hide SealsOf, RootOf, Outcomes, CutAt, Concat;
      var (chunkStart, chunkEnd) := StartEnd(dataSize, chunksProcessed, max);
      var chunkSize := chunkEnd - chunkStart;
      var processed := GetProcessedBytes();
      bufferStart := SaturatingSub(chunkStart, processed);
      PieceIsFront(plan, FeedState());
      if |buffer| >= bufferStart + chunkSize || inputComplete {
        var actualChunkSize := if inputComplete then Min(chunkSize, SaturatingSub(|buffer|, bufferStart)) else chunkSize;
        if actualChunkSize == 0 { return bufferStart, None; }
        if bufferStart + actualChunkSize > |buffer| { return bufferStart, None; }
        chunk := Some(buffer[bufferStart..bufferStart + actualChunkSize]);
      } else {
        chunk := None;
      }
    }

    /** Whether the source hashes needed for the chunk's key are known. */
    function CanEncryptChunk(index: nat): bool
      reads this
    {
      if index < 2 then forall i | 0 <= i < |srcHashes| :: srcHashes[i].Some?
      else
        var neighbours := Neighbours(index, totalChunks);
        if neighbours.Failure? then false
        else
          var (n1, n2) := neighbours.value;
          && index < |srcHashes| && srcHashes[index].Some?
          && n1 < |srcHashes| && srcHashes[n1].Some?
          && n2 < |srcHashes| && srcHashes[n2].Some?
    }

    /** Source hashes with a placeholder for each that is not known yet. */
    method FillHashes() returns (hashes: seq<Name>)
      requires |srcHashes| == totalChunks
      ensures |hashes| == totalChunks
      ensures forall i | 0 <= i < totalChunks && srcHashes[i].Some? :: hashes[i] == srcHashes[i].value
    {
      hashes := seq(totalChunks, _ => cr.hash([]));
      for i := 0 to |srcHashes|
        invariant |hashes| == totalChunks
        invariant forall k | 0 <= k < i && srcHashes[k].Some? :: hashes[k] == srcHashes[k].value
      {
        if srcHashes[i].Some? {
          hashes := hashes[i := srcHashes[i].value];
        }
      }
    }

    /** Seals chunk 2 or a later one with the hashes known so far: the seal is the one that all hashes give. */
    method EncryptStreamChunk(index: nat, chunkData: Bytes) returns (r: Result<Bytes>)
      requires Planned() && 2 <= index < totalChunks == |srcHashes| == |chunkInfos|
      requires chunkData == plan.pieces[index] && chunkInfos[index].Some?
      requires forall i | index - 2 <= i <= index :: srcHashes[i] == Some(cr.hash(plan.pieces[i]))
      modifies this`chunkInfos
      ensures r == plan.seals[index]
      ensures r.Success? ==>
                chunkInfos == old(chunkInfos)[index := Some(old(chunkInfos)[index].value.(dstHash := cr.hash(r.value)))]
      ensures r.Failure? ==> chunkInfos == old(chunkInfos)
    {
      var hashes := FillHashes();
      NeighbouringHashes(cr, plan.pieces, hashes, index);
      r := SealWith(cr, index, chunkData, hashes, 0);
      assert r == SealPiece(cr, plan.pieces, 0, index);
      if r.Success? {
        chunkInfos := chunkInfos[index := Some(chunkInfos[index].value.(dstHash := cr.hash(r.value)))];
      }
    }

    /** Moves past the chunk just taken and drains it from the buffer. */
    method Advance(bufferStart: nat, actualChunkSize: nat)
      requires Planned() && Conserves(plan, FeedState()) && TakesNext(plan, FeedState(), actualChunkSize)
      requires bufferStart == 0
      modifies this`chunksProcessed, this`buffer
      ensures chunksProcessed == old(chunksProcessed) + 1
      ensures Conserves(plan, FeedState())
    {
      hide Sound, Concat;
      FeedNext(plan, FeedState(), actualChunkSize);
      chunksProcessed := chunksProcessed + 1;
      if bufferStart + actualChunkSize <= |buffer| {
        buffer := buffer[..bufferStart] + buffer[bufferStart + actualChunkSize..];
      }
    }

    /** Records a chunk's hash and entry; defers chunks 0 and 1, seals the others at once. A chunk that cannot be sealed
        stays recorded. */
    method RecordChunk(chunkIndex: nat, chunkData: Bytes) returns (r: Result<Option<Bytes>>)
      requires Planned() && Recorded(plan, RecordState()) && front == 0
      requires chunkIndex == chunksProcessed < totalChunks && chunkData == plan.pieces[chunkIndex]
      requires chunkIndex >= 2 && plan.seals[chunkIndex].Failure? ==> StopsShort(plan)
      modifies this`srcHashes, this`chunkInfos, this`deferredChunks, this`tried
      ensures r.Failure? ==>
                chunkIndex >= 2 && plan.seals[chunkIndex] == Failure(r.error) && tried && Recorded(plan, RecordState())
      ensures r.Success? ==> !tried && Recorded(plan, Record(chunkIndex + 1, 0, srcHashes, chunkInfos, deferredChunks, false))
      ensures r.Success? ==>
                if chunkIndex < 2 then r.value == None
                else r.value.Some? && plan.seals[chunkIndex] == Success(r.value.value)
    {
      hide Sound, Recorded, Conserves, Concat, StopsShort;
      ghost var rec := RecordState();
      RecordedMeans(plan, rec);
      var srcHash := cr.hash(chunkData);
      srcHashes := srcHashes[chunkIndex := Some(srcHash)];
      chunkInfos := chunkInfos[chunkIndex := Some(ChunkInfo(chunkIndex, cr.hash([]), srcHash, |chunkData|))];
      if chunkIndex < 2 {
        RecordFirst(plan, rec);
        deferredChunks := deferredChunks[chunkIndex := Some(chunkData)];
        assert chunkInfos == rec.infos[chunkIndex := Some(ExpectedInfo(plan, chunkIndex, false))];
      } else if CanEncryptChunk(chunkIndex) {
        var encrypted := EncryptStreamChunk(chunkIndex, chunkData);
        if encrypted.Failure? {
          RecordTried(plan, rec);
          tried := true;
          assert chunkInfos == rec.infos[chunkIndex := Some(ExpectedInfo(plan, chunkIndex, false))];
          return Failure(encrypted.error);
        }
        RecordLater(plan, rec);
        assert chunkInfos == rec.infos[chunkIndex := Some(ExpectedInfo(plan, chunkIndex, true))];
        return Success(Some(encrypted.value));
      }
      r := Success(None);
    }

    /** Records a chunk and moves past it, handing it out if it was sealed. If it cannot be, it is next again. */
    method ProcessChunk(bufferStart: nat, chunkData: Bytes) returns (r: Result<Option<Bytes>>)
      requires Valid() && finalDatamap.None? && chunksProcessed < totalChunks && bufferStart == 0
      requires chunkData == plan.pieces[chunksProcessed] && TakesNext(plan, FeedState(), |chunkData|)
      modifies this`chunksProcessed, this`buffer, this`srcHashes, this`chunkInfos, this`deferredChunks, this`yielded, this`tried
      ensures Valid()
      ensures r.Failure? ==> Unsealable() && Stuck() && r.error == StuckError() && yielded == old(yielded)
      ensures r.Failure? ==> chunksProcessed == old(chunksProcessed)
      ensures old(tried) ==> r.Failure? && r.error == old(StuckError())
      ensures r.Success? ==>
                && !tried && chunksProcessed == old(chunksProcessed) + 1
                && yielded == old(yielded) + if r.value.Some? then [r.value.value] else []
    {
      hide Sound, Conserves, Concat, StopsShort;
      ghost var feed, out := FeedState(), OutputState();
      assert front == 0 && out.done < plan.n == |plan.seals|;
      NextIsReached(plan, feed, |chunkData|);
      if chunksProcessed >= 2 && plan.seals[chunksProcessed].Failure? { StopsAt(plan, chunksProcessed); }
      r := RecordChunk(chunksProcessed, chunkData);
      assert FeedState() == feed && OutputState() == out;
      if r.Failure? { return; }
      PassChunk(bufferStart, |chunkData|, r.value);
    }

    /** Moves past a recorded chunk; it counts as handed out if it was sealed. */
    method PassChunk(bufferStart: nat, actualChunkSize: nat, ghost chunk: Option<Bytes>)
      requires Planned() && Conserves(plan, FeedState()) && TakesNext(plan, FeedState(), actualChunkSize)
      requires bufferStart == 0
      requires Delivered(plan, OutputState()) && finalDatamap.None? && front == 0
      requires chunksProcessed < plan.n == |plan.seals|
      requires Recorded(plan, Record(chunksProcessed + 1, 0, srcHashes, chunkInfos, deferredChunks, false)) && !tried
      requires if chunksProcessed < 2 then chunk.None? else chunk.Some? && plan.seals[chunksProcessed] == Success(chunk.value)
      modifies this`chunksProcessed, this`buffer, this`yielded
      ensures Valid() && chunksProcessed == old(chunksProcessed) + 1
      ensures yielded == old(yielded) + if chunk.Some? then [chunk.value] else []
    {
      hide Sound, Conserves, Recorded, Concat;
      ghost var out := OutputState();
      Advance(bufferStart, actualChunkSize);
      assert OutputState() == out.(done := out.done + 1);
      HandOut(chunk, out);
    }

    /** Notes what was handed out for the chunk just passed. */
    ghost method HandOut(chunk: Option<Bytes>, out: Output)
      requires Planned() && Conserves(plan, FeedState()) && Recorded(plan, RecordState()) && !tried
      requires Delivered(plan, out) && out.final.None? && out.front == 0 && out.done < plan.n == |plan.seals|
      requires OutputState() == out.(done := out.done + 1)
      requires if out.done < 2 then chunk.None? else chunk.Some? && plan.seals[out.done] == Success(chunk.value)
      modifies this`yielded
      ensures Valid() && yielded == old(yielded) + if chunk.Some? then [chunk.value] else []
    {
      hide Sound, Conserves, Recorded, Concat;
      ghost var feed, rec := FeedState(), RecordState();
      if chunk.Some? {
        DeliverLater(plan, out);
        yielded := yielded + [chunk.value];
        assert FeedState() == feed && RecordState() == rec;
        assert OutputState() == out.(done := out.done + 1, yielded := out.yielded + [chunk.value]);
      } else {
        DeliverNone(plan, out);
      }
    }

    /** The reading loop: takes chunks from the buffer until one is sealed or the buffer runs out. */
    method ReadChunks() returns (r: Result<Option<Item>>)
      requires Valid() && finalDatamap.None?
      modifies this`chunksProcessed, this`buffer, this`srcHashes, this`chunkInfos, this`deferredChunks, this`yielded, this`tried
      ensures Valid()
      ensures r.Failure? ==> Unsealable() && Stuck() && r.error == StuckError() && yielded == old(yielded)
      ensures r.Success? ==> !tried && yielded == old(yielded) + ChunkIn(r.value)
      ensures r.Success? && r.value.Some? ==> r.value.value.Chunk?
      ensures r.Success? && r.value.None? && chunksProcessed < totalChunks ==> if inputComplete then Starved() else |buffer| <= max
      ensures old(Starved()) ==> r == Success(None) && Starved()
      ensures old(tried) ==> r.Failure? && r.error == old(StuckError())
      ensures old(chunksProcessed) >= totalChunks ==> r == Success(None) && chunksProcessed == old(chunksProcessed)
    {
      hide Recorded, Sound, Concat;
      while chunksProcessed < totalChunks
        invariant Valid() && yielded == old(yielded)
        invariant old(Starved()) ==> Starved()
        invariant tried == old(tried) && (tried ==> chunksProcessed == old(chunksProcessed))
        invariant old(chunksProcessed) >= totalChunks ==> chunksProcessed == old(chunksProcessed)
        decreases totalChunks - chunksProcessed
      {
        var bufferStart, chunk := TakeChunk();
        if chunk.None? { break; }
        PieceIsFront(plan, FeedState());
        var processed := ProcessChunk(bufferStart, chunk.value);
        if processed.Failure? { return Failure(processed.error); }
        if processed.value.Some? { return Success(Some(Chunk(processed.value.value))); }
      }
      r := Success(None);
    }

    /** Reads chunks; with all chunks read and all input seen, goes on to finalisation. */
    method TryProcessChunks() returns (r: Result<Option<Item>>)
      requires Valid() && finalDatamap.None?
      modifies this
      ensures Valid() && dataIter == old(dataIter) && inputComplete == old(inputComplete) && fed == old(fed)
      ensures r.Failure? ==> Unsealable() && yielded == old(yielded)
      ensures r.Failure? ==> GaveUp(old(front), r.error)
      ensures r.Success? ==> yielded == old(yielded) + ChunkIn(r.value) && (old(Intact()) ==> Intact())
      ensures r.Success? && r.value.None? ==>
                && finalDatamap.None? && front == old(front) && tried == old(tried)
                && if inputComplete then Starved() else chunksProcessed < totalChunks ==> |buffer| <= max
      ensures r.Success? && r.value.Some? && r.value.value.Map? ==> isComplete && finalDatamap == Some(r.value.value.dataMap)
      ensures old(Starved()) ==> r == Success(None)
      ensures old(Stuck()) ==> r == Failure(old(StuckError())) && Stuck() && StuckError() == old(StuckError())
    {
      hide Conserves, Recorded, Sound, Concat;
      r := ReadChunks();
      if r.Failure? || r.value.Some? { return; }
      if inputComplete && chunksProcessed >= totalChunks {
        r := FinalizeEncryption();
      }
    }

    /** A failure: either nothing but that failure can follow, or it was the next deferred chunk, which is lost. */
    ghost predicate GaveUp(before: nat, error: Error)
      reads this
    {
      Valid() && ((Stuck() && error == StuckError()) || (front == before + 1 && before < |plan.seals| && plan.seals[before] == Failure(error)))
    }

    /** Seals chunk 0, then chunk 1, then shrinks the map and hands out the first shrink chunk, or the map if
        there is none: one of these per call. */
    method FinalizeEncryption() returns (r: Result<Option<Item>>)
      requires Valid() && inputComplete && chunksProcessed == totalChunks && finalDatamap.None?
      modifies this
      ensures Valid() && dataIter == old(dataIter) && inputComplete && fed == old(fed)
      ensures r.Failure? ==> Unsealable() && yielded == old(yielded)
      ensures r.Failure? ==> GaveUp(old(front), r.error)
      ensures r.Success? ==> r.value.Some? && yielded == old(yielded) + ChunkIn(r.value) && (old(Intact()) ==> Intact())
      ensures r.Success? && r.value.value.Map? ==> isComplete && finalDatamap == Some(r.value.value.dataMap)
      ensures old(Stuck()) ==> r == Failure(old(StuckError())) && Stuck() && StuckError() == old(StuckError())
    {
      hide Sound, Conserves, Delivered, Concat;
      var hashes := CollectHashes();
      for chunkIndex := 0 to 2
        invariant chunkIndex <= front
        invariant unchanged(this)
      {
        if deferredChunks[chunkIndex].Some? {
          r := SealDeferred(chunkIndex, hashes);
          return;
        }
      }
      r := ShrinkAndFinish();
    }

    method CollectHashes() returns (hashes: seq<Name>)
      requires Planned() && Recorded(plan, RecordState()) && chunksProcessed == totalChunks
      ensures hashes == SrcHashes(cr, plan.pieces)
    {
      hashes := [];
      for i := 0 to |srcHashes|
        invariant hashes == SrcHashes(cr, plan.pieces)[..i]
      {
        if srcHashes[i].None? { assert false; }
        PrefixSnoc(SrcHashes(cr, plan.pieces), i);
        hashes := hashes + [srcHashes[i].value];
      }
    }

    method SealDeferredData(index: nat, chunkData: Bytes, hashes: seq<Name>) returns (r: Result<Bytes>)
      requires Planned() && index < totalChunks
      requires chunkData == plan.pieces[index] && hashes == SrcHashes(cr, plan.pieces)
      ensures r == plan.seals[index]
    {
      r := SealWith(cr, index, chunkData, hashes, 0);
      assert r == SealPiece(cr, plan.pieces, 0, index);
    }

    /** Takes up the next deferred chunk. If it cannot be sealed it is lost: its data is gone, and its entry keeps the
        hash of nothing. */
    method SealDeferred(chunkIndex: nat, hashes: seq<Name>) returns (r: Result<Option<Item>>)
      requires Valid() && inputComplete && chunksProcessed == totalChunks && finalDatamap.None?
      requires chunkIndex < 2 && chunkIndex <= front && deferredChunks[chunkIndex].Some?
      requires hashes == SrcHashes(cr, plan.pieces)
      modifies this`deferredChunks, this`chunkInfos, this`front, this`yielded
      ensures Valid() && old(front) == chunkIndex && front == old(front) + 1
      ensures r.Failure? ==> Unsealable() && plan.seals[chunkIndex] == Failure(r.error) && yielded == old(yielded)
      ensures r.Success? ==>
                && plan.seals[chunkIndex].Success? && r.value.Some? && r.value.value.Chunk?
                && yielded == old(yielded) + ChunkIn(r.value)
    {
      hide Sound, Conserves, Delivered, Concat;
      assert chunkIndex == front;
      var chunkData := deferredChunks[chunkIndex].value;
      ghost var feed, rec, out := FeedState(), RecordState(), OutputState();
      deferredChunks := deferredChunks[chunkIndex := None];
      var encrypted := SealDeferredData(chunkIndex, chunkData, hashes);
      RecordFront(plan, rec);
      if encrypted.Failure? {
        UnsealableMeans(plan);
        LastIsReached(plan, feed);
        assert chunkInfos == rec.infos[chunkIndex := Some(ExpectedInfo(plan, chunkIndex, true))];
        assert FeedState() == feed && OutputState() == out;
        CountFront(rec);
        return Failure(encrypted.error);
      }
      chunkInfos := chunkInfos[chunkIndex := Some(chunkInfos[chunkIndex].value.(dstHash := cr.hash(encrypted.value)))];
      assert chunkInfos == rec.infos[chunkIndex := Some(ExpectedInfo(plan, chunkIndex, true))];
      assert FeedState() == feed && OutputState() == out;
      CountFront(rec);
      r := Success(Some(Chunk(encrypted.value)));
    }

    /** One more of the deferred chunks is taken up, and handed out if it is sealed. */
    ghost method CountFront(rec: Record)
      requires Planned() && Conserves(plan, FeedState()) && Delivered(plan, OutputState()) && Recorded(plan, rec)
      requires inputComplete && finalDatamap.None? && chunksProcessed == rec.done == plan.n == |plan.seals|
      requires plan.n >= 3
      requires front == rec.front < 2 == |rec.deferred| && |rec.infos| == plan.n == |plan.pieces|
      requires tried == rec.tried == false
      requires srcHashes == rec.hashes && deferredChunks == rec.deferred[front := None]
      requires chunkInfos == rec.infos[front := Some(ExpectedInfo(plan, front, true))]
      modifies this`front, this`yielded
      ensures Valid() && front == old(front) + 1
      ensures yielded == old(yielded) + SealAt(plan.seals, old(front), old(front) + 1)
    {
      hide Sound, Conserves, Concat;
      ghost var feed, out := FeedState(), OutputState();
      RecordFront(plan, rec);
      DeliverFront(plan, out);
      yielded := yielded + SealAt(plan.seals, front, front + 1);
      front := front + 1;
      assert FeedState() == feed;
      assert OutputState() == out.(front := out.front + 1, yielded := yielded);
    }

    method CollectInfos() returns (infos: seq<ChunkInfo>)
      requires Planned() && Recorded(plan, RecordState()) && chunksProcessed == totalChunks && front == 2
      ensures infos == plan.root.infos
    {
      EverythingRecorded(plan, RecordState());
      infos := [];
      for i := 0 to |chunkInfos|
        invariant infos == plan.root.infos[..i]
      {
        if chunkInfos[i].None? { assert false; }
        PrefixSnoc(plan.root.infos, i);
        infos := infos + [chunkInfos[i].value];
      }
    }

    /** Shrinks the root map as it was recorded. */
    method ShrinkRoot(infos: seq<ChunkInfo>) returns (r: Result<(DataMap, seq<Bytes>)>)
      requires Planned() && infos == plan.root.infos
      ensures r == plan.shrunk
      ensures r.Success? ==> Shrunk(plan, r.value.0, r.value.1)
    {
      RootIsSorted(plan);
      var dataMap := NewMap(SortByIndex(infos));
      assert dataMap == plan.root;
      r := ShrinkAll(cr, max, dataMap);
    }

    method ShrinkAndFinish() returns (r: Result<Option<Item>>)
      requires Valid() && inputComplete && chunksProcessed == totalChunks && finalDatamap.None? && front == 2
      modifies this`isComplete, this`finalDatamap, this`shrinkingChunks, this`shrinkingChunkIndex, this`yielded
      ensures Valid()
      ensures r.Failure? ==> Unsealable() && Stuck() && r.error == StuckError() && yielded == old(yielded)
      ensures r.Success? ==> plan.shrunk.Success? && r.value.Some? && yielded == old(yielded) + ChunkIn(r.value)
      ensures r.Success? && r.value.value.Map? ==> isComplete && finalDatamap == Some(r.value.value.dataMap)
    {
      hide Sound, Conserves, Concat;
      var infos := CollectInfos();
      var shrunk := ShrinkRoot(infos);
      if shrunk.Failure? {
        LastIsReached(plan, FeedState());
        UnsealableMeans(plan);
        return Failure(shrunk.error);
      }
      KeepShrunk(shrunk.value.0, shrunk.value.1);
      if shrinkingChunks != [] && shrinkingChunkIndex < |shrinkingChunks| {
        var chunk := FirstShrinkChunk();
        return Success(Some(Chunk(chunk)));
      }
      Complete();
      r := Success(Some(Map(finalDatamap.value)));
    }

    method Complete()
      requires Planned() && Conserves(plan, FeedState()) && Recorded(plan, RecordState())
      requires Delivered(plan, OutputState().(finished := true)) && !tried
      modifies this`isComplete
      ensures Valid() && isComplete
    {
      hide Sound, Conserves, Recorded, Concat;
      ghost var out := OutputState();
      isComplete := true;
      assert OutputState() == out.(finished := true);
    }

    /** Sets the final map and its shrink chunks; all that is left to hand out is these. */
    method KeepShrunk(m: DataMap, shrinkChunks: seq<Bytes>)
      requires Valid() && inputComplete && chunksProcessed == totalChunks && finalDatamap.None? && front == 2
      requires Shrunk(plan, m, shrinkChunks)
      modifies this`finalDatamap, this`shrinkingChunks
      ensures Planned() && Conserves(plan, FeedState()) && Recorded(plan, RecordState())
      ensures Delivered(plan, OutputState().(finished := shrinkChunks == [])) && !tried
      ensures finalDatamap == Some(m) && shrinkingChunks == shrinkChunks && !isComplete && shrinkingChunkIndex == 0
    {
      hide Sound, Conserves, Concat;
      ghost var feed, rec, out := FeedState(), RecordState(), OutputState();
      DeliverShrunk(plan, out, m, shrinkChunks);
      shrinkingChunks := shrinkChunks;
      finalDatamap := Some(m);
      assert FeedState() == feed && RecordState() == rec;
      assert OutputState() == out.(final := Some(m), shrinking := shrinkChunks);
    }

    method FirstShrinkChunk() returns (chunk: Bytes)
      requires Planned() && Conserves(plan, FeedState()) && Recorded(plan, RecordState())
      requires Delivered(plan, OutputState()) && !isComplete && shrinkingChunkIndex < |shrinkingChunks|
      requires finalDatamap.Some? && shrinkingChunkIndex == 0 && !tried
      modifies this`shrinkingChunkIndex, this`yielded
      ensures Valid() && yielded == old(yielded) + [chunk]
    {
      hide Sound, Conserves, Recorded, Concat;
      ghost var feed, rec, out := FeedState(), RecordState(), OutputState();
      DeliverNext(plan, out);
      chunk := shrinkingChunks[shrinkingChunkIndex];
      shrinkingChunkIndex := shrinkingChunkIndex + 1;
      yielded := yielded + [chunk];
      assert FeedState() == feed && RecordState() == rec;
      assert |out.shrinking| >= 3;
      assert OutputState() == out.(index := 1, finished := 1 == |out.shrinking|, yielded := yielded);
    }

    /** Hands out the next shrink chunk. */
    method NextShrinkChunk() returns (chunk: Bytes)
      requires Valid() && shrinkingChunkIndex < |shrinkingChunks|
      modifies this`isComplete, this`shrinkingChunkIndex, this`yielded
      ensures Valid() && yielded == old(yielded) + [chunk]
    {
      hide Sound, Conserves, Recorded, Concat;
      DeliverNext(plan, OutputState());
      chunk := shrinkingChunks[shrinkingChunkIndex];
      shrinkingChunkIndex := shrinkingChunkIndex + 1;
      if shrinkingChunkIndex >= |shrinkingChunks| {
        isComplete := true;
      }
      yielded := yielded + [chunk];
    }

    /** Takes the next piece of input into the buffer, or notes that there is none. */
    method FeedNextPiece()
      requires Valid() && finalDatamap.None? && !inputComplete && !tried
      requires chunksProcessed < totalChunks ==> |buffer| <= max
      modifies this`dataIter, this`buffer, this`inputComplete, this`fed, this`lastPiece
      ensures Valid()
      ensures if old(dataIter) != [] then !inputComplete && dataIter == old(dataIter)[1..] else inputComplete && dataIter == []
    {
      hide Sound, Recorded, Delivered, Conserves;
      if dataIter != [] {
        BufferPiece();
      } else {
        EndInput();
      }
    }

    method BufferPiece()
      requires Valid() && finalDatamap.None? && !inputComplete && !tried && dataIter != []
      requires chunksProcessed < totalChunks ==> |buffer| <= max
      modifies this`dataIter, this`buffer, this`fed, this`lastPiece
      ensures Valid() && dataIter == old(dataIter)[1..]
    {
      ConcatHead(dataIter);
      FeedPiece(plan, FeedState(), dataIter[0], Concat(dataIter[1..]));
      AppendPiece();
    }

    method AppendPiece()
      requires dataIter != []
      modifies this`dataIter, this`buffer, this`fed, this`lastPiece
      ensures dataIter == old(dataIter)[1..]
      ensures FeedState() == Feed(Concat(old(dataIter)[1..]), inputComplete, old(fed) + old(dataIter)[0], chunksProcessed,
                                  old(buffer) + old(dataIter)[0], |old(dataIter)[0]|)
      ensures RecordState() == old(RecordState()) && OutputState() == old(OutputState())
    {
      var data := dataIter[0];
      dataIter := dataIter[1..];
      buffer := buffer + data;
      fed := fed + data;
      lastPiece := |data|;
    }

    method EndInput()
      requires Valid() && finalDatamap.None? && !inputComplete && !tried && dataIter == []
      modifies this`inputComplete
      ensures Valid() && inputComplete
    {
      ghost var feed, rec, out := FeedState(), RecordState(), OutputState();
      FeedEnds(plan, feed);
      DeliverEnd(plan, out);
      inputComplete := true;
      assert FeedState() == feed.(complete := true) && RecordState() == rec;
      assert OutputState() == out.(complete := true);
    }

    /** The next chunk or the final map; None when the input ended before the last chunk. After a failure the stream goes
        on: with the same failure again, or past a deferred chunk that is lost. */
    method NextInternal() returns (r: Option<Result<Item>>)
      requires Valid()
      modifies this
      ensures Valid()
      ensures r.Some? && r.value.Failure? ==> Unsealable() && yielded == old(yielded) && GaveUp(old(front), r.value.error)
      ensures r.None? ==> Starved() && yielded == old(yielded)
      ensures r.Some? && r.value.Success? ==> yielded == old(yielded) + ChunkIn(Some(r.value.value))
      ensures r.None? || r.value.Success? ==> old(Intact()) ==> Intact()
      ensures r.Some? && r.value.Success? && r.value.value.Map? ==> isComplete && finalDatamap == Some(r.value.value.dataMap)
      ensures old(Finished()) ==> finalDatamap == old(finalDatamap) && (r.None? || (r.value.Success? && r.value.value.Map?))
      ensures old(Stuck()) ==> r == Some(Failure(old(StuckError()))) && Stuck() && StuckError() == old(StuckError())
    {
      hide Sound, Conserves, Recorded, Concat;
      while true
        invariant Valid() && yielded == old(yielded) && front == old(front) && tried == old(tried)
        invariant old(Finished()) ==> Finished() && finalDatamap == old(finalDatamap)
        invariant old(Stuck()) ==> Stuck() && StuckError() == old(StuckError())
        decreases |dataIter|, if inputComplete then 0 else 1
      {
        var ended;
        ended, r := Round();
        if ended { return; }
      }
    }

    /** One round of NextInternal's loop: a shrink chunk, the final map, a chunk from the buffer or from one more
        piece of input; or nothing yet. */
    method Round() returns (ended: bool, r: Option<Result<Item>>)
      requires Valid()
      modifies this
      ensures Valid()
      ensures !ended ==>
                && yielded == old(yielded) && front == old(front) && tried == old(tried) && !old(Finished())
                && !old(Stuck()) && !inputComplete && |dataIter| < |old(dataIter)|
      ensures ended && r.Some? && r.value.Failure? ==>
                Unsealable() && yielded == old(yielded) && GaveUp(old(front), r.value.error)
      ensures ended && r.None? ==> Starved() && yielded == old(yielded)
      ensures ended && r.Some? && r.value.Success? ==> yielded == old(yielded) + ChunkIn(Some(r.value.value))
      ensures ended && (r.None? || r.value.Success?) ==> old(Intact()) ==> Intact()
      ensures ended && r.Some? && r.value.Success? && r.value.value.Map? ==>
                isComplete && finalDatamap == Some(r.value.value.dataMap)
      ensures old(Finished()) ==> finalDatamap == old(finalDatamap) && (r.None? || (r.value.Success? && r.value.value.Map?))
      ensures old(Stuck()) ==> r == Some(Failure(old(StuckError()))) && Stuck() && StuckError() == old(StuckError())
    {
      hide Sound, Conserves, Recorded, Concat;
      if shrinkingChunks != [] && shrinkingChunkIndex < |shrinkingChunks| {
        var chunk := NextShrinkChunk();
        return true, Some(Success(Chunk(chunk)));
      }
      if isComplete {
        if finalDatamap.Some? { return true, Some(Success(Map(finalDatamap.value))); }
        assert false;
      }
      ended, r := AttemptAndFeed();
    }

    /** Processes what is buffered, and if that yields nothing, one more piece of input. */
    method AttemptAndFeed() returns (ended: bool, r: Option<Result<Item>>)
      requires Valid() && finalDatamap.None?
      modifies this
      ensures Valid()
      ensures !ended ==>
                && yielded == old(yielded) && front == old(front) && tried == old(tried) && !old(Starved())
                && !inputComplete && |dataIter| < |old(dataIter)|
      ensures ended && r.Some? && r.value.Failure? ==>
                Unsealable() && yielded == old(yielded) && GaveUp(old(front), r.value.error)
      ensures ended && r.None? ==> Starved() && yielded == old(yielded)
      ensures ended && r.Some? && r.value.Success? ==> yielded == old(yielded) + ChunkIn(Some(r.value.value))
      ensures ended && (r.None? || r.value.Success?) ==> old(Intact()) ==> Intact()
      ensures ended && r.Some? && r.value.Success? && r.value.value.Map? ==>
                isComplete && finalDatamap == Some(r.value.value.dataMap)
      ensures old(Starved()) ==> ended && r.None? && finalDatamap.None?
      ensures old(Stuck()) ==> ended && r == Some(Failure(old(StuckError()))) && Stuck() && StuckError() == old(StuckError())
    {
      hide Conserves, Recorded, Sound, Concat;
      r := Attempt();
      if r.Some? || inputComplete { return true, r; }
      FeedNextPiece();
      r := Attempt();
      ended := r.Some? || inputComplete;
    }

    /** Processes what is buffered; None if that yields nothing yet. */
    method Attempt() returns (r: Option<Result<Item>>)
      requires Valid() && finalDatamap.None?
      modifies this
      ensures Valid() && dataIter == old(dataIter) && inputComplete == old(inputComplete) && fed == old(fed)
      ensures r.Some? && r.value.Failure? ==> Unsealable() && yielded == old(yielded) && GaveUp(old(front), r.value.error)
      ensures r.None? ==>
                && yielded == old(yielded) && finalDatamap.None? && front == old(front) && !tried && !old(tried)
                && if inputComplete then Starved() else chunksProcessed < totalChunks ==> |buffer| <= max
      ensures r.Some? && r.value.Success? ==>
                yielded == old(yielded) + ChunkIn(Some(r.value.value)) && (old(Intact()) ==> Intact())
      ensures r.Some? && r.value.Success? && r.value.value.Map? ==> isComplete && finalDatamap == Some(r.value.value.dataMap)
      ensures old(Starved()) ==> r.None?
      ensures old(Stuck()) ==> r == Some(Failure(old(StuckError()))) && Stuck() && StuckError() == old(StuckError())
    {
      hide Recorded, Sound, Concat, Conserves, Delivered;
      var ready := TryProcessChunks();
      if ready.Failure? { return Some(Failure(ready.error)); }
      r := if ready.value.Some? then Some(Success(ready.value.value)) else None;
    }

    /** The iterator over chunks: each with its name, then None, for ever. A failure either repeats for ever, or it was the
        next deferred chunk, which is lost. */
    method Next() returns (r: Option<Result<(Name, Bytes)>>)
      requires Valid()
      modifies this
      ensures Valid()
      ensures r.Some? && r.value.Failure? ==> Unsealable() && yielded == old(yielded) && GaveUp(old(front), r.value.error)
      ensures r.Some? && r.value.Success? ==>
                r.value.value.0 == cr.hash(r.value.value.1) && yielded == old(yielded) + [r.value.value.1]
      ensures r.None? ==> Finished() && yielded == old(yielded)
      ensures r.None? || r.value.Success? ==> old(Intact()) ==> Intact()
      ensures old(Finished()) ==> r.None? && finalDatamap == old(finalDatamap)
      ensures old(Stuck()) ==> r == Some(Failure(old(StuckError()))) && Stuck() && StuckError() == old(StuckError())
    {
      hide Conserves, Recorded, Sound, Concat, Delivered;
      var item := NextInternal();
      if item.None? { return None; }
      if item.value.Failure? { return Some(Failure(item.value.error)); }
      match item.value.value
      case Chunk(content) =>
        r := Some(Success((cr.hash(content), content)));
      case Map(m) =>
        finalDatamap := Some(m);
        r := None;
    }
  }

  /** Batch chunks in the order in which a stream hands them out: chunks 2 and up, chunks 0 and 1, shrink chunks. */
  function StreamOrder(chunks: seq<Bytes>, n: nat): seq<Bytes>
    requires 2 <= n <= |chunks|
  {
    chunks[2..n] + chunks[..2] + chunks[n..]
  }

  /** Each batch chunk is there exactly once. */
  lemma StreamOrderIsPermutation(chunks: seq<Bytes>, n: nat)
    requires 2 <= n <= |chunks|
    ensures multiset(StreamOrder(chunks, n)) == multiset(chunks)
  {
    assert chunks == chunks[..2] + chunks[2..n] + chunks[n..];
  }

  lemma HandedOutIsStreamOrder(seals: seq<Result<Bytes>>, extra: seq<Bytes>)
    requires |seals| >= 3 && seals[0].Success? && seals[1].Success?
    ensures HandedOut(seals, |seals|, 2) + extra == StreamOrder(Values(seals) + extra, |seals|)
  {
    var n, chunks := |seals|, Values(seals) + extra;
    assert Values(seals[2..n]) == chunks[2..n];
    assert SealAt(seals, 0, 2) + SealAt(seals, 1, 2) == chunks[..2];
    assert extra == chunks[n..];
  }

  /** The input ends before the last chunk and inside or at the end of chunk `done` - 1, and all chunks before it
      that are not deferred were sealed. */
  ghost predicate EndsInside(plan: Plan, done: nat) {
    && done < plan.n == |plan.seals| && |plan.bounds| == plan.n + 1
    && |plan.whole| <= plan.bounds[done] && (done > 0 ==> plan.bounds[done - 1] < |plan.whole|)
    && forall i | 2 <= i < done :: plan.seals[i].Success?
  }

  /** A finished stream has a final map exactly when the input reached into the last chunk, errors on the way or not. The
      map is that of shrinking the root map as it was recorded. If no deferred chunk was lost, map and chunks are those of
      batch encryption; otherwise there is a map although batch encryption fails. */
  lemma FinishedMeans(plan: Plan, feed: Feed, rec: Record, out: Output)
    requires Sound(plan) && Conserves(plan, feed) && Recorded(plan, rec) && Delivered(plan, out)
    requires rec.done == out.done && rec.front == out.front && feed.done == out.done && feed.complete == out.complete
    requires if out.final.Some? then out.finished else out.complete && out.done < plan.n && |plan.whole| <= plan.bounds[out.done]
    ensures out.final.Some? <==> LastStart(plan) < |plan.whole|
    ensures out.final.Some? ==> Shrunk(plan, out.final.value, out.shrinking)
    ensures out.final.Some? && plan.seals[0].Success? && plan.seals[1].Success? ==>
              && plan.batch.Success? && plan.batch.value.0 == out.final.value
              && plan.n <= |plan.batch.value.1|
              && out.yielded == StreamOrder(plan.batch.value.1, plan.n)
    ensures out.final.Some? && !(plan.seals[0].Success? && plan.seals[1].Success?) ==> plan.batch.Failure?
    ensures out.final.None? ==>
              EndsInside(plan, out.done) && out.yielded == HandedOut(plan.seals, out.done, 0) && !StopsShort(plan)
  {
    hide Concat, CutAt, SealsOf, RootOf, Shrink;
    assert feed.fed == plan.whole;
    if out.final.Some? {
      assert out.shrinking[..out.index] == out.shrinking;
      if plan.seals[0].Success? && plan.seals[1].Success? {
        assert AllKept(plan.seals);
        HandedOutIsStreamOrder(plan.seals, out.shrinking);
      } else {
        assert !AllKept(plan.seals);
      }
    }
  }

  /** No more chunks than this are ever handed out. */
  ghost function MostChunks(plan: Plan): nat {
    plan.n + 2 + if plan.shrunk.Success? then |plan.shrunk.value.1| else 0
  }

  lemma YieldedIsBounded(plan: Plan, out: Output)
    requires Delivered(plan, out)
    ensures |out.yielded| <= MostChunks(plan)
  {
    assert Delivered(plan, out);
  }

  function Contents(items: seq<(Name, Bytes)>): (r: seq<Bytes>)
    ensures |r| == |items|
    ensures forall i | 0 <= i < |r| :: r[i] == items[i].1
  {
    seq(|items|, i requires 0 <= i < |items| => items[i].1)
  }

  lemma ContentsSnoc(items: seq<(Name, Bytes)>, item: (Name, Bytes))
    ensures Contents(items + [item]) == Contents(items) + [item.1]
  {
  }

  ghost predicate Named(cr: Suite, items: seq<(Name, Bytes)>) {
    forall i | 0 <= i < |items| :: items[i].0 == cr.hash(items[i].1)
  }

  /** Nothing fails but sealing. */
  lemma ErrorsAreSealing(plan: Plan)
    requires Sound(plan)
    ensures forall i | 0 <= i < |plan.seals| && plan.seals[i].Failure? :: plan.seals[i] == Failure(Sealing)
    ensures plan.shrunk.Failure? ==> plan.shrunk == Failure(Sealing)
    ensures plan.batch.Failure? ==> !SealsAll(plan.cr)
  {
    forall i | 0 <= i < |plan.seals| && plan.seals[i].Failure?
      ensures plan.seals[i] == Failure(Sealing)
    {
      SealsUnless(plan.cr, plan.pieces, 0, i);
      assert SealPiece(plan.cr, plan.pieces, 0, i) == plan.seals[i];
    }
    ShrinkFailsToSeal(plan.cr, plan.max, plan.root);
    if SealsAll(plan.cr) {
      assert AllSealed(plan.cr, plan.pieces, 0);
      forall i | 0 <= i < |plan.seals|
        ensures plan.seals[i].Success?
      {
        assert SealPiece(plan.cr, plan.pieces, 0, i) == plan.seals[i];
      }
    }
  }

  lemma GaveUpIsSealing(stream: EncryptionStream, before: nat, error: Error)
    requires stream.GaveUp(before, error)
    ensures error == Sealing
  {
    hide Conserves, Delivered, Concat, LaidOut, CutAt, SealsOf, RootOf, Outcomes;
    ErrorsAreSealing(stream.plan);
  }

  /** Iterates over the chunks until there are no more, or to the first error. */
  method Drain(stream: EncryptionStream) returns (r: Result<seq<(Name, Bytes)>>)
    requires stream.Valid() && stream.Intact() && stream.yielded == []
    modifies stream
    ensures r.Failure? ==> stream.Unsealable() && r.error == Sealing
    ensures r.Success? ==>
              stream.Valid() && stream.Intact() && stream.Finished() && Contents(r.value) == stream.yielded && Named(stream.cr, r.value)
  {
    hide Sound, Conserves, Recorded, Delivered, Concat;
    var items: seq<(Name, Bytes)> := [];
    while true
      invariant stream.Valid() && stream.Intact() && Contents(items) == stream.yielded && Named(stream.cr, items)
      decreases MostChunks(stream.plan) - |stream.yielded|
    {
      ghost var front := stream.front;
      var next := stream.Next();
      if next.None? { return Success(items); }
      if next.value.Failure? {
        GaveUpIsSealing(stream, front, next.value.error);
        return Failure(next.value.error);
      }
      YieldedIsBounded(stream.plan, stream.OutputState());
      ContentsSnoc(items, next.value.value);
      items := items + [next.value.value];
    }
  }

  /** A stream over the pieces of input, refused for a declared size below three bytes. */
  method StreamEncrypt(cr: Suite, max: nat, dataSize: nat, input: seq<Bytes>) returns (r: Result<EncryptionStream>)
    requires max >= 1 && Ends(max, NumChunks(dataSize, max))
    ensures dataSize < 3 ==> r == Failure(TooSmall)
    ensures dataSize >= 3 ==>
              && r.Success? && fresh(r.value) && r.value.Valid() && r.value.Intact() && r.value.yielded == []
              && r.value.cr == cr && r.value.plan == MakePlan(cr, max, dataSize, Concat(input))
  {
    if dataSize < MIN_ENCRYPTABLE_BYTES { return Failure(TooSmall); }
    PlanIsSound(cr, max, dataSize, Concat(input));
    var stream := new EncryptionStream(cr, max, dataSize, input, MakePlan(cr, max, dataSize, Concat(input)));
    r := Success(stream);
  }

  /** The outcome of streaming in terms of batch encryption: a map exactly when the input reaches into the last
      chunk, and then the batch map with the batch chunks in stream order; otherwise the seals of chunks 2 and up,
      as far as the input reaches, unless one of those cannot be sealed. */
  ghost predicate StreamsAsBatch(plan: Plan, outcome: Result<(Option<DataMap>, seq<Bytes>)>) {
    && plan.n >= 1 && |plan.bounds| == plan.n + 1
    && if LastStart(plan) < |plan.whole| then
         if plan.batch.Failure? then outcome.Failure?
         else
           && 2 <= plan.n <= |plan.batch.value.1|
           && outcome == Success((Some(plan.batch.value.0), StreamOrder(plan.batch.value.1, plan.n)))
       else
         && (outcome.Failure? <==> StopsShort(plan))
         && (outcome.Success? ==>
               && outcome.value.0.None?
               && exists done :: EndsInside(plan, done) && outcome.value.1 == HandedOut(plan.seals, done, 0))
  }

  /** What a user of the stream does: encrypt everything, then ask for the map. However the input is cut into
      pieces, the outcome is that of batch encryption. */
  method EncryptStreaming(cr: Suite, max: nat, dataSize: nat, input: seq<Bytes>)
    returns (r: Result<(Option<DataMap>, seq<(Name, Bytes)>)>)
    requires max >= 1 && Ends(max, NumChunks(dataSize, max))
    ensures r == Failure(TooSmall) <==> dataSize < 3
    ensures r.Failure? && dataSize >= 3 ==> r.error == Sealing && !SealsAll(cr)
    ensures r.Success? && |Concat(input)| >= dataSize ==> r.value.0.Some?
    ensures dataSize >= 3 ==>
              StreamsAsBatch(MakePlan(cr, max, dataSize, Concat(input)),
                             if r.Failure? then Failure(r.error) else Success((r.value.0, Contents(r.value.1))))
    ensures r.Success? ==> Named(cr, r.value.1)
  {
    hide Sound, Concat, Bounds, Cut, MakePlan, StreamsAsBatch;
    var stream := StreamEncrypt(cr, max, dataSize, input);
    if stream.Failure? { return Failure(stream.error); }
    var items := Drain(stream.value);
    if items.Failure? {
      UnsealableMeans(stream.value.plan);
      ErrorsAreSealing(stream.value.plan);
      FailureMeans(stream.value.plan, items.error);
      return Failure(items.error);
    }
    OutcomeOf(stream.value);
    EnoughInput(cr, max, dataSize, Concat(input), Success((stream.value.finalDatamap, stream.value.yielded)));
    r := Success((stream.value.finalDatamap, items.value));
  }

  lemma OutcomeOf(stream: EncryptionStream)
    requires stream.Valid() && stream.Intact() && stream.Finished()
    ensures StreamsAsBatch(stream.plan, Success((stream.finalDatamap, stream.yielded)))
  {
    hide LaidOut, CutAt, SealsOf, RootOf, Outcomes, Concat;
    var plan, feed, rec, out := stream.plan, stream.FeedState(), stream.RecordState(), stream.OutputState();
    assert Sound(plan) && Conserves(plan, feed) && Recorded(plan, rec) && Delivered(plan, out);
    FinishedMeans(plan, feed, rec, out);
  }

  lemma EnoughInput(cr: Suite, max: nat, size: nat, whole: Bytes, outcome: Result<(Option<DataMap>, seq<Bytes>)>)
    requires max >= 1 && Ends(max, NumChunks(size, max)) && size >= 3
    requires outcome.Success? && StreamsAsBatch(MakePlan(cr, max, size, whole), outcome)
    ensures |whole| >= size ==> outcome.value.0.Some?
  {
    hide Cut, Shrink, EncryptPieces, StreamOrder, HandedOut, StopsShort;
    NumChunksAtLeast3(size, max);
    var plan := MakePlan(cr, max, size, whole);
    Tiling(size, NumChunks(size, max) - 1, max);
    assert LastStart(plan) < size;
  }

  lemma FailureMeans(plan: Plan, error: Error)
    requires Sound(plan) && (StopsShort(plan) || (ReachesLast(plan) && plan.batch.Failure?))
    requires StopsShort(plan) ==> plan.batch.Failure?
    ensures StreamsAsBatch(plan, Failure(error))
  {
  }

  lemma ConcatHead(parts: seq<Bytes>)
    requires parts != []
    ensures Concat(parts) == parts[0] + Concat(parts[1..])
  {
    assert parts == [parts[0]] + parts[1..];
    ConcatAppend([parts[0]], parts[1..]);
    assert Concat([parts[0]]) == Concat([]) + parts[0];
  }
}
