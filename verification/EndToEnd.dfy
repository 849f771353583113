/** The four pieces of code together: what batch or streaming encryption produces, batch, streaming and
    random-access decryption all read back. */
module EndToEnd {
  import opened Prelude
  import opened Layout
  import opened Crypto
  import opened Codec
  import opened Encrypt
  import opened Decrypt
  import opened RoundTrip
  import opened Parallel
  import opened Agreement
  import opened Ranges
  import opened StreamDecrypt
  import opened StreamEncrypt
  import opened RangeDecrypt

  /** A getter that has the seals of the pieces. */
  ghost predicate HasSeals(cr: Suite, get: Getter, pieces: seq<Bytes>) {
    AllSealed(cr, pieces, 0) && forall i | 0 <= i < |pieces| ::
      get(cr.hash(Sealed(cr, pieces, 0)[i])) == Success(Sealed(cr, pieces, 0)[i])
  }

  lemma TableHasSeals(cr: Suite, pieces: seq<Bytes>, chunks: seq<Bytes>)
    requires AllSealed(cr, pieces, 0) && NoCollision(cr.hash, chunks) && Within(Sealed(cr, pieces, 0), chunks)
    ensures HasSeals(cr, Lookup(Table(cr.hash, chunks)), pieces)
  {
    var seals := Sealed(cr, pieces, 0);
    forall i | 0 <= i < |pieces|
      ensures Lookup(Table(cr.hash, chunks))(cr.hash(seals[i])) == Success(seals[i])
    {
      assert seals[i] in seals;
      TableFinds(cr.hash, chunks, seals[i]);
    }
  }

  /** The pieces' root map is readable as the pieces. */
  lemma RootMapReads(cr: Suite, get: Getter, pieces: seq<Bytes>)
    requires Lawful(cr) && |pieces| >= 3 && HasSeals(cr, get, pieces)
    ensures var m := MapOf(cr, pieces, 0);
            Readable(OpensWith(cr, ExtractHashes(m), m.Level()), m.infos, get, pieces)
  {
    var m := MapOf(cr, pieces, 0);
    assert ExtractHashes(m) == SrcHashes(cr, pieces);
    forall i | 0 <= i < |pieces|
      ensures m.infos[i].index == i && m.infos[i].srcSize == |pieces[i]|
      ensures get(m.infos[i].dstHash) == Success(Sealed(cr, pieces, 0)[i])
      ensures OpensWith(cr, SrcHashes(cr, pieces), 0)(i, Sealed(cr, pieces, 0)[i]) == Success(pieces[i])
    {
      PieceOpens(cr, pieces, i);
    }
  }

  lemma PieceOpens(cr: Suite, pieces: seq<Bytes>, i: nat)
    requires Lawful(cr) && AllSealed(cr, pieces, 0) && i < |pieces|
    ensures OpensWith(cr, SrcHashes(cr, pieces), 0)(i, Sealed(cr, pieces, 0)[i]) == Success(pieces[i])
  {
    assert SealPiece(cr, pieces, 0, i).Success?;
    OpenInvertsSeal(cr, i, pieces[i], SrcHashes(cr, pieces), 0);
  }

  /** The root map of a standard cut has the standard layout. */
  lemma {:induction false} RootMapOffsets(cr: Suite, bytes: Bytes, max: nat, k: nat)
    requires max >= 1 && |bytes| >= 3 && k <= NumChunks(|bytes|, max)
    requires AllSealed(cr, Cut(bytes, |bytes|, max), 0)
    ensures Offset(MapOf(cr, Cut(bytes, |bytes|, max), 0).infos, k) == Bound(|bytes|, k, max)
  {
    NumChunksAtLeast3(|bytes|, max);
    if k == 0 {
      Tiling(|bytes|, 0, max);
    } else {
      RootMapOffsets(cr, bytes, max, k - 1);
      Tiling(|bytes|, k - 1, max);
      assert Cut(bytes, |bytes|, max)[k - 1] == PieceAt(bytes, |bytes|, max, k - 1);
    }
  }

  lemma RootMapIsStandard(cr: Suite, bytes: Bytes, max: nat)
    requires max >= 1 && |bytes| >= 3 && AllSealed(cr, Cut(bytes, |bytes|, max), 0)
    ensures StandardLayout(MapOf(cr, Cut(bytes, |bytes|, max), 0).infos, max)
    ensures MapOf(cr, Cut(bytes, |bytes|, max), 0).OriginalFileSize() == |bytes|
  {
    NumChunksAtLeast3(|bytes|, max);
    var n := NumChunks(|bytes|, max);
    forall i | 0 <= i <= n
      ensures Offset(MapOf(cr, Cut(bytes, |bytes|, max), 0).infos, i) == Bound(|bytes|, i, max)
    {
      RootMapOffsets(cr, bytes, max, i);
    }
  }

  /** What random access and iteration read from a root map, batch decryption returns too. */
  lemma ReadableDecrypts(cr: Suite, m: DataMap, chunks: seq<Bytes>, plain: seq<Bytes>)
    requires !m.IsChild()
    requires Readable(OpensWith(cr, ExtractHashes(m), m.Level()), m.infos, Lookup(Table(cr.hash, chunks)), plain)
    ensures Decrypted(cr, m, chunks) == Success(Concat(plain))
  {
    var get := Lookup(Table(cr.hash, chunks));
    var found := FoundChunks(get, m.infos);
    GatherFinds(get, m.infos, found);
    FoundAgain(cr, m.infos, chunks, found);
    FoundOpen(cr, m, get, plain, found);
    DecryptedRoot(cr, m, chunks, found);
  }

  ghost function FoundChunks(get: Getter, infos: seq<ChunkInfo>): (r: seq<Bytes>)
    requires forall i | 0 <= i < |infos| :: get(infos[i].dstHash).Success?
    ensures |r| == |infos| && forall i | 0 <= i < |r| :: get(infos[i].dstHash) == Success(r[i])
  {
    seq(|infos|, i requires 0 <= i < |infos| => get(infos[i].dstHash).value)
  }

  /** What decryption does with a root map: it opens the map's chunks. */
  lemma DecryptedRoot(cr: Suite, m: DataMap, chunks: seq<Bytes>, found: seq<Bytes>)
    requires !m.IsChild()
    requires Gather(Lookup(Table(cr.hash, chunks)), m.infos) == Success(found)
    requires Gather(Lookup(Table(cr.hash, found)), m.infos) == Success(found)
    ensures Decrypted(cr, m, chunks) == OpenSorted(cr, ExtractHashes(m), found, m.Level())
  {
  }

  lemma FoundOpen(cr: Suite, m: DataMap, get: Getter, plain: seq<Bytes>, found: seq<Bytes>)
    requires Readable(OpensWith(cr, ExtractHashes(m), m.Level()), m.infos, get, plain)
    requires |found| == |m.infos| && forall i | 0 <= i < |found| :: get(m.infos[i].dstHash) == Success(found[i])
    ensures OpenSorted(cr, ExtractHashes(m), found, m.Level()) == Success(Concat(plain))
  {
    hide DecryptChunk, Concat;
    OpenAllReads(cr, ExtractHashes(m), m.Level(), found, plain, |found|);
    assert found[..|found|] == found && plain[..|found|] == plain;
  }

  /** Chunks found by hash are found among themselves. */
  lemma FoundAgain(cr: Suite, infos: seq<ChunkInfo>, chunks: seq<Bytes>, found: seq<Bytes>)
    requires |found| == |infos|
    requires forall i | 0 <= i < |infos| :: Lookup(Table(cr.hash, chunks))(infos[i].dstHash) == Success(found[i])
    ensures Gather(Lookup(Table(cr.hash, found)), infos) == Success(found)
  {
    TableEntries(cr.hash, chunks);
    forall x, y | x in found && y in found && cr.hash(x) == cr.hash(y)
      ensures x == y
    {
      var i :| 0 <= i < |found| && found[i] == x;
      var j :| 0 <= j < |found| && found[j] == y;
      assert cr.hash(found[i]) == infos[i].dstHash && cr.hash(found[j]) == infos[j].dstHash;
    }
    forall i | 0 <= i < |infos|
      ensures Lookup(Table(cr.hash, found))(infos[i].dstHash) == Success(found[i])
    {
      assert cr.hash(found[i]) == infos[i].dstHash;
      TableFinds(cr.hash, found, found[i]);
    }
    GatherFinds(Lookup(Table(cr.hash, found)), infos, found);
  }

  lemma {:induction false} OpenAllReads(cr: Suite, hashes: seq<Name>, level: nat, chunks: seq<Bytes>,
        plain: seq<Bytes>, k: nat)
    requires |chunks| == |plain| && k <= |chunks|
    requires forall i | 0 <= i < |chunks| :: OpensWith(cr, hashes, level)(i, chunks[i]) == Success(plain[i])
    ensures OpenAll(cr, hashes, chunks[..k], level) == Success(plain[..k])
  {
    if k > 0 {
      OpenAllReads(cr, hashes, level, chunks, plain, k - 1);
      OpenAllSnoc(cr, hashes, chunks, level, k - 1);
      assert DecryptChunk(cr, k - 1, chunks[k - 1], hashes, level) == OpensWith(cr, hashes, level)(k - 1, chunks[k - 1]);
      PrefixSnoc(plain, k - 1);
    }
  }

  /** The parallel form finds the pieces' root map through the child map, whatever order batches are answered in, if
      and only if the child map's hashes are distinct or all the same. */
  lemma RootIsFound(cr: Suite, max: nat, pieces: seq<Bytes>, m: DataMap, chunks: seq<Bytes>)
    requires Lawful(cr) && max >= LEAST_MAX && |pieces| > 3 && Addressable(pieces) && RootMapFits(|pieces|, max)
    requires EncryptPieces(cr, max, pieces, 0) == Success((m, chunks)) && NoCollision(cr.hash, chunks)
    ensures m.IsChild() && AllSealed(cr, pieces, 0) && Within(Sealed(cr, pieces, 0), chunks)
    ensures (forall batch: BatchGetter | Serves(batch, Lookup(Table(cr.hash, chunks))) ::
               RootMapBatch(cr, batch, m, map[], 0) == Success(MapOf(cr, pieces, 0)))
            <==> DistinctHashes(m.infos) || |HashesOf(m.infos)| <= 1
  {
    var get := Lookup(Table(cr.hash, chunks));
    var last, l := FinalMapWrapsLast(cr, max, pieces, 0, m, chunks);
    FinalMapDecrypts(cr, max, pieces, 0, m, chunks);
    TableIsHonest(cr, chunks);
    OneStepClean(StepUp(cr, get), m, MapOf(cr, pieces, 0));
    ParallelAgreesExactly(cr, get, m);
  }

  /** The root map a decryption stream works on. */
  function StreamRoot(cr: Suite, batch: BatchGetter, m: DataMap): Result<DataMap> {
    if m.IsChild() then RootMapBatch(cr, batch, m, map[], 0) else Success(m)
  }

  /** A decryption stream opened on the map reads the file `plain`, chunk by chunk. */
  ghost predicate StreamReads(cr: Suite, root: DataMap, get: Getter, plain: seq<Bytes>) {
    Readable(OpensWith(cr, ExtractHashes(root), root.Level()), SortByIndex(root.infos), get, plain)
  }

  lemma RootReads(cr: Suite, pieces: seq<Bytes>, chunks: seq<Bytes>)
    requires Lawful(cr) && |pieces| >= 3 && AllSealed(cr, pieces, 0)
    requires NoCollision(cr.hash, chunks) && Within(Sealed(cr, pieces, 0), chunks)
    ensures StreamReads(cr, MapOf(cr, pieces, 0), Lookup(Table(cr.hash, chunks)), pieces)
  {
    TableHasSeals(cr, pieces, chunks);
    SortIsIdentity(MapOf(cr, pieces, 0).infos);
    RootMapReads(cr, Lookup(Table(cr.hash, chunks)), pieces);
  }

  /** A decryption stream on what encryption returned can read all pieces from their root map, in batches answered
      in any order. It finds that root map whatever the order, if and only if there is no child map to unwind or the
      child map's hashes are distinct or all the same. */
  lemma StreamReadsEncrypted(cr: Suite, max: nat, pieces: seq<Bytes>, m: DataMap, chunks: seq<Bytes>)
    requires Lawful(cr) && Ends(max, |pieces|) && |pieces| >= 3 && Addressable(pieces) && RootMapFits(|pieces|, max)
    requires EncryptPieces(cr, max, pieces, 0) == Success((m, chunks)) && NoCollision(cr.hash, chunks)
    ensures AllSealed(cr, pieces, 0) && StreamReads(cr, MapOf(cr, pieces, 0), Lookup(Table(cr.hash, chunks)), pieces)
    ensures (forall batch: BatchGetter | Serves(batch, Lookup(Table(cr.hash, chunks))) ::
               StreamRoot(cr, batch, m) == Success(MapOf(cr, pieces, 0)))
            <==> |pieces| == 3 || DistinctHashes(m.infos) || |HashesOf(m.infos)| <= 1
  {
    if |pieces| == 3 {
      EncryptThree(cr, max, pieces, 0);
    } else {
      RootIsFound(cr, max, pieces, m, chunks);
    }
    RootReads(cr, pieces, chunks);
  }

  lemma TableIsHonest(cr: Suite, chunks: seq<Bytes>)
    ensures Honest(cr, Lookup(Table(cr.hash, chunks)))
  {
    TableEntries(cr.hash, chunks);
  }

  /** Streaming encryption, then batch decryption with the chunks in stream order: however the input was cut, and
      whether there was less of it than declared or more, the first bytes come back, as many as were declared. */
  lemma StreamedInputDecrypts(cr: Suite, max: nat, size: nat, whole: Bytes,
        outcome: Result<(Option<DataMap>, seq<Bytes>)>)
    requires Lawful(cr) && max >= 1 && Ends(max, NumChunks(size, max)) && size >= 3
    requires |whole| < USIZE_LIMIT
    requires RootMapFits(NumChunks(size, max), max) && size < USIZE_LIMIT
    requires StreamsAsBatch(MakePlan(cr, max, size, whole), outcome)
    requires outcome.Success? && outcome.value.0.Some? && NoCollision(cr.hash, outcome.value.1)
    ensures Bound(size, NumChunks(size, max) - 1, max) < |whole|
    ensures Decrypted(cr, outcome.value.0.value, outcome.value.1) == Success(whole[..Min(size, |whole|)])
  {
    hide Cut, Shrink, EncryptPieces, StreamOrder, HandedOut, StopsShort, Decrypted;
    MapMeansReached(cr, max, size, whole, outcome);
    assert Addressable(Cut(whole, size, max)) by { CutIsAddressable(whole, size, max); }
    OutcomeDecrypts(MakePlan(cr, max, size, whole), outcome);
    assert Concat(Cut(whole, size, max)) == whole[..Min(size, |whole|)] by { CutConcat(whole, size, max); }
  }

  /** There is a map only if the input reached into the last chunk. */
  lemma MapMeansReached(cr: Suite, max: nat, size: nat, whole: Bytes, outcome: Result<(Option<DataMap>, seq<Bytes>)>)
    requires max >= 1 && Ends(max, NumChunks(size, max)) && size >= 3
    requires StreamsAsBatch(MakePlan(cr, max, size, whole), outcome)
    requires outcome.Success? && outcome.value.0.Some?
    ensures NumChunks(size, max) >= 3 && Bound(size, NumChunks(size, max) - 1, max) < |whole|
  {
    hide Cut, Shrink, EncryptPieces, StreamOrder, HandedOut, StopsShort;
    var plan := MakePlan(cr, max, size, whole);
    assert LastStart(plan) == Bound(size, NumChunks(size, max) - 1, max);
  }

  lemma OutcomeDecrypts(plan: Plan, outcome: Result<(Option<DataMap>, seq<Bytes>)>)
    requires Lawful(plan.cr) && Ends(plan.max, plan.n) && plan.n == |plan.pieces| >= 3 && Addressable(plan.pieces)
    requires RootMapFits(plan.n, plan.max) && plan.batch == EncryptPieces(plan.cr, plan.max, plan.pieces, 0)
    requires StreamsAsBatch(plan, outcome)
    requires outcome.Success? && outcome.value.0.Some? && NoCollision(plan.cr.hash, outcome.value.1)
    ensures LastStart(plan) < |plan.whole|
    ensures Decrypted(plan.cr, outcome.value.0.value, outcome.value.1) == Success(Concat(plan.pieces))
  {
    ReorderedDecrypts(plan.cr, plan.max, plan.pieces, plan.batch.value.0, plan.batch.value.1);
  }

  lemma ReorderedDecrypts(cr: Suite, max: nat, pieces: seq<Bytes>, m: DataMap, chunks: seq<Bytes>)
    requires Lawful(cr) && Ends(max, |pieces|) && |pieces| >= 3 && Addressable(pieces) && RootMapFits(|pieces|, max)
    requires EncryptPieces(cr, max, pieces, 0) == Success((m, chunks)) && |pieces| <= |chunks|
    requires NoCollision(cr.hash, StreamOrder(chunks, |pieces|))
    ensures Decrypted(cr, m, StreamOrder(chunks, |pieces|)) == Success(Concat(pieces))
  {
    StreamOrderIsPermutation(chunks, |pieces|);
    SameMembers(StreamOrder(chunks, |pieces|), chunks);
    PiecesRoundTrip(cr, max, pieces);
    DecryptionDependsOnSet(cr, m, StreamOrder(chunks, |pieces|), chunks);
  }

  /** The recorded root map names, for a chunk that could not be sealed, the hash of nothing: whoever has no chunk of that
      name cannot read the map. */
  lemma LostChunkIsNamed(plan: Plan, get: Getter, k: nat)
    requires Sound(plan) && k < plan.n && plan.seals[k].Failure? && get(plan.cr.hash([])).Failure?
    ensures Gather(get, plan.root.infos).Failure?
  {
    assert plan.root.infos[k] == EntryOf(plan.cr, k, plan.pieces[k], None);
    if Gather(get, plan.root.infos).Success? {
      GatherGives(get, plan.root.infos);
    }
  }

  /** In particular, a file of three chunks of which one was lost does not decrypt, whatever the stream handed out. */
  lemma LostChunkIsMissed(plan: Plan, chunks: seq<Bytes>, k: nat)
    requires Sound(plan) && plan.n == 3 && k < 3 && plan.seals[k].Failure?
    requires forall c | c in chunks :: plan.cr.hash(c) != plan.cr.hash([])
    ensures plan.shrunk == Success((plan.root, [])) && Decrypted(plan.cr, plan.root, chunks).Failure?
  {
    TableEntries(plan.cr.hash, chunks);
    LostChunkIsNamed(plan, Lookup(Table(plan.cr.hash, chunks)), k);
  }

  lemma SameMembers(a: seq<Bytes>, b: seq<Bytes>)
    requires multiset(a) == multiset(b)
    ensures forall c :: c in a <==> c in b
  {
    forall c
      ensures c in a <==> c in b
    {
      assert c in a <==> c in multiset(a);
      assert c in b <==> c in multiset(b);
    }
  }

  /** Input of exactly the declared size: the batch result the stream is measured against is that of encrypting
      the whole input at once. */
  lemma StreamRefinesBatch(cr: Suite, max: nat, whole: Bytes, outcome: Result<(Option<DataMap>, seq<Bytes>)>)
    requires max >= 1 && Ends(max, NumChunks(|whole|, max)) && |whole| >= 3
    requires StreamsAsBatch(MakePlan(cr, max, |whole|, whole), outcome)
    ensures outcome.Success? <==> EncryptAt(cr, max, whole, 0).Success?
    ensures outcome.Success? ==>
              && NumChunks(|whole|, max) >= 3
              && var (m, chunks) := EncryptAt(cr, max, whole, 0).value;
              && outcome.value.0 == Some(m)
              && NumChunks(|whole|, max) <= |chunks|
              && outcome.value.1 == StreamOrder(chunks, NumChunks(|whole|, max))
              && multiset(outcome.value.1) == multiset(chunks)
  {
    LastChunkIsReached(cr, max, whole);
    OutcomeIsBatch(MakePlan(cr, max, |whole|, whole), outcome);
  }

  lemma LastChunkIsReached(cr: Suite, max: nat, whole: Bytes)
    requires max >= 1 && Ends(max, NumChunks(|whole|, max)) && |whole| >= 3
    ensures var plan := MakePlan(cr, max, |whole|, whole);
            LastStart(plan) < |plan.whole| && plan.batch == EncryptAt(cr, max, whole, 0)
  {
    NumChunksAtLeast3(|whole|, max);
    Tiling(|whole|, NumChunks(|whole|, max) - 1, max);
  }

  lemma OutcomeIsBatch(plan: Plan, outcome: Result<(Option<DataMap>, seq<Bytes>)>)
    requires StreamsAsBatch(plan, outcome) && LastStart(plan) < |plan.whole|
    ensures outcome.Success? <==> plan.batch.Success?
    ensures outcome.Success? ==>
              && 2 <= plan.n <= |plan.batch.value.1|
              && outcome.value == (Some(plan.batch.value.0), StreamOrder(plan.batch.value.1, plan.n))
              && multiset(outcome.value.1) == multiset(plan.batch.value.1)
  {
    if outcome.Success? {
      StreamOrderIsPermutation(plan.batch.value.1, plan.n);
    }
  }

  /** Input longer than declared: only the declared bytes count. */
  lemma LongInputIsCut(whole: Bytes, size: nat, max: nat)
    requires max >= 1 && 3 <= size <= |whole|
    ensures Cut(whole, size, max) == Cut(whole[..size], size, max)
  {
    NumChunksAtLeast3(size, max);
    forall i | 0 <= i < NumChunks(size, max)
      ensures PieceAt(whole, size, max, i) == PieceAt(whole[..size], size, max, i)
    {
      Tiling(size, i, max);
    }
  }
}
