/** Decryption undoes encryption: through chains of child maps, and exactly when. */
module RoundTrip {
  import opened Prelude
  import opened Layout
  import opened Crypto
  import opened Codec
  import opened Encrypt
  import opened Decrypt

  // Chains of child maps.

  /** `child` is the encrypted form of `parent`: its chunks are the seals of the parent's encoding, at the
      child's own level, and the getter has them. */
  ghost predicate Wraps(cr: Suite, get: Getter, child: DataMap, parent: DataMap, pieces: seq<Bytes>) {
    && child.IsChild() && Fits(parent)
    && Concat(pieces) == ToBytes(parent)
    && AllSealed(cr, pieces, child.Level())
    && child.infos == MapOf(cr, pieces, child.Level()).infos
    && NoCollision(cr.hash, Sealed(cr, pieces, child.Level()))
    && forall c | c in Sealed(cr, pieces, child.Level()) :: get(cr.hash(c)) == Success(c)
  }

  /** One level of unwinding gives the parent back. */
  lemma WrapsStep(cr: Suite, get: Getter, child: DataMap, parent: DataMap, pieces: seq<Bytes>)
    requires Lawful(cr) && Wraps(cr, get, child, parent, pieces)
    ensures StepUp(cr, get)(child) == Success(parent)
  {
    var seals := Sealed(cr, pieces, child.Level());
    forall i | 0 <= i < |pieces|
      ensures get(child.infos[i].dstHash) == Success(seals[i])
    {
      assert seals[i] in seals;
    }
    GatherFinds(get, child.infos, seals);
    FullSetRoundTrip(cr, pieces, child, seals);
    MapRoundTripExact(parent);
  }

  /** `maps[0]` is a root map and each map is wrapped by the next. */
  ghost predicate Chain(cr: Suite, get: Getter, maps: seq<DataMap>, pieces: seq<seq<Bytes>>) {
    && |maps| == |pieces| + 1
    && !maps[0].IsChild()
    && forall j | 0 <= j < |pieces| :: Wraps(cr, get, maps[j + 1], maps[j], pieces[j])
  }

  lemma {:induction false} UnwindChain(step: DataMap -> Result<DataMap>, maps: seq<DataMap>, k: nat, depth: nat)
    requires k < |maps| && !maps[0].IsChild()
    requires forall j | 0 < j < |maps| :: maps[j].IsChild() && step(maps[j]) == Success(maps[j - 1])
    ensures Unwind(step, maps[k], depth) == if depth + k <= MAX_DEPTH then Success(maps[0]) else Failure(TooDeep)
    decreases k
  {
    if k > 0 {
      UnwindChain(step, maps, k - 1, depth + 1);
    }
  }

  /** Any chain of up to 100 child maps unwinds to its root; a longer one is refused. */
  lemma ChainUnwinds(cr: Suite, get: Getter, maps: seq<DataMap>, pieces: seq<seq<Bytes>>)
    requires Lawful(cr) && Chain(cr, get, maps, pieces)
    ensures RootMap(cr, get, maps[|pieces|], 0) ==
            if |pieces| <= 100 then Success(maps[0]) else Failure(TooDeep)
  {
    forall j | 0 < j < |maps|
      ensures maps[j].IsChild() && StepUp(cr, get)(maps[j]) == Success(maps[j - 1])
    {
      assert Wraps(cr, get, maps[j - 1 + 1], maps[j - 1], pieces[j - 1]);
      WrapsStep(cr, get, maps[j], maps[j - 1], pieces[j - 1]);
    }
    UnwindChain(StepUp(cr, get), maps, |pieces|, 0);
  }

  // What encryption leaves behind.

  /** The pieces' map is representable with 64-bit numbers. */
  ghost predicate Addressable(pieces: seq<Bytes>) {
    && INFO_SIZE * |pieces| + 10 < USIZE_LIMIT
    && forall p | p in pieces :: |p| < USIZE_LIMIT
  }

  lemma MapFits(cr: Suite, pieces: seq<Bytes>, level: nat)
    requires AllSealed(cr, pieces, level) && Addressable(pieces)
    ensures Fits(MapOf(cr, pieces, level))
  {
    var m := MapOf(cr, pieces, level);
    forall info | info in m.infos
      ensures info.index < USIZE_LIMIT && info.srcSize < USIZE_LIMIT
    {
      var i :| 0 <= i < |m.infos| && m.infos[i] == info;
      assert pieces[i] in pieces;
    }
  }

  /** The pieces of anything that fits in memory are representable. */
  lemma CutIsAddressable(data: Bytes, size: nat, max: nat)
    requires max >= 1 && Ends(max, NumChunks(size, max)) && 3 <= size < USIZE_LIMIT && |data| < USIZE_LIMIT
    ensures Addressable(Cut(data, size, max))
  {
    var pieces := Cut(data, size, max);
    if |pieces| >= 4 {
      NumChunksIsCeiling(size, max);
      MulLe(LEAST_MAX, max, |pieces| - 1);
    }
    forall p | p in pieces
      ensures |p| < USIZE_LIMIT
    {
      var i :| 0 <= i < |pieces| && pieces[i] == p;
      PieceIsNoLonger(data, size, max, i);
    }
  }

  /** Whether the root map of `chunks` entries needs no second round of shrinking. */
  predicate RootMapFits(chunks: nat, max: nat) {
    chunks <= 3 || INFO_SIZE * chunks + 10 <= 3 * max
  }

  lemma RootMapFitsMeansThreeChunks(chunks: nat, max: nat)
    requires max >= 1 && chunks > 3
    ensures RootMapFits(chunks, max) <==> NumChunks(INFO_SIZE * chunks + 10, max) == 3
  {
    ThreeChunksWhenShort(INFO_SIZE * chunks + 10, max);
  }

  lemma ThreeChunksWhenShort(length: nat, max: nat)
    requires max >= 1 && length >= 3
    ensures length <= 3 * max <==> NumChunks(length, max) == 3
  {
    if length >= 3 * max {
      NumChunksIsCeiling(length, max);
      var n := NumChunks(length, max);
      if n > 3 { MulLe(3, n - 1, max); }
    }
  }

  /** The encoding of the pieces' map, cut for the next round. */
  ghost function NextPieces(cr: Suite, max: nat, pieces: seq<Bytes>, level: nat): (r: seq<Bytes>)
    requires max >= 1 && AllSealed(cr, pieces, level)
    ensures |r| == NumChunks(INFO_SIZE * |pieces| + 10, max)
  {
    var encoding := ToBytes(MapOf(cr, pieces, level));
    Cut(encoding, |encoding|, max)
  }

  lemma NextPiecesFacts(cr: Suite, max: nat, pieces: seq<Bytes>, level: nat)
    requires max >= LEAST_MAX && AllSealed(cr, pieces, level)
    ensures |NextPieces(cr, max, pieces, level)| >= 3
    ensures |pieces| > 3 ==> |NextPieces(cr, max, pieces, level)| < |pieces|
    ensures Concat(NextPieces(cr, max, pieces, level)) == ToBytes(MapOf(cr, pieces, level))
    ensures Addressable(pieces) ==> Addressable(NextPieces(cr, max, pieces, level))
  {
    var m := MapOf(cr, pieces, level);
    var encoding := ToBytes(m);
    NumChunksAtLeast3(|encoding|, max);
    if |pieces| > 3 { ShrinkingDescends(m, max); }
    CutConcat(encoding, |encoding|, max);
    if Addressable(pieces) { CutIsAddressable(encoding, |encoding|, max); }
  }

  /** One round: more than three pieces encrypt to their seals and to the next pieces, encrypted at level 1,
      whose entries make the child map. */
  lemma EncryptUnfolds(cr: Suite, max: nat, pieces: seq<Bytes>, level: nat)
    requires max >= LEAST_MAX && |pieces| > 3
    requires EncryptPieces(cr, max, pieces, level).Success?
    ensures AllSealed(cr, pieces, level)
    ensures var next := NextPieces(cr, max, pieces, level);
            && |next| >= 3
            && EncryptPieces(cr, max, next, 1).Success?
            && var (m, chunks) := EncryptPieces(cr, max, next, 1).value;
               EncryptPieces(cr, max, pieces, level) ==
               Success((WithChild(m.infos, 1), Sealed(cr, pieces, level) + chunks))
  {
    NextPiecesFacts(cr, max, pieces, level);
    ShrinkTakesOneRound(cr, max, MapOf(cr, pieces, level));
  }

  lemma EncryptThree(cr: Suite, max: nat, pieces: seq<Bytes>, level: nat)
    requires max >= 1 && |pieces| == 3
    requires EncryptPieces(cr, max, pieces, level).Success?
    ensures AllSealed(cr, pieces, level)
    ensures EncryptPieces(cr, max, pieces, level) == Success((MapOf(cr, pieces, level), Sealed(cr, pieces, level)))
  {
    var seals := Sealed(cr, pieces, level);
    assert seals + [] == seals;
  }

  /** Everything in the first list is in the second. */
  predicate Within(some: seq<Bytes>, more: seq<Bytes>) {
    forall c | c in some :: c in more
  }

  /** The child map of level 1 that wraps the map of the pieces, with the chunks of both among the given ones. */
  ghost predicate FinalMapOf(cr: Suite, max: nat, pieces: seq<Bytes>, level: nat, m: DataMap, chunks: seq<Bytes>) {
    && max >= 1 && AllSealed(cr, pieces, level) && Within(Sealed(cr, pieces, level), chunks)
    && var next := NextPieces(cr, max, pieces, level);
       && AllSealed(cr, next, 1)
       && m == DataMap(MapOf(cr, next, 1).infos, Some(1))
       && Within(Sealed(cr, next, 1), chunks)
  }

  /** Tagging the final map again changes nothing, and neither do further chunks. */
  lemma FinalMapOfMore(cr: Suite, max: nat, pieces: seq<Bytes>, level: nat, m: DataMap, chunks: seq<Bytes>,
        before: seq<Bytes>)
    requires FinalMapOf(cr, max, pieces, level, m, chunks)
    ensures FinalMapOf(cr, max, pieces, level, WithChild(m.infos, 1), before + chunks)
  {
    SortIsIdentity(MapOf(cr, NextPieces(cr, max, pieces, level), 1).infos);
  }

  /** One round was enough: the final map wraps the pieces' own map. */
  lemma WrapsAtOnce(cr: Suite, max: nat, pieces: seq<Bytes>, level: nat, m: DataMap, chunks: seq<Bytes>)
    requires max >= LEAST_MAX && |pieces| > 3
    requires EncryptPieces(cr, max, pieces, level) == Success((m, chunks))
    requires AllSealed(cr, pieces, level) && |NextPieces(cr, max, pieces, level)| == 3
    ensures FinalMapOf(cr, max, pieces, level, m, chunks)
  {
    EncryptUnfolds(cr, max, pieces, level);
    var next := NextPieces(cr, max, pieces, level);
    EncryptThree(cr, max, next, 1);
    SortIsIdentity(MapOf(cr, next, 1).infos);
    WithinSum(Sealed(cr, pieces, level), Sealed(cr, next, 1));
  }

  /** One round was enough: the chunks are the pieces' seals and those of their map's encoding. */
  lemma ChunksOfOneRound(cr: Suite, max: nat, pieces: seq<Bytes>, level: nat)
    requires max >= LEAST_MAX && |pieces| > 3 && EncryptPieces(cr, max, pieces, level).Success?
    requires AllSealed(cr, pieces, level) && |NextPieces(cr, max, pieces, level)| == 3
    ensures AllSealed(cr, NextPieces(cr, max, pieces, level), 1)
    ensures EncryptPieces(cr, max, pieces, level).value.1 == Sealed(cr, pieces, level) + Sealed(cr, NextPieces(cr, max, pieces, level), 1)
  {
    EncryptUnfolds(cr, max, pieces, level);
    EncryptThree(cr, max, NextPieces(cr, max, pieces, level), 1);
  }

  lemma WithinSum(a: seq<Bytes>, b: seq<Bytes>)
    ensures Within(a, a + b) && Within(b, a + b)
  {
  }

  /** A further round keeps the final map of the rounds after it. */
  lemma WrapsLater(cr: Suite, max: nat, pieces: seq<Bytes>, level: nat, last: seq<Bytes>, l: nat, m: DataMap,
        chunks: seq<Bytes>)
    requires max >= LEAST_MAX && |pieces| > 3
    requires EncryptPieces(cr, max, pieces, level).Success? && AllSealed(cr, pieces, level)
    requires |NextPieces(cr, max, pieces, level)| >= 3
    requires EncryptPieces(cr, max, NextPieces(cr, max, pieces, level), 1) == Success((m, chunks))
    requires FinalMapOf(cr, max, last, l, m, chunks)
    ensures var (outer, all) := EncryptPieces(cr, max, pieces, level).value; FinalMapOf(cr, max, last, l, outer, all)
  {
    EncryptUnfolds(cr, max, pieces, level);
    FinalMapOfMore(cr, max, last, l, m, chunks, Sealed(cr, pieces, level));
  }

  /** Whatever the number of rounds, the final map wraps the map of the last data set that was shrunk. That is
      the file itself if its encoded map needs no second round; otherwise it was sealed at level 1. */
  lemma {:induction false} FinalMapWrapsLast(cr: Suite, max: nat, pieces: seq<Bytes>, level: nat, m: DataMap,
        chunks: seq<Bytes>)
    returns (last: seq<Bytes>, l: nat)
    requires max >= LEAST_MAX && |pieces| > 3 && Addressable(pieces)
    requires EncryptPieces(cr, max, pieces, level) == Success((m, chunks))
    ensures |last| > 3 && Addressable(last) && FinalMapOf(cr, max, last, l, m, chunks)
    ensures if RootMapFits(|pieces|, max) then last == pieces && l == level else l == 1
    decreases |pieces|
  {
    var next, inner, innerChunks := RoundBelow(cr, max, pieces, level);
    if |next| == 3 {
      last, l := pieces, level;
      WrapsAtOnce(cr, max, pieces, level, m, chunks);
    } else {
      last, l := FinalMapWrapsLast(cr, max, next, 1, inner, innerChunks);
      WrapsLater(cr, max, pieces, level, last, l, inner, innerChunks);
    }
  }

  lemma NextIsThree(cr: Suite, max: nat, pieces: seq<Bytes>, level: nat)
    requires max >= 1 && AllSealed(cr, pieces, level) && |pieces| > 3
    ensures |NextPieces(cr, max, pieces, level)| == 3 <==> RootMapFits(|pieces|, max)
  {
    RootMapFitsMeansThreeChunks(|pieces|, max);
  }

  /** The next round: fewer pieces, encrypted at level 1. */
  lemma RoundBelow(cr: Suite, max: nat, pieces: seq<Bytes>, level: nat)
    returns (next: seq<Bytes>, m: DataMap, chunks: seq<Bytes>)
    requires max >= LEAST_MAX && |pieces| > 3 && Addressable(pieces)
    requires EncryptPieces(cr, max, pieces, level).Success?
    ensures AllSealed(cr, pieces, level) && next == NextPieces(cr, max, pieces, level)
    ensures 3 <= |next| < |pieces| && Addressable(next)
    ensures |next| == 3 <==> RootMapFits(|pieces|, max)
    ensures EncryptPieces(cr, max, next, 1) == Success((m, chunks))
  {
    EncryptUnfolds(cr, max, pieces, level);
    NextPiecesFacts(cr, max, pieces, level);
    NextIsThree(cr, max, pieces, level);
    next := NextPieces(cr, max, pieces, level);
    m, chunks := EncryptPieces(cr, max, next, 1).value.0, EncryptPieces(cr, max, next, 1).value.1;
  }

  /** A root map wrapped once is found in one step. */
  lemma WrappedOnce(cr: Suite, get: Getter, child: DataMap, root: DataMap, pieces: seq<Bytes>)
    requires Lawful(cr) && Wraps(cr, get, child, root, pieces) && !root.IsChild()
    ensures child.IsChild() && StepUp(cr, get)(child) == Success(root)
    ensures RootMap(cr, get, child, 0) == Success(root)
  {
    WrapsStep(cr, get, child, root, pieces);
    UnwindChain(StepUp(cr, get), [root, child], 1, 0);
  }

  /** A final map wraps the map it was made from, for a getter that has the chunks. */
  lemma FinalMapWraps(cr: Suite, max: nat, pieces: seq<Bytes>, level: nat, m: DataMap, chunks: seq<Bytes>)
    requires max >= LEAST_MAX && Addressable(pieces) && FinalMapOf(cr, max, pieces, level, m, chunks)
    requires NoCollision(cr.hash, chunks)
    ensures Wraps(cr, Lookup(Table(cr.hash, chunks)), m, MapOf(cr, pieces, level), NextPieces(cr, max, pieces, level))
  {
    NextPiecesFacts(cr, max, pieces, level);
    MapFits(cr, pieces, level);
    forall c | c in Sealed(cr, NextPieces(cr, max, pieces, level), 1)
      ensures Lookup(Table(cr.hash, chunks))(cr.hash(c)) == Success(c)
    {
      TableFinds(cr.hash, chunks, c);
    }
  }

  /** What decryption does with a child map that is one step from a root map: it opens the root map's chunks. */
  lemma DecryptedOnce(cr: Suite, m: DataMap, root: DataMap, chunks: seq<Bytes>, rootChunks: seq<Bytes>)
    requires m.IsChild() && RootMap(cr, Lookup(Table(cr.hash, chunks)), m, 0) == Success(root)
    requires Gather(Lookup(Table(cr.hash, chunks)), root.infos) == Success(rootChunks)
    requires Gather(Lookup(Table(cr.hash, rootChunks)), root.infos) == Success(rootChunks)
    ensures Decrypted(cr, m, chunks) == OpenSorted(cr, ExtractHashes(root), rootChunks, root.Level())
  {
  }

  /** Unshrinking a final map takes one step; decryption then opens the data set's seals as a root map's, that
      is, at level 0, whatever level they were made at. */
  lemma FinalMapDecrypts(cr: Suite, max: nat, pieces: seq<Bytes>, level: nat, m: DataMap, chunks: seq<Bytes>)
    requires Lawful(cr) && max >= LEAST_MAX && Addressable(pieces) && FinalMapOf(cr, max, pieces, level, m, chunks)
    requires NoCollision(cr.hash, chunks)
    ensures m.IsChild()
    ensures StepUp(cr, Lookup(Table(cr.hash, chunks)))(m) == Success(MapOf(cr, pieces, level))
    ensures RootMap(cr, Lookup(Table(cr.hash, chunks)), m, 0) == Success(MapOf(cr, pieces, level))
    ensures Decrypted(cr, m, chunks) == OpenSorted(cr, SrcHashes(cr, pieces), Sealed(cr, pieces, level), 0)
  {
    var root, seals := MapOf(cr, pieces, level), Sealed(cr, pieces, level);
    FinalMapWraps(cr, max, pieces, level, m, chunks);
    WrappedOnce(cr, Lookup(Table(cr.hash, chunks)), m, root, NextPieces(cr, max, pieces, level));
    SealsGatherAs(cr, pieces, level, root, chunks);
    SealsGatherAs(cr, pieces, level, root, seals);
    DecryptedOnce(cr, m, root, chunks, seals);
    assert ExtractHashes(root) == SrcHashes(cr, pieces);
  }

  /** The entries find their seals, whatever level the reader takes the map for. */
  lemma SealsGatherAs(cr: Suite, pieces: seq<Bytes>, level: nat, m: DataMap, chunks: seq<Bytes>)
    requires AllSealed(cr, pieces, level) && m.infos == MapOf(cr, pieces, level).infos
    requires NoCollision(cr.hash, chunks) && Within(Sealed(cr, pieces, level), chunks)
    ensures Gather(Lookup(Table(cr.hash, chunks)), m.infos) == Success(Sealed(cr, pieces, level))
  {
    SealsGather(cr, pieces, DataMap(m.infos, Some(level)), chunks);
  }

  // The round trip.

  /** Pieces come back when the encoded root map needs no second round of shrinking. */
  lemma PiecesRoundTrip(cr: Suite, max: nat, pieces: seq<Bytes>)
    requires Lawful(cr) && Ends(max, |pieces|) && |pieces| >= 3 && Addressable(pieces)
    requires EncryptPieces(cr, max, pieces, 0).Success?
    requires NoCollision(cr.hash, EncryptPieces(cr, max, pieces, 0).value.1)
    requires RootMapFits(|pieces|, max)
    ensures var (m, chunks) := EncryptPieces(cr, max, pieces, 0).value;
            Decrypted(cr, m, chunks) == Success(Concat(pieces))
  {
    var (m, chunks) := EncryptPieces(cr, max, pieces, 0).value;
    if |pieces| == 3 {
      EncryptThree(cr, max, pieces, 0);
      SealsGather(cr, pieces, m, chunks);
      FullSetRoundTrip(cr, pieces, m, chunks);
    } else {
      var last, l := FinalMapWrapsLast(cr, max, pieces, 0, m, chunks);
      FinalMapDecrypts(cr, max, pieces, 0, m, chunks);
      OpenSortedInverts(cr, pieces, 0);
    }
  }

  /** Of the chunks at hand: where they are the seals of a data set at level 1, the first does not open as a chunk
      of level 0. */
  ghost predicate LevelsSeparated(cr: Suite, chunks: seq<Bytes>) {
    forall pieces | |pieces| > 0 && AllSealed(cr, pieces, 1) && Within(Sealed(cr, pieces, 1), chunks) ::
      DecryptChunk(cr, 0, Sealed(cr, pieces, 1)[0], SrcHashes(cr, pieces), 0).Failure?
  }

  lemma OpenAllStopsAtFirst(cr: Suite, hashes: seq<Name>, chunks: seq<Bytes>, level: nat)
    requires |chunks| > 0 && DecryptChunk(cr, 0, chunks[0], hashes, level).Failure?
    ensures OpenAll(cr, hashes, chunks, level) == Failure(DecryptChunk(cr, 0, chunks[0], hashes, level).error)
  {
    assert chunks[..0] == [];
    OpenAllSnoc(cr, hashes, chunks, level, 0);
    OpenAllFails(cr, hashes, chunks, level, 1);
  }

  /** When a second round of shrinking was needed, unshrinking stops one level early and decryption fails: the
      chunks it takes for the file's were sealed at level 1 and do not open at level 0. */
  lemma SecondRoundFails(cr: Suite, max: nat, pieces: seq<Bytes>)
    requires Lawful(cr) && Ends(max, |pieces|) && |pieces| >= 3 && Addressable(pieces)
    requires EncryptPieces(cr, max, pieces, 0).Success?
    requires NoCollision(cr.hash, EncryptPieces(cr, max, pieces, 0).value.1)
    requires LevelsSeparated(cr, EncryptPieces(cr, max, pieces, 0).value.1)
    requires !RootMapFits(|pieces|, max)
    ensures var (m, chunks) := EncryptPieces(cr, max, pieces, 0).value;
            Decrypted(cr, m, chunks).Failure?
  {
    var (m, chunks) := EncryptPieces(cr, max, pieces, 0).value;
    var last, l := FinalMapWrapsLast(cr, max, pieces, 0, m, chunks);
    FinalMapDecrypts(cr, max, last, l, m, chunks);
    OpenAllStopsAtFirst(cr, SrcHashes(cr, last), Sealed(cr, last, 1), 0);
  }

  /** Encrypted bytes decrypt to themselves if and only if the encoding of the root map is at most three
      maximal chunks long; otherwise decryption fails. */
  lemma RoundTripExactly(cr: Suite, max: nat, bytes: Bytes)
    requires Lawful(cr) && max >= 1 && Ends(max, NumChunks(|bytes|, max)) && |bytes| < USIZE_LIMIT
    requires EncryptAt(cr, max, bytes, 0).Success?
    requires NoCollision(cr.hash, EncryptAt(cr, max, bytes, 0).value.1)
    requires LevelsSeparated(cr, EncryptAt(cr, max, bytes, 0).value.1)
    ensures var (m, chunks) := EncryptAt(cr, max, bytes, 0).value;
            var fits := RootMapFits(NumChunks(|bytes|, max), max);
            && (Decrypted(cr, m, chunks) == Success(bytes) <==> fits)
            && (Decrypted(cr, m, chunks).Failure? <==> !fits)
  {
    NumChunksAtLeast3(|bytes|, max);
    var pieces := Cut(bytes, |bytes|, max);
    CutIsAddressable(bytes, |bytes|, max);
    if RootMapFits(|pieces|, max) {
      BytesRoundTrip(cr, max, bytes);
    } else {
      SecondRoundFails(cr, max, pieces);
    }
  }

  /** The round trip itself, for which the inverse laws are enough. */
  lemma BytesRoundTrip(cr: Suite, max: nat, bytes: Bytes)
    requires Lawful(cr) && max >= 1 && Ends(max, NumChunks(|bytes|, max)) && |bytes| < USIZE_LIMIT
    requires EncryptAt(cr, max, bytes, 0).Success?
    requires NoCollision(cr.hash, EncryptAt(cr, max, bytes, 0).value.1)
    requires RootMapFits(NumChunks(|bytes|, max), max)
    ensures var (m, chunks) := EncryptAt(cr, max, bytes, 0).value;
            Decrypted(cr, m, chunks) == Success(bytes)
  {
    NumChunksAtLeast3(|bytes|, max);
    var pieces := Cut(bytes, |bytes|, max);
    CutIsAddressable(bytes, |bytes|, max);
    PiecesRoundTrip(cr, max, pieces);
    CutConcat(bytes, |bytes|, max);
    assert bytes[..|bytes|] == bytes;
  }

  /** With the default maximum, 4190208, the round trip covers files of up to 157132 chunks, about 658 GB. */
  lemma RoundTripBoundForDefaultMax(size: nat)
    ensures RootMapFits(NumChunks(size, 4_190_208), 4_190_208) <==> size <= 157_132 * 4_190_208
  {
  }

  /** With the least maximum, up to four chunks: 440 bytes. */
  lemma RoundTripBoundForLeastMax(size: nat)
    ensures RootMapFits(NumChunks(size, LEAST_MAX), LEAST_MAX) <==> size <= 440
  {
  }

  /** An input that does not come back: 441 zero bytes, cut into chunks of 110. */
  lemma OneByteTooMany(cr: Suite)
    requires Lawful(cr) && EncryptAt(cr, LEAST_MAX, seq(441, _ => 0), 0).Success?
    requires NoCollision(cr.hash, EncryptAt(cr, LEAST_MAX, seq(441, _ => 0), 0).value.1)
    requires LevelsSeparated(cr, EncryptAt(cr, LEAST_MAX, seq(441, _ => 0), 0).value.1)
    ensures var (m, chunks) := EncryptAt(cr, LEAST_MAX, seq(441, _ => 0), 0).value;
            Decrypted(cr, m, chunks).Failure?
  {
    RoundTripBoundForLeastMax(441);
    RoundTripExactly(cr, LEAST_MAX, seq(441, _ => 0));
  }
}
