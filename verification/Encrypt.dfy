/** Batch encryption and the shrinking of large data maps (self_encryption/src/lib.rs). */
module Encrypt {
  import opened Prelude
  import opened Layout
  import opened Crypto
  import opened Codec

  const MIN_ENCRYPTABLE_BYTES: nat := 3 * MIN_CHUNK_SIZE

  /** The least MAX_CHUNK_SIZE for which shrinking always comes to an end; see EndsExactly. */
  const LEAST_MAX: nat := 110

  /** Whether encryption and shrinking, which call each other, come to an end on data of so many chunks. */
  predicate Ends(max: nat, chunks: nat) {
    max >= 1 && (max >= LEAST_MAX || chunks <= 3)
  }

  /** Chunk `index` of a file of `size` bytes, of which only `data` is there. */
  function PieceAt(data: Bytes, size: nat, max: nat, index: nat): Bytes
    requires max >= 1 && index < NumChunks(size, max)
  {
    Tiling(size, index, max);
    data[Min(Bound(size, index, max), |data|)..Min(Bound(size, index + 1, max), |data|)]
  }

  lemma PieceIsNoLonger(data: Bytes, size: nat, max: nat, index: nat)
    requires max >= 1 && index < NumChunks(size, max)
    ensures |PieceAt(data, size, max, index)| <= |data|
  {
  }

  /** The data cut as a file of `size` bytes. */
  function Cut(data: Bytes, size: nat, max: nat): (pieces: seq<Bytes>)
    requires max >= 1
    ensures |pieces| == NumChunks(size, max)
    ensures forall i | 0 <= i < |pieces| :: pieces[i] == PieceAt(data, size, max, i)
  {
    seq(NumChunks(size, max), i requires 0 <= i < NumChunks(size, max) => PieceAt(data, size, max, i))
  }

  lemma {:induction false} CutPrefix(data: Bytes, size: nat, max: nat, k: nat)
    requires max >= 1 && 0 < NumChunks(size, max) && k <= NumChunks(size, max)
    ensures Concat(Cut(data, size, max)[..k]) == data[..Min(Bound(size, k, max), |data|)]
  {
    var pieces := Cut(data, size, max);
    if k == 0 {
      Tiling(size, 0, max);
    } else {
      CutPrefix(data, size, max, k - 1);
      Tiling(size, k - 1, max);
      ConcatSnoc(pieces, k - 1);
    }
  }

  /** Cutting loses nothing: the pieces are the data, up to the declared size. */
  lemma CutConcat(data: Bytes, size: nat, max: nat)
    requires max >= 1 && size >= 3
    ensures Concat(Cut(data, size, max)) == data[..Min(size, |data|)]
  {
    NumChunksAtLeast3(size, max);
    var n := NumChunks(size, max);
    CutPrefix(data, size, max, n);
    assert Cut(data, size, max)[..n] == Cut(data, size, max);
  }

  function SrcHashes(cr: Suite, pieces: seq<Bytes>): (r: seq<Name>)
    ensures |r| == |pieces|
    ensures forall i | 0 <= i < |r| :: r[i] == cr.hash(pieces[i])
  {
    seq(|pieces|, i requires 0 <= i < |pieces| => cr.hash(pieces[i]))
  }

  /** Key material, then the seal. */
  function SealWith(cr: Suite, index: nat, content: Bytes, hashes: seq<Name>, level: nat): Result<Bytes> {
    var pki :- GetPadKeyAndNonce(cr, index, hashes, level);
    EncryptChunk(cr, content, pki)
  }

  /** Piece `index` sealed with the key material of the whole list of source hashes. */
  function SealPiece(cr: Suite, pieces: seq<Bytes>, level: nat, index: nat): Result<Bytes>
    requires index < |pieces|
  {
    SealWith(cr, index, pieces[index], SrcHashes(cr, pieces), level)
  }

  ghost predicate AllSealed(cr: Suite, pieces: seq<Bytes>, level: nat) {
    forall i | 0 <= i < |pieces| :: SealPiece(cr, pieces, level, i).Success?
  }

  ghost function Sealed(cr: Suite, pieces: seq<Bytes>, level: nat): (r: seq<Bytes>)
    requires AllSealed(cr, pieces, level)
    ensures |r| == |pieces|
    ensures forall i | 0 <= i < |r| :: r[i] == SealPiece(cr, pieces, level, i).value
  {
    seq(|pieces|, i requires 0 <= i < |pieces| => SealPiece(cr, pieces, level, i).value)
  }

  function InfoOf(cr: Suite, pieces: seq<Bytes>, level: nat, index: nat): ChunkInfo
    requires index < |pieces| && SealPiece(cr, pieces, level, index).Success?
  {
    ChunkInfo(index, cr.hash(SealPiece(cr, pieces, level, index).value), cr.hash(pieces[index]), |pieces[index]|)
  }

  /** The root map that describes the pieces. */
  ghost function MapOf(cr: Suite, pieces: seq<Bytes>, level: nat): (m: DataMap)
    requires AllSealed(cr, pieces, level)
    ensures m.child == None && |m.infos| == |pieces|
    ensures forall i | 0 <= i < |pieces| :: m.infos[i] == InfoOf(cr, pieces, level, i)
  {
    DataMap(seq(|pieces|, i requires 0 <= i < |pieces| => InfoOf(cr, pieces, level, i)), None)
  }

  /** The level a map is shrunk at. */
  function NextLevel(m: DataMap): nat {
    if m.child.Some? then m.child.value + 1 else 1
  }

  /** Bounds the depth of the mutual recursion: entries still to be shrunk, counted so that a child map's
      longer encoding weighs one more. */
  function Weight(m: DataMap): nat {
    if |m.infos| <= 3 then 0 else |m.infos| + (if m.IsChild() then 1 else 0)
  }

  /** Adds the chunks of earlier rounds to a result. */
  ghost function After(chunks: seq<Bytes>, r: Result<(DataMap, seq<Bytes>)>): Result<(DataMap, seq<Bytes>)> {
    if r.Failure? then r else Success((r.value.0, chunks + r.value.1))
  }

  /** The result of encrypting the pieces: their seals and map, then whatever shrinking adds. */
  ghost function EncryptPieces(cr: Suite, max: nat, pieces: seq<Bytes>, level: nat): (r: Result<(DataMap, seq<Bytes>)>)
    requires Ends(max, |pieces|) && |pieces| >= 3
    ensures r.Success? ==> |r.value.0.infos| == 3
    decreases |pieces|, 1
  {
    if !AllSealed(cr, pieces, level) then Failure(Sealing)
    else
      var (m, extra) :- Shrink(cr, max, MapOf(cr, pieces, level));
      Success((m, Sealed(cr, pieces, level) + extra))
  }

  ghost function EncryptAt(cr: Suite, max: nat, bytes: Bytes, level: nat): (r: Result<(DataMap, seq<Bytes>)>)
    requires max >= 1 && Ends(max, NumChunks(|bytes|, max))
    ensures r.Success? ==> |r.value.0.infos| == 3
    decreases NumChunks(|bytes|, max), 2
  {
    if |bytes| < MIN_ENCRYPTABLE_BYTES then Failure(TooSmall)
    else
      NumChunksAtLeast3(|bytes|, max);
      EncryptPieces(cr, max, Cut(bytes, |bytes|, max), level)
  }

  /** Encrypts the map's own encoding, again and again while the map has more than three entries. */
  ghost function Shrink(cr: Suite, max: nat, m: DataMap): (r: Result<(DataMap, seq<Bytes>)>)
    requires Ends(max, |m.infos|)
    ensures r.Success? && |m.infos| >= 3 ==> |r.value.0.infos| == 3
    decreases Weight(m), 0
  {
    if |m.infos| <= 3 then Success((m, []))
    else
      ShrinkingDescends(m, max);
      var (inner, chunks) :- EncryptAt(cr, max, ToBytes(m), NextLevel(m));
      SortKeepsLength(inner.infos);
      After(chunks, Shrink(cr, max, WithChild(inner.infos, NextLevel(m))))
  }

  lemma {:induction false} InsertKeepsLength(info: ChunkInfo, sorted: seq<ChunkInfo>)
    ensures |InsertByIndex(info, sorted)| == |sorted| + 1
  {
    if sorted != [] {
      InsertKeepsLength(info, sorted[1..]);
    }
  }

  lemma {:induction false} SortKeepsLength(infos: seq<ChunkInfo>)
    ensures |SortByIndex(infos)| == |infos|
  {
    if infos != [] {
      SortKeepsLength(infos[..|infos| - 1]);
      InsertKeepsLength(infos[|infos| - 1], SortByIndex(infos[..|infos| - 1]));
    }
  }

  lemma {:induction false} InsertLargest(info: ChunkInfo, sorted: seq<ChunkInfo>)
    requires forall x | x in sorted :: x.index <= info.index
    ensures InsertByIndex(info, sorted) == sorted + [info]
  {
    if sorted != [] {
      InsertLargest(info, sorted[1..]);
      assert sorted == [sorted[0]] + sorted[1..];
    }
  }

  /** Sorting leaves a list alone whose indices never decrease. */
  lemma {:induction false} SortIsIdentity(infos: seq<ChunkInfo>)
    requires forall i, j | 0 <= i < j < |infos| :: infos[i].index <= infos[j].index
    ensures SortByIndex(infos) == infos
  {
    if infos != [] {
      var most := infos[..|infos| - 1];
      SortIsIdentity(most);
      InsertLargest(infos[|infos| - 1], most);
      assert most + [infos[|infos| - 1]] == infos;
    }
  }

  /** A map of four or more entries encodes to fewer chunks than it has entries; a child map, whose encoding
      is eight bytes longer, to no more. */
  lemma ShrinkingDescends(m: DataMap, max: nat)
    requires max >= LEAST_MAX && |m.infos| > 3
    ensures NumChunks(|ToBytes(m)|, max) < Weight(m)
    ensures !m.IsChild() ==> NumChunks(|ToBytes(m)|, max) < |m.infos|
  {
    var n, length := |m.infos|, |ToBytes(m)|;
    if length >= 3 * max {
      NumChunksIsCeiling(length, max);
      var chunks := NumChunks(length, max);
      MulLe(LEAST_MAX, max, chunks - 1);
      assert LEAST_MAX * (chunks - 1) < 80 * n + 18;
    }
  }

  /** The measure in bytes: the encoding of a data set's root map is shorter than the data. */
  lemma EncodingIsShorterThanData(size: nat, m: DataMap, max: nat)
    requires max >= LEAST_MAX && !m.IsChild()
    requires |m.infos| == NumChunks(size, max) >= 4
    ensures |ToBytes(m)| < size
  {
    NumChunksIsCeiling(size, max);
    var n := NumChunks(size, max);
    MulLe(LEAST_MAX, max, n - 1);
  }

  /** Encryption in which encryption and shrinking call each other no more than `rounds` deep; None if that is not
      enough. */
  ghost function EncryptWithin(cr: Suite, max: nat, bytes: Bytes, level: nat, rounds: nat): Option<Result<(DataMap,
        seq<Bytes>)>>
    requires max >= 1
    decreases rounds, 1
  {
    if |bytes| < MIN_ENCRYPTABLE_BYTES then Some(Failure(TooSmall))
    else
      var pieces := Cut(bytes, |bytes|, max);
      if !AllSealed(cr, pieces, level) then Some(Failure(Sealing))
      else AfterWithin(Sealed(cr, pieces, level), ShrinkWithin(cr, max, MapOf(cr, pieces, level), rounds))
  }

  ghost function ShrinkWithin(cr: Suite, max: nat, m: DataMap, rounds: nat): Option<Result<(DataMap, seq<Bytes>)>>
    requires max >= 1
    decreases rounds, 0
  {
    if |m.infos| <= 3 then Some(Success((m, [])))
    else if rounds == 0 then None
    else
      var inner := EncryptWithin(cr, max, ToBytes(m), NextLevel(m), rounds - 1);
      if inner.None? || inner.value.Failure? then inner
      else
        var (newMap, chunks) := inner.value.value;
        AfterWithin(chunks, ShrinkWithin(cr, max, WithChild(newMap.infos, NextLevel(m)), rounds - 1))
  }

  ghost function AfterWithin(chunks: seq<Bytes>, r: Option<Result<(DataMap, seq<Bytes>)>>)
    : Option<Result<(DataMap, seq<Bytes>)>>
  {
    if r.None? then None else Some(After(chunks, r.value))
  }

  /** Where it ends, as many rounds as there are chunks are enough, and the result is that of encryption. */
  lemma {:induction false} EncryptWithinIsEncrypt(cr: Suite, max: nat, bytes: Bytes, level: nat, rounds: nat)
    requires max >= 1 && Ends(max, NumChunks(|bytes|, max)) && rounds >= NumChunks(|bytes|, max)
    ensures EncryptWithin(cr, max, bytes, level, rounds) == Some(EncryptAt(cr, max, bytes, level))
    decreases rounds, 1
  {
    if |bytes| >= MIN_ENCRYPTABLE_BYTES {
      var pieces := Cut(bytes, |bytes|, max);
      NumChunksAtLeast3(|bytes|, max);
      if AllSealed(cr, pieces, level) { ShrinkWithinIsShrink(cr, max, MapOf(cr, pieces, level), rounds); }
    }
  }

  lemma {:induction false} ShrinkWithinIsShrink(cr: Suite, max: nat, m: DataMap, rounds: nat)
    requires Ends(max, |m.infos|) && rounds >= Weight(m)
    ensures ShrinkWithin(cr, max, m, rounds) == Some(Shrink(cr, max, m))
    decreases rounds, 0
  {
    if |m.infos| > 3 {
      ShrinkingDescends(m, max);
      ShrinkTakesOneRound(cr, max, m);
      EncryptWithinIsEncrypt(cr, max, ToBytes(m), NextLevel(m), rounds - 1);
      var inner := EncryptAt(cr, max, ToBytes(m), NextLevel(m));
      if inner.Success? {
        SortKeepsLength(inner.value.0.infos);
        assert inner.value.1 + [] == inner.value.1;
      }
    }
  }

  /** Below 110 the encoding of a map with four entries or more has four chunks or more again. */
  lemma EncodingHasFourChunks(m: DataMap, max: nat)
    requires 1 <= max < LEAST_MAX && |m.infos| >= 4
    ensures NumChunks(|ToBytes(m)|, max) >= 4
  {
    var length := |ToBytes(m)|;
    NumChunksIsCeiling(length, max);
    var chunks := NumChunks(length, max);
    if chunks <= 3 { MulLe(chunks, 3, max); }
  }

  /** Whatever is cut into three pieces or more can be sealed. */
  ghost predicate SealsAll(cr: Suite) {
    forall pieces, level | |pieces| >= 3 :: AllSealed(cr, pieces, level)
  }

  /** Where it does not end, no number of rounds leads to a result: it goes on without end unless a chunk fails to
      seal. */
  lemma {:induction false} NeverBottomsOut(cr: Suite, max: nat, bytes: Bytes, level: nat, rounds: nat)
    requires max >= 1 && !Ends(max, NumChunks(|bytes|, max))
    ensures var r := EncryptWithin(cr, max, bytes, level, rounds);
            r == None || (r == Some(Failure(Sealing)) && !SealsAll(cr))
    decreases rounds
  {
    hide NumChunks, Cut, PieceAt, ToBytes, Sealed, MapOf;
    NumChunksAtLeast3(|bytes|, max);
    var pieces := Cut(bytes, |bytes|, max);
    if AllSealed(cr, pieces, level) && rounds > 0 {
      var m := MapOf(cr, pieces, level);
      EncodingHasFourChunks(m, max);
      NeverBottomsOut(cr, max, ToBytes(m), NextLevel(m), rounds - 1);
    }
  }

  /** With a suite that seals everything, encryption comes to an end if and only if the maximum is 110 or more or the
      data has no more than three chunks. */
  lemma EndsExactly(cr: Suite, max: nat, bytes: Bytes, level: nat)
    requires max >= 1 && SealsAll(cr)
    ensures (exists rounds: nat :: EncryptWithin(cr, max, bytes, level, rounds).Some?) <==> Ends(max, NumChunks(|bytes|, max))
  {
    if Ends(max, NumChunks(|bytes|, max)) {
      EncryptWithinIsEncrypt(cr, max, bytes, level, NumChunks(|bytes|, max));
    } else {
      forall rounds: nat
        ensures EncryptWithin(cr, max, bytes, level, rounds).None?
      {
        NeverBottomsOut(cr, max, bytes, level, rounds);
      }
    }
  }

  /** Shrinking a map with more than three entries takes one round: encryption already returns three. */
  lemma ShrinkTakesOneRound(cr: Suite, max: nat, m: DataMap)
    requires Ends(max, |m.infos|) && |m.infos| > 3
    ensures var level := NextLevel(m);
            var r := EncryptAt(cr, max, ToBytes(m), level);
            Shrink(cr, max, m) ==
            if r.Failure? then Failure(r.error)
            else Success((WithChild(r.value.0.infos, level), r.value.1))
  {
    var r := EncryptAt(cr, max, ToBytes(m), NextLevel(m));
    if r.Success? {
      SortKeepsLength(r.value.0.infos);
      assert r.value.1 + [] == r.value.1;
    }
  }

  lemma SealsUnless(cr: Suite, pieces: seq<Bytes>, level: nat, i: nat)
    requires |pieces| >= 3 && i < |pieces|
    ensures SealPiece(cr, pieces, level, i).Success? || SealPiece(cr, pieces, level, i) == Failure(Sealing)
  {
    KeyMaterial(cr, i, SrcHashes(cr, pieces), level);
  }

  /** What the root map says of chunk `i`, and how it was sealed: its index, the hash of the sealed chunk, the hash and the
      length of the piece; sealed with the key of the piece's own hash and of those of the two pieces before it, counted
      in a circle. */
  lemma PieceIsDescribed(cr: Suite, pieces: seq<Bytes>, level: nat, i: nat)
    requires |pieces| >= 3 && AllSealed(cr, pieces, level) && i < |pieces|
    ensures var chunk, n := Sealed(cr, pieces, level)[i], |pieces|;
            && MapOf(cr, pieces, level).infos[i] == ChunkInfo(i, cr.hash(chunk), cr.hash(pieces[i]), |pieces[i]|)
            && Success(chunk) == EncryptChunk(cr, pieces[i],
                                              GetPki(cr, cr.hash(pieces[i]), cr.hash(pieces[(i + n - 1) % n]),
                                                     cr.hash(pieces[(i + n - 2) % n]), i, level))
  {
    hide EncryptChunk, GetPki;
    KeyMaterial(cr, i, SrcHashes(cr, pieces), level);
    assert SealPiece(cr, pieces, level, i).Success?;
  }

  /** With three bytes or more, encryption fails only because some chunk cannot be sealed. */
  lemma {:induction false} FailsToSeal(cr: Suite, max: nat, bytes: Bytes, level: nat)
    requires max >= 1 && Ends(max, NumChunks(|bytes|, max)) && |bytes| >= 3
    ensures EncryptAt(cr, max, bytes, level).Success? || EncryptAt(cr, max, bytes, level) == Failure(Sealing)
    ensures SealsAll(cr) ==> EncryptAt(cr, max, bytes, level).Success?
    decreases NumChunks(|bytes|, max), 1
  {
    hide Cut, PieceAt, NumChunks, ToBytes;
    var pieces := Cut(bytes, |bytes|, max);
    NumChunksAtLeast3(|bytes|, max);
    if AllSealed(cr, pieces, level) { ShrinkFailsToSeal(cr, max, MapOf(cr, pieces, level)); }
  }

  lemma {:induction false} ShrinkFailsToSeal(cr: Suite, max: nat, m: DataMap)
    requires Ends(max, |m.infos|)
    ensures Shrink(cr, max, m).Success? || Shrink(cr, max, m) == Failure(Sealing)
    ensures SealsAll(cr) ==> Shrink(cr, max, m).Success?
    decreases Weight(m), 0
  {
    hide Cut, PieceAt, NumChunks, ToBytes, EncryptAt;
    if |m.infos| > 3 {
      ShrinkingDescends(m, max);
      ShrinkTakesOneRound(cr, max, m);
      FailsToSeal(cr, max, ToBytes(m), NextLevel(m));
    }
  }

  /** A map of up to three entries stays as it is; any other is replaced by a child map of three entries, at level 1 if it
      was a root map and one level up if it was a child map. */
  lemma ShrinkTags(cr: Suite, max: nat, m: DataMap)
    requires Ends(max, |m.infos|) && Shrink(cr, max, m).Success?
    ensures var (shrunk, chunks) := Shrink(cr, max, m).value;
            if |m.infos| <= 3 then shrunk == m && chunks == []
            else |shrunk.infos| == 3 && chunks != [] && shrunk.child == Some(m.Level() + 1)
  {
    hide Cut, PieceAt, NumChunks, ToBytes;
    if |m.infos| > 3 {
      ShrinkTakesOneRound(cr, max, m);
      var inner := EncryptAt(cr, max, ToBytes(m), NextLevel(m));
      SortKeepsLength(inner.value.0.infos);
      EncryptAtCount(cr, max, ToBytes(m), NextLevel(m));
    }
  }

  lemma EncryptAtCount(cr: Suite, max: nat, bytes: Bytes, level: nat)
    requires max >= 1 && Ends(max, NumChunks(|bytes|, max)) && EncryptAt(cr, max, bytes, level).Success?
    ensures |EncryptAt(cr, max, bytes, level).value.1| >= 3
  {
    NumChunksAtLeast3(|bytes|, max);
    var pieces := Cut(bytes, |bytes|, max);
    assert EncryptAt(cr, max, bytes, level) == EncryptPieces(cr, max, pieces, level);
    assert |Sealed(cr, pieces, level)| >= 3;
  }

  /** What the loop of EncryptWithChildLevel has built after `done` chunks: seals and entries of chunks 2 and up. */
  ghost predicate SealedSoFar(cr: Suite, pieces: seq<Bytes>, level: nat, done: nat, chunks: seq<Bytes>,
        infos: seq<ChunkInfo>)
    requires done <= |pieces|
  {
    && |chunks| == |infos| == SaturatingSub(done, 2)
    && forall i | 2 <= i < done ::
         && SealPiece(cr, pieces, level, i) == Success(chunks[i - 2])
         && infos[i - 2] == InfoOf(cr, pieces, level, i)
  }

  lemma SealedExtends(cr: Suite, pieces: seq<Bytes>, level: nat, done: nat, chunks: seq<Bytes>, infos: seq<ChunkInfo>,
        chunk: Bytes)
    requires 2 <= done < |pieces| && SealedSoFar(cr, pieces, level, done, chunks, infos)
    requires SealPiece(cr, pieces, level, done) == Success(chunk)
    ensures SealedSoFar(cr, pieces, level, done + 1, chunks + [chunk], infos + [InfoOf(cr, pieces, level, done)])
  {
    var chunks', infos' := chunks + [chunk], infos + [InfoOf(cr, pieces, level, done)];
    forall i | 2 <= i < done + 1
      ensures SealPiece(cr, pieces, level, i) == Success(chunks'[i - 2])
      ensures infos'[i - 2] == InfoOf(cr, pieces, level, i)
    {
      if i < done {
        assert SealPiece(cr, pieces, level, i) == Success(chunks[i - 2]);
      }
    }
  }

  lemma PrefixSeals(cr: Suite, pieces: seq<Bytes>, level: nat, index: nat)
    requires 2 <= index < |pieces|
    ensures GetPadKeyAndNonce(cr, index, SrcHashes(cr, pieces)[..index + 1], level)
         == GetPadKeyAndNonce(cr, index, SrcHashes(cr, pieces), level)
  {
    var hashes := SrcHashes(cr, pieces);
    assert hashes[..index + 1][index - 2..index + 1] == hashes[index - 2..index + 1];
    KeyScheduleStable(cr, index, hashes[..index + 1], hashes, level);
  }

  /** A chunk put aside until all source hashes are known: index, data, source hash, size. */
  datatype FirstChunk = FirstChunk(index: nat, data: Bytes, srcHash: Name, srcSize: nat)

  ghost predicate PutAside(cr: Suite, pieces: seq<Bytes>, firstChunks: seq<FirstChunk>) {
    forall k | 0 <= k < |firstChunks| ::
      k < |pieces| && firstChunks[k] == FirstChunk(k, pieces[k], cr.hash(pieces[k]), |pieces[k]|)
  }

  /** The slice of chunk `index` and its size. */
  method ReadChunk(bytes: Bytes, max: nat, index: nat) returns (chunkData: Bytes, srcSize: nat)
    requires max >= 1 && |bytes| >= 3 && index < NumChunks(|bytes|, max)
    ensures chunkData == PieceAt(bytes, |bytes|, max, index)
    ensures srcSize == |chunkData| > 0
  {
    var (start, end) := StartEnd(|bytes|, index, max);
    Tiling(|bytes|, index, max);
    chunkData := bytes[start..end];
    srcSize := end - start;
  }

  /** The first loop of encryption: reads all chunks, seals chunk 2 and up at once, puts chunks 0 and 1 aside. */
  method SealLaterChunks(cr: Suite, max: nat, bytes: Bytes, level: nat, ghost pieces: seq<Bytes>)
    returns (ok: bool, srcHashes: seq<Name>, firstChunks: seq<FirstChunk>, chunks: seq<Bytes>, infos: seq<ChunkInfo>)
    requires max >= 1 && |bytes| >= 3 && pieces == Cut(bytes, |bytes|, max)
    ensures ok ==> srcHashes == SrcHashes(cr, pieces)
    ensures ok ==> |firstChunks| == Min(|pieces|, 2) && PutAside(cr, pieces, firstChunks)
    ensures ok ==> SealedSoFar(cr, pieces, level, |pieces|, chunks, infos)
    ensures !ok ==> !AllSealed(cr, pieces, level)
  {
    var fileSize := |bytes|;
    var numChunks := NumChunks(fileSize, max);
    NumChunksAtLeast3(fileSize, max);
    ok, srcHashes, firstChunks, chunks, infos := true, [], [], [], [];
    for chunkIndex := 0 to numChunks
      invariant srcHashes == SrcHashes(cr, pieces)[..chunkIndex]
      invariant |firstChunks| == Min(chunkIndex, 2) && PutAside(cr, pieces, firstChunks)
      invariant SealedSoFar(cr, pieces, level, chunkIndex, chunks, infos)
    {
      var chunkData, srcSize := ReadChunk(bytes, max, chunkIndex);
      var srcHash := cr.hash(chunkData);
      PrefixSnoc(SrcHashes(cr, pieces), chunkIndex);
      srcHashes := srcHashes + [srcHash];
      if chunkIndex < 2 {
        firstChunks := firstChunks + [FirstChunk(chunkIndex, chunkData, srcHash, srcSize)];
      } else {
        PrefixSeals(cr, pieces, level, chunkIndex);
        var encrypted := SealWith(cr, chunkIndex, chunkData, srcHashes, level);
        assert encrypted == SealPiece(cr, pieces, level, chunkIndex);
        if encrypted.Failure? {
          ok := false;
          return;
        }
        SealedExtends(cr, pieces, level, chunkIndex, chunks, infos, encrypted.value);
        chunks := chunks + [encrypted.value];
        var info := ChunkInfo(chunkIndex, cr.hash(encrypted.value), srcHash, srcSize);
        assert info == InfoOf(cr, pieces, level, chunkIndex);
        infos := infos + [info];
      }
    }
  }

  /** The second loop of encryption: seals chunks 0 and 1 and inserts them in front of the others. */
  method SealFirstChunks(cr: Suite, level: nat, srcHashes: seq<Name>, firstChunks: seq<FirstChunk>,
                         laterChunks: seq<Bytes>, laterInfos: seq<ChunkInfo>, ghost pieces: seq<Bytes>)
    returns (ok: bool, chunks: seq<Bytes>, infos: seq<ChunkInfo>)
    requires |pieces| >= 3 && srcHashes == SrcHashes(cr, pieces)
    requires |firstChunks| == 2 && PutAside(cr, pieces, firstChunks)
    requires SealedSoFar(cr, pieces, level, |pieces|, laterChunks, laterInfos)
    ensures ok <==> AllSealed(cr, pieces, level)
    ensures ok ==> chunks == Sealed(cr, pieces, level) && infos == MapOf(cr, pieces, level).infos
  {
    ok, chunks, infos := true, laterChunks, laterInfos;
    for k := 0 to |firstChunks|
      invariant forall i | 0 <= i < k :: SealPiece(cr, pieces, level, i).Success?
      invariant chunks == FirstSeals(cr, pieces, level, k) + laterChunks
      invariant infos == FirstInfos(cr, pieces, level, k) + laterInfos
    {
      var FirstChunk(chunkIndex, chunkData, srcHash, srcSize) := firstChunks[k];
      var encrypted := SealWith(cr, chunkIndex, chunkData, srcHashes, level);
      assert encrypted == SealPiece(cr, pieces, level, k);
      if encrypted.Failure? {
        ok := false;
        return;
      }
      InsertBetween(FirstSeals(cr, pieces, level, k), encrypted.value, laterChunks);
      InsertBetween(FirstInfos(cr, pieces, level, k), InfoOf(cr, pieces, level, k), laterInfos);
      FirstGrows(cr, pieces, level, k);
      chunks := chunks[..chunkIndex] + [encrypted.value] + chunks[chunkIndex..];
      var info := ChunkInfo(chunkIndex, cr.hash(encrypted.value), srcHash, srcSize);
      infos := infos[..chunkIndex] + [info] + infos[chunkIndex..];
    }
    AllPiecesSealed(cr, pieces, level, laterChunks, laterInfos);
  }

  /** Encrypts bytes at a level: their chunks in order, then the shrink chunks. */
  method EncryptWithChildLevel(cr: Suite, max: nat, bytes: Bytes, level: nat) returns (r: Result<(DataMap, seq<Bytes>)>)
    requires max >= 1 && Ends(max, NumChunks(|bytes|, max))
    ensures r == EncryptAt(cr, max, bytes, level)
    decreases NumChunks(|bytes|, max), 2
  {
    hide SealPiece, PieceAt, ToBytes, SortByIndex;
    if |bytes| < MIN_ENCRYPTABLE_BYTES {
      return Failure(TooSmall);
    }
    ghost var pieces := Cut(bytes, |bytes|, max);
    NumChunksAtLeast3(|bytes|, max);
    var ok, srcHashes, firstChunks, laterChunks, laterInfos := SealLaterChunks(cr, max, bytes, level, pieces);
    if !ok { return Failure(Sealing); }
    var encryptedChunks, chunkInfos;
    ok, encryptedChunks, chunkInfos := SealFirstChunks(cr, level, srcHashes, firstChunks, laterChunks, laterInfos, pieces);
    if !ok { return Failure(Sealing); }
    var dataMap := NewMap(chunkInfos);
    SortIsIdentity(chunkInfos);
    assert dataMap == MapOf(cr, pieces, level);
    assert EncryptAt(cr, max, bytes, level) == EncryptPieces(cr, max, pieces, level);
    var shrunk := ShrinkAll(cr, max, dataMap);
    if shrunk.Failure? { return Failure(shrunk.error); }
    r := Success((shrunk.value.0, encryptedChunks + shrunk.value.1));
  }

  ghost function FirstSeals(cr: Suite, pieces: seq<Bytes>, level: nat, k: nat): (r: seq<Bytes>)
    requires k <= |pieces| && forall i | 0 <= i < k :: SealPiece(cr, pieces, level, i).Success?
    ensures |r| == k
  {
    seq(k, i requires 0 <= i < k => SealPiece(cr, pieces, level, i).value)
  }

  ghost function FirstInfos(cr: Suite, pieces: seq<Bytes>, level: nat, k: nat): (r: seq<ChunkInfo>)
    requires k <= |pieces| && forall i | 0 <= i < k :: SealPiece(cr, pieces, level, i).Success?
    ensures |r| == k
  {
    seq(k, i requires 0 <= i < k => InfoOf(cr, pieces, level, i))
  }

  lemma InsertBetween<T>(a: seq<T>, x: T, b: seq<T>)
    ensures (a + b)[..|a|] + [x] + (a + b)[|a|..] == a + [x] + b
  {
  }

  lemma FirstGrows(cr: Suite, pieces: seq<Bytes>, level: nat, k: nat)
    requires k < |pieces| && forall i | 0 <= i <= k :: SealPiece(cr, pieces, level, i).Success?
    ensures FirstSeals(cr, pieces, level, k + 1) == FirstSeals(cr, pieces, level, k) + [SealPiece(cr, pieces, level, k).value]
    ensures FirstInfos(cr, pieces, level, k + 1) == FirstInfos(cr, pieces, level, k) + [InfoOf(cr, pieces, level, k)]
  {
  }

  lemma AllPiecesSealed(cr: Suite, pieces: seq<Bytes>, level: nat, chunks: seq<Bytes>, infos: seq<ChunkInfo>)
    requires |pieces| >= 3
    requires SealedSoFar(cr, pieces, level, |pieces|, chunks, infos)
    requires SealPiece(cr, pieces, level, 0).Success? && SealPiece(cr, pieces, level, 1).Success?
    ensures AllSealed(cr, pieces, level)
    ensures FirstSeals(cr, pieces, level, 2) + chunks == Sealed(cr, pieces, level)
    ensures FirstInfos(cr, pieces, level, 2) + infos == MapOf(cr, pieces, level).infos
  {
    hide SealPiece, InfoOf;
    forall i | 0 <= i < |pieces|
      ensures SealPiece(cr, pieces, level, i).Success?
    {
      if i >= 2 { assert SealPiece(cr, pieces, level, i) == Success(chunks[i - 2]); }
    }
  }

  /** Whether a store function takes a chunk, given what it took before. */
  type Store = (seq<Bytes>, Bytes) -> bool

  /** The chunks stored before the first that is refused. */
  function StoredOf(store: Store, chunks: seq<Bytes>): (r: seq<Bytes>)
    ensures |r| <= |chunks|
  {
    if chunks == [] then []
    else
      var last := |chunks| - 1;
      var most := StoredOf(store, chunks[..last]);
      if |most| == last && store(most, chunks[last]) then most + [chunks[last]] else most
  }

  lemma StoredSnoc(store: Store, chunks: seq<Bytes>, k: nat)
    requires k < |chunks| && StoredOf(store, chunks[..k]) == chunks[..k]
    ensures StoredOf(store, chunks[..k + 1]) == if store(chunks[..k], chunks[k]) then chunks[..k + 1] else chunks[..k]
  {
    assert chunks[..k + 1][..k] == chunks[..k];
  }

  lemma {:induction false} StoredStops(store: Store, chunks: seq<Bytes>, k: nat, end: nat)
    requires k < end <= |chunks| && StoredOf(store, chunks[..k + 1]) == chunks[..k]
    ensures StoredOf(store, chunks[..end]) == chunks[..k]
  {
    if k + 1 < end {
      StoredStops(store, chunks, k, end - 1);
      assert chunks[..end][..end - 1] == chunks[..end - 1];
    }
  }

  /** A store function that takes everything stores everything. */
  lemma {:induction false} EverythingStored(store: Store, chunks: seq<Bytes>)
    requires forall before, chunk :: store(before, chunk)
    ensures StoredOf(store, chunks) == chunks
  {
    if chunks != [] {
      EverythingStored(store, chunks[..|chunks| - 1]);
    }
  }

  /** Hands the chunks to the store function, up to the first that it refuses. */
  method StoreChunks(store: Store, chunks: seq<Bytes>) returns (stored: seq<Bytes>)
    ensures stored == StoredOf(store, chunks) && stored <= chunks
  {
    stored := [];
    assert chunks[..|chunks|] == chunks;
    for i := 0 to |chunks|
      invariant stored == chunks[..i] == StoredOf(store, chunks[..i])
    {
      StoredSnoc(store, chunks, i);
      if !store(stored, chunks[i]) {
        StoredStops(store, chunks, i, |chunks|);
        return;
      }
      stored := stored + [chunks[i]];
    }
  }

  lemma ShrinkNothing(cr: Suite, max: nat, m: DataMap, store: Store)
    requires Ends(max, |m.infos|)
    ensures |m.infos| <= 3 ==> Shrink(cr, max, m) == Success((m, [])) && StoredOf(store, []) == []
    ensures |m.infos| > 3 ==> Weight(m) > 3
  {
  }

  /** Shrinks a map, handing each new chunk to the caller's store function; `stored` is what it took. Nothing is
      stored unless the whole encryption succeeds, and a refused chunk ends the shrinking. */
  method ShrinkDataMap(cr: Suite, max: nat, m: DataMap, store: Store)
    returns (r: Result<(DataMap, seq<Bytes>)>, stored: seq<Bytes>)
    requires Ends(max, |m.infos|)
    ensures var shrunk := Shrink(cr, max, m);
            if shrunk.Failure? then r == shrunk && stored == []
            else
              && stored == StoredOf(store, shrunk.value.1) && stored <= shrunk.value.1
              && r == if stored == shrunk.value.1 then shrunk else Failure(StoreFailed)
    decreases Weight(m), 0
  {
    hide Shrink, EncryptAt, ToBytes, SortByIndex, StoredOf, Weight;
    ShrinkNothing(cr, max, m, store);
    var dataMap := m;
    var allChunks: seq<Bytes> := [];
    stored := [];
    while |dataMap.infos| > 3
      invariant if |dataMap.infos| > 3 then dataMap == m && allChunks == [] && stored == []
                else
                  && Shrink(cr, max, m) == Success((dataMap, allChunks))
                  && stored == allChunks == StoredOf(store, allChunks)
      decreases |dataMap.infos|
    {
      var nextLevel := NextLevel(dataMap);
      var bytes := ToBytes(dataMap);
      ShrinkingDescends(dataMap, max);
      ShrinkTakesOneRound(cr, max, dataMap);
      var encrypted := EncryptWithChildLevel(cr, max, bytes, nextLevel);
      if encrypted.Failure? { return Failure(encrypted.error), stored; }
      var (newMap, chunks) := encrypted.value;
      var taken := StoreChunks(store, chunks);
      assert [] + taken == taken && [] + chunks == chunks;
      stored := stored + taken;
      if |taken| < |chunks| { return Failure(StoreFailed), stored; }
      SortKeepsLength(newMap.infos);
      dataMap := WithChild(newMap.infos, nextLevel);
      allChunks := allChunks + chunks;
    }
    r := Success((dataMap, allChunks));
  }

  /** The store function of encryption itself takes every chunk. */
  method ShrinkAll(cr: Suite, max: nat, m: DataMap) returns (r: Result<(DataMap, seq<Bytes>)>)
    requires Ends(max, |m.infos|)
    ensures r == Shrink(cr, max, m)
    decreases Weight(m), 1
  {
    var store: Store := (before: seq<Bytes>, chunk: Bytes) => true;
    var stored;
    r, stored := ShrinkDataMap(cr, max, m, store);
    if Shrink(cr, max, m).Success? { EverythingStored(store, Shrink(cr, max, m).value.1); }
  }

  /** Encrypts a byte string. */
  method EncryptBytes(cr: Suite, max: nat, bytes: Bytes) returns (r: Result<(DataMap, seq<Bytes>)>)
    requires max >= 1 && Ends(max, NumChunks(|bytes|, max))
    ensures r == EncryptAt(cr, max, bytes, 0)
    ensures r.Success? ==> |r.value.0.infos| == 3
    ensures r == Failure(TooSmall) <==> |bytes| < 3
    ensures r.Failure? && |bytes| >= 3 ==> r.error == Sealing && !SealsAll(cr)
  {
    if |bytes| >= 3 { FailsToSeal(cr, max, bytes, 0); }
    r := EncryptWithChildLevel(cr, max, bytes, 0);
  }
}
