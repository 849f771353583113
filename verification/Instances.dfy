/** Libraries simple enough to compute with, for which the failures of the code can be shown without any
    assumption. */
module Instances {
  import opened Prelude
  import opened Layout
  import opened Crypto
  import opened Codec
  import opened Encrypt
  import opened Decrypt
  import opened RoundTrip
  import opened Parallel
  import opened Agreement
  import opened EndToEnd

  function Zeros(length: nat): (r: Bytes)
    ensures |r| == length
  {
    seq(length, _ => 0)
  }

  lemma {:induction false} XorBitsZero(a: nat, width: nat)
    requires a < Power2(width)
    ensures XorBits(a, 0, width) == a
    decreases width
  {
    if width > 0 {
      XorBitsZero(a / 2, width - 1);
    }
  }

  lemma XorZeros(data: Bytes)
    ensures Xor(data, Zeros(PAD_SIZE)) == data
  {
    Power2Of8();
    forall i | 0 <= i < |data|
      ensures XorByte(data[i], 0) == data[i]
    {
      XorBitsZero(data[i] as nat, 8);
    }
  }

  // Sealing that changes nothing.

  const NAME_OF_PAIRS: Name := seq(32, _ => 0)
  const NAME_OF_OTHERS: Name := seq(32, _ => 1)

  /** Chunks are stored as they are, under one of two names. */
  function PlainSuite(): Suite {
    Suite(x => if |x| == 2 then NAME_OF_PAIRS else NAME_OF_OTHERS, _ => Zeros(96), x => Some(x), x => Some(x),
          (_, _, x) => Some(x), (_, _, x) => Some(x))
  }

  lemma PlainSeals(pieces: seq<Bytes>, level: nat)
    requires |pieces| >= 3
    ensures AllSealed(PlainSuite(), pieces, level) && Sealed(PlainSuite(), pieces, level) == pieces
  {
    var cr := PlainSuite();
    forall i | 0 <= i < |pieces|
      ensures SealPiece(cr, pieces, level, i) == Success(pieces[i])
    {
      var pki := GetPadKeyAndNonce(cr, i, SrcHashes(cr, pieces), level).value;
      assert pki.pad == Zeros(PAD_SIZE);
      XorZeros(pieces[i]);
    }
  }

  /** One byte below the least maximum, no data of more than three chunks is ever done. */
  lemma PlainNeverEnds(bytes: Bytes, rounds: nat)
    requires |bytes| > 3 * (LEAST_MAX - 1)
    ensures EncryptWithin(PlainSuite(), LEAST_MAX - 1, bytes, 0, rounds) == None
  {
    forall pieces, level | |pieces| >= 3
      ensures AllSealed(PlainSuite(), pieces, level)
    {
      PlainSeals(pieces, level);
    }
    ThreeChunksWhenShort(|bytes|, LEAST_MAX - 1);
    NumChunksAtLeast3(|bytes|, LEAST_MAX - 1);
    NeverBottomsOut(PlainSuite(), LEAST_MAX - 1, bytes, 0, rounds);
  }

  /** A root map without entries, cut into three pieces of which two are the same. */
  function Halves(): seq<Bytes> {
    [[1, 0], [0, 0, 0, 0], [0, 0, 0, 0]]
  }

  /** The child map that wraps it. */
  ghost function RepeatingMap(): DataMap {
    PlainSeals(Halves(), 1);
    DataMap(MapOf(PlainSuite(), Halves(), 1).infos, Some(1))
  }

  lemma HalvesAreAMap()
    ensures Concat(Halves()) == ToBytes(DataMap([], None))
  {
    var a: Bytes, b: Bytes := [1, 0], [0, 0, 0, 0];
    assert Halves()[..2] == [a, b] && [a, b][..1] == [a] && [a][..0] == [];
    assert Concat([a]) == a;
    assert U64(0) == Zeros(8);
  }

  /** A getter that has its chunks. */
  function HalvesGetter(): Getter {
    Lookup(Table(PlainSuite().hash, Halves()))
  }

  lemma HalvesCollideNot()
    ensures NoCollision(PlainSuite().hash, Halves())
  {
    NamesDiffer();
    forall x, y | x in Halves() && y in Halves() && PlainSuite().hash(x) == PlainSuite().hash(y)
      ensures x == y
    {
      assert |x| == 2 <==> |y| == 2;
    }
  }

  lemma PlainIsLawful()
    ensures Lawful(PlainSuite()) && Honest(PlainSuite(), HalvesGetter())
  {
    TableIsHonest(PlainSuite(), Halves());
  }

  lemma RepeatingWraps()
    ensures Wraps(PlainSuite(), HalvesGetter(), RepeatingMap(), DataMap([], None), Halves())
  {
    var cr := PlainSuite();
    PlainSeals(Halves(), 1);
    HalvesAreAMap();
    HalvesCollideNot();
    forall c | c in Halves()
      ensures HalvesGetter()(cr.hash(c)) == Success(c)
    {
      TableFinds(cr.hash, Halves(), c);
    }
  }

  /** A child map whose root map the sequential form finds, and the parallel form only for some orders of answers. */
  lemma OrderMatters() returns (batch: BatchGetter)
    ensures Lawful(PlainSuite()) && Honest(PlainSuite(), HalvesGetter()) && Serves(batch, HalvesGetter())
    ensures RootMap(PlainSuite(), HalvesGetter(), RepeatingMap(), 0) == Success(DataMap([], None))
    ensures RootMapBatch(PlainSuite(), batch, RepeatingMap(), map[], 0) == Failure(MissingChunk)
  {
    PlainIsLawful();
    RepeatingWraps();
    WrappedOnce(PlainSuite(), HalvesGetter(), RepeatingMap(), DataMap([], None), Halves());
    RepeatingIsUnclean(StepUp(PlainSuite(), HalvesGetter()));
    batch := LosingBatch(PlainSuite(), HalvesGetter(), RepeatingMap());
  }

  lemma RepeatingIsUnclean(step: DataMap -> Result<DataMap>)
    requires step(RepeatingMap()) == Success(DataMap([], None))
    ensures !Clean(step, RepeatingMap(), {}, 0)
  {
    var m := RepeatingMap();
    PlainSeals(Halves(), 1);
    assert m.infos[0].dstHash == NAME_OF_PAIRS && m.infos[1].dstHash == NAME_OF_OTHERS && m.infos[2].dstHash == NAME_OF_OTHERS;
    assert m.infos[0] in m.infos && m.infos[1] in m.infos;
    NamesDiffer();
    SubsetIsSmaller({NAME_OF_PAIRS, NAME_OF_OTHERS}, HashesOf(m.infos));
    OneStepClean(step, m, DataMap([], None));
  }

  lemma NamesDiffer()
    ensures NAME_OF_PAIRS != NAME_OF_OTHERS
  {
    assert NAME_OF_PAIRS[0] != NAME_OF_OTHERS[0];
  }

  // Sealing that puts the key in front.

  /** One byte of each hash, then index and level. */
  function KeyFrom(context: Bytes): (key: Bytes)
    requires |context| == 112
    ensures |key| == KEY_SIZE
  {
    [context[1], context[33], context[65]] + context[96..] + Zeros(13)
  }

  /** Key derivation by copying, names by cutting, sealing by putting the key in front. */
  function KeyedSuite(): Suite {
    Suite(x => if |x| >= 32 then x[..32] else x + Zeros(32 - |x|),
          context => Zeros(PAD_SIZE) + (if |context| == 112 then KeyFrom(context) else Zeros(KEY_SIZE)) + Zeros(NONCE_SIZE),
          x => Some(x), x => Some(x),
          (k, _, x) => Some(k + x), (k, _, x) => if k <= x then Some(x[|k|..]) else None)
  }

  function KeyOf(hashes: seq<Name>, index: nat, level: nat): (key: Bytes)
    requires |hashes| >= 3 && index < |hashes|
    ensures |key| == KEY_SIZE
  {
    var (n1, n2) := Neighbours(index, |hashes|).value;
    assert 0 <= n1 < |hashes| && 0 <= n2 < |hashes|;
    [hashes[index][1], hashes[n1][1], hashes[n2][1]] + U64(index) + U64(level) + Zeros(13)
  }

  lemma ContextParts(src: Name, n1: Name, n2: Name, index: nat, level: nat)
    ensures var context := KdfContext(src, n1, n2, index, level);
            && |context| == 112 && context[1] == src[1] && context[33] == n1[1] && context[65] == n2[1]
            && context[96..] == U64(index) + U64(level)
  {
    var context := KdfContext(src, n1, n2, index, level);
    assert context == src + (n1 + (n2 + (U64(index) + U64(level))));
  }

  lemma BlockParts(pad: Bytes, key: Bytes, nonce: Bytes)
    requires |pad| == PAD_SIZE && |key| == KEY_SIZE && |nonce| == NONCE_SIZE
    ensures var output := pad + key + nonce;
            output[..PAD_SIZE] == pad && output[PAD_SIZE..PAD_SIZE + KEY_SIZE] == key
  {
  }

  lemma KeyedPki(index: nat, hashes: seq<Name>, level: nat)
    requires |hashes| >= 3 && index < |hashes|
    ensures GetPadKeyAndNonce(KeyedSuite(), index, hashes, level).Success?
    ensures var pki := GetPadKeyAndNonce(KeyedSuite(), index, hashes, level).value;
            pki.pad == Zeros(PAD_SIZE) && pki.key == KeyOf(hashes, index, level)
  {
    var (n1, n2) := Neighbours(index, |hashes|).value;
    ContextParts(hashes[index], hashes[n1], hashes[n2], index, level);
    var context := KdfContext(hashes[index], hashes[n1], hashes[n2], index, level);
    BlockParts(Zeros(PAD_SIZE), KeyFrom(context), Zeros(NONCE_SIZE));
    assert KeyFrom(context) == KeyOf(hashes, index, level);
  }

  lemma KeyedSeals(pieces: seq<Bytes>, level: nat)
    requires |pieces| >= 3
    ensures AllSealed(KeyedSuite(), pieces, level)
    ensures var hashes, seals := SrcHashes(KeyedSuite(), pieces), Sealed(KeyedSuite(), pieces, level);
            forall i | 0 <= i < |pieces| ::
              seals[i] == KeyOf(hashes, i, level) + pieces[i] && KeyedSuite().hash(seals[i]) == KeyOf(hashes, i, level)
  {
    var cr, hashes := KeyedSuite(), SrcHashes(KeyedSuite(), pieces);
    forall i | 0 <= i < |pieces|
      ensures SealPiece(cr, pieces, level, i) == Success(KeyOf(hashes, i, level) + pieces[i])
      ensures cr.hash(KeyOf(hashes, i, level) + pieces[i]) == KeyOf(hashes, i, level)
    {
      KeyedPki(i, hashes, level);
      XorZeros(KeyOf(hashes, i, level) + pieces[i]);
      assert (KeyOf(hashes, i, level) + pieces[i])[..32] == KeyOf(hashes, i, level);
    }
  }

  /** Equal keys come from the same index and level, and agree in the bytes of the three hashes. */
  lemma KeyTells(a: seq<Name>, i: nat, u: nat, b: seq<Name>, j: nat, v: nat)
    requires |a| >= 3 && i < |a| < USIZE_LIMIT && |b| >= 3 && j < |b| < USIZE_LIMIT && u < USIZE_LIMIT
    requires v < USIZE_LIMIT
    requires KeyOf(a, i, u) == KeyOf(b, j, v)
    ensures i == j && u == v && KeyOf(a, i, u)[..3] == KeyOf(b, j, v)[..3]
  {
    var x, y := KeyOf(a, i, u), KeyOf(b, j, v);
    assert x[3..11] == U64(i) && y[3..11] == U64(j) && x[11..19] == U64(u) && y[11..19] == U64(v);
    U64RoundTrip(i);
    U64RoundTrip(j);
    U64RoundTrip(u);
    U64RoundTrip(v);
  }

  /** Of the first three chunks of a data set, each key has a byte of the first source hash at the chunk's own place. */
  lemma KeyShowsFirst(hashes: seq<Name>, i: nat, level: nat)
    requires |hashes| >= 3 && i < 3
    ensures KeyOf(hashes, i, level)[..3][i] == hashes[0][1]
  {
  }

  lemma {:induction false} KeyedEncrypts(pieces: seq<Bytes>, level: nat)
    requires |pieces| >= 3
    ensures EncryptPieces(KeyedSuite(), LEAST_MAX, pieces, level).Success?
    decreases |pieces|
  {
    var cr := KeyedSuite();
    KeyedSeals(pieces, level);
    if |pieces| > 3 {
      var m := MapOf(cr, pieces, level);
      NextPiecesFacts(cr, LEAST_MAX, pieces, level);
      KeyedEncrypts(NextPieces(cr, LEAST_MAX, pieces, level), 1);
      ShrinkTakesOneRound(cr, LEAST_MAX, m);
      assert EncryptAt(cr, LEAST_MAX, ToBytes(m), 1) == EncryptPieces(cr, LEAST_MAX, NextPieces(cr, LEAST_MAX, pieces, level), 1);
    }
  }

  // 441 zero bytes, in chunks of 110: five chunks, then four, then three.

  lemma EncodingShowsCount(m: DataMap)
    requires |m.infos| < 256
    ensures |ToBytes(m)| >= 10 && ToBytes(m)[1] as int == |m.infos|
  {
    var n := |m.infos|;
    assert U64(n) == [(n % 256) as Byte] + LittleEndian(n / 256, 7);
    assert ToBytes(m)[1] == U64(n)[0];
  }

  lemma FirstPiece(data: Bytes)
    requires |data| >= 330
    ensures |Cut(data, |data|, LEAST_MAX)| >= 3
    ensures Cut(data, |data|, LEAST_MAX)[0] == data[..110]
  {
    FirstPieceLength(|data|);
    assert Cut(data, |data|, LEAST_MAX)[0] == PieceAt(data, |data|, LEAST_MAX, 0);
  }

  /** The first piece of a map's encoding shows how many entries the map has. */
  lemma FirstByteCounts(pieces: seq<Bytes>, level: nat)
    requires 3 < |pieces| < 256 && AllSealed(KeyedSuite(), pieces, level)
    ensures |NextPieces(KeyedSuite(), LEAST_MAX, pieces, level)| >= 3
    ensures SrcHashes(KeyedSuite(), NextPieces(KeyedSuite(), LEAST_MAX, pieces, level))[0][1] as int == |pieces|
  {
    var encoding := ToBytes(MapOf(KeyedSuite(), pieces, level));
    EncodingShowsCount(MapOf(KeyedSuite(), pieces, level));
    FirstPiece(encoding);
    KeptByte(encoding[..110]);
  }

  lemma KeptByte(x: Bytes)
    requires |x| >= 32
    ensures KeyedSuite().hash(x)[1] == x[1]
  {
  }

  lemma FirstPieceLength(size: nat)
    requires size >= 330
    ensures NumChunks(size, LEAST_MAX) >= 3 && Bound(size, 0, LEAST_MAX) == 0 && Bound(size, 1, LEAST_MAX) == 110
  {
    NumChunksAtLeast3(size, LEAST_MAX);
    StartIsMultiple(size, 1, LEAST_MAX);
    StartIsMultiple(size, 0, LEAST_MAX);
  }

  /** Seals of the same list with the same hash are the same. */
  lemma OneListCollidesNot(pieces: seq<Bytes>, level: nat, i: nat, j: nat)
    requires 3 <= |pieces| < 256 && i < |pieces| && j < |pieces| && level < 2 && AllSealed(KeyedSuite(), pieces, level)
    requires KeyedSuite().hash(Sealed(KeyedSuite(), pieces, level)[i]) == KeyedSuite().hash(Sealed(KeyedSuite(), pieces, level)[j])
    ensures i == j
  {
    KeyedSeals(pieces, level);
    KeyTells(SrcHashes(KeyedSuite(), pieces), i, level, SrcHashes(KeyedSuite(), pieces), j, level);
  }

  /** Seals of different lists have different hashes, if the levels differ or the first source hashes do. */
  lemma TwoListsCollideNot(a: seq<Bytes>, u: nat, i: nat, b: seq<Bytes>, v: nat, j: nat)
    requires 3 <= |a| < 256 && i < |a| && u < 2 && AllSealed(KeyedSuite(), a, u)
    requires 3 <= |b| < 256 && j < |b| && v < 2 && AllSealed(KeyedSuite(), b, v)
    requires u != v || (|b| == 3 && SrcHashes(KeyedSuite(), a)[0][1] != SrcHashes(KeyedSuite(), b)[0][1])
    ensures KeyedSuite().hash(Sealed(KeyedSuite(), a, u)[i]) != KeyedSuite().hash(Sealed(KeyedSuite(), b, v)[j])
  {
    KeyedSeals(a, u);
    KeyedSeals(b, v);
    var x, y := SrcHashes(KeyedSuite(), a), SrcHashes(KeyedSuite(), b);
    if KeyOf(x, i, u) == KeyOf(y, j, v) {
      KeyTells(x, i, u, y, j, v);
      KeyShowsFirst(x, i, u);
      KeyShowsFirst(y, j, v);
      assert false;
    }
  }

  lemma NamesAreDistinct(hash: Bytes -> Name, chunks: seq<Bytes>)
    requires forall i, j | 0 <= i < |chunks| && 0 <= j < |chunks| && hash(chunks[i]) == hash(chunks[j]) :: i == j
    ensures NoCollision(hash, chunks)
  {
    forall x, y | x in chunks && y in chunks && hash(x) == hash(y)
      ensures x == y
    {
      var i :| 0 <= i < |chunks| && chunks[i] == x;
      var j :| 0 <= j < |chunks| && chunks[j] == y;
      assert hash(chunks[i]) == hash(chunks[j]);
    }
  }

  lemma ListCollidesNot(pieces: seq<Bytes>, level: nat)
    requires 3 <= |pieces| < 256 && level < 2 && AllSealed(KeyedSuite(), pieces, level)
    ensures NoCollision(KeyedSuite().hash, Sealed(KeyedSuite(), pieces, level))
  {
    var hash, seals := KeyedSuite().hash, Sealed(KeyedSuite(), pieces, level);
    forall i, j | 0 <= i < |seals| && 0 <= j < |seals| && hash(seals[i]) == hash(seals[j])
      ensures i == j
    {
      OneListCollidesNot(pieces, level, i, j);
    }
    NamesAreDistinct(hash, seals);
  }

  /** No chunk of one list has the hash of a chunk of the other. */
  ghost predicate Apart(hash: Bytes -> Name, a: seq<Bytes>, b: seq<Bytes>) {
    forall x, y | x in a && y in b :: hash(x) != hash(y)
  }

  lemma ListsAreApart(a: seq<Bytes>, u: nat, b: seq<Bytes>, v: nat)
    requires 3 <= |a| < 256 && u < 2 && AllSealed(KeyedSuite(), a, u)
    requires 3 <= |b| < 256 && v < 2 && AllSealed(KeyedSuite(), b, v)
    requires u != v || (|b| == 3 && SrcHashes(KeyedSuite(), a)[0][1] != SrcHashes(KeyedSuite(), b)[0][1])
    ensures Apart(KeyedSuite().hash, Sealed(KeyedSuite(), a, u), Sealed(KeyedSuite(), b, v))
  {
    var s, t := Sealed(KeyedSuite(), a, u), Sealed(KeyedSuite(), b, v);
    forall x, y | x in s && y in t
      ensures KeyedSuite().hash(x) != KeyedSuite().hash(y)
    {
      var i :| 0 <= i < |s| && s[i] == x;
      var j :| 0 <= j < |t| && t[j] == y;
      TwoListsCollideNot(a, u, i, b, v, j);
    }
  }

  lemma JoinedCollideNot(hash: Bytes -> Name, a: seq<Bytes>, b: seq<Bytes>)
    requires NoCollision(hash, a) && NoCollision(hash, b) && Apart(hash, a, b)
    ensures NoCollision(hash, a + b)
  {
  }

  lemma ApartFromBoth(hash: Bytes -> Name, a: seq<Bytes>, b: seq<Bytes>, c: seq<Bytes>)
    requires Apart(hash, a, b) && Apart(hash, a, c)
    ensures Apart(hash, a, b + c)
  {
  }

  lemma ThreeListsCollideNot(a: seq<Bytes>, b: seq<Bytes>, c: seq<Bytes>)
    requires 3 <= |a| < 256 && AllSealed(KeyedSuite(), a, 0) && 3 <= |b| < 256 && AllSealed(KeyedSuite(), b, 1)
    requires |c| == 3 && AllSealed(KeyedSuite(), c, 1)
    requires SrcHashes(KeyedSuite(), b)[0][1] != SrcHashes(KeyedSuite(), c)[0][1]
    ensures NoCollision(KeyedSuite().hash,
                        Sealed(KeyedSuite(), a, 0) + (Sealed(KeyedSuite(), b, 1) + Sealed(KeyedSuite(), c, 1)))
  {
    var hash := KeyedSuite().hash;
    var x, y, z := Sealed(KeyedSuite(), a, 0), Sealed(KeyedSuite(), b, 1), Sealed(KeyedSuite(), c, 1);
    ListCollidesNot(a, 0);
    ListCollidesNot(b, 1);
    ListCollidesNot(c, 1);
    ListsAreApart(b, 1, c, 1);
    ListsAreApart(a, 0, b, 1);
    ListsAreApart(a, 0, c, 1);
    JoinedCollideNot(hash, y, z);
    ApartFromBoth(hash, x, y, z);
    JoinedCollideNot(hash, x, y + z);
  }

  /** Four pieces are sealed, and their map's three. */
  lemma LastTwoRounds(pieces: seq<Bytes>) returns (next: seq<Bytes>)
    requires |pieces| == 4 && EncryptPieces(KeyedSuite(), LEAST_MAX, pieces, 1).Success?
    ensures AllSealed(KeyedSuite(), pieces, 1) && next == NextPieces(KeyedSuite(), LEAST_MAX, pieces, 1) && |next| == 3
    ensures AllSealed(KeyedSuite(), next, 1)
    ensures EncryptPieces(KeyedSuite(), LEAST_MAX, pieces, 1).value.1 == Sealed(KeyedSuite(), pieces, 1) + Sealed(KeyedSuite(), next, 1)
    ensures SrcHashes(KeyedSuite(), next)[0][1] as int == 4
  {
    KeyedSeals(pieces, 1);
    next := NextPieces(KeyedSuite(), LEAST_MAX, pieces, 1);
    ChunksOfOneRound(KeyedSuite(), LEAST_MAX, pieces, 1);
    FirstByteCounts(pieces, 1);
  }

  /** Five pieces are sealed, then their map's four. */
  lemma FirstRound(pieces: seq<Bytes>) returns (next: seq<Bytes>)
    requires |pieces| == 5
    ensures AllSealed(KeyedSuite(), pieces, 0) && next == NextPieces(KeyedSuite(), LEAST_MAX, pieces, 0) && |next| == 4
    ensures EncryptPieces(KeyedSuite(), LEAST_MAX, pieces, 0).Success?
    ensures EncryptPieces(KeyedSuite(), LEAST_MAX, next, 1).Success?
    ensures EncryptPieces(KeyedSuite(), LEAST_MAX, pieces, 0).value.1
         == Sealed(KeyedSuite(), pieces, 0) + EncryptPieces(KeyedSuite(), LEAST_MAX, next, 1).value.1
    ensures SrcHashes(KeyedSuite(), next)[0][1] as int == 5
  {
    KeyedEncrypts(pieces, 0);
    EncryptUnfolds(KeyedSuite(), LEAST_MAX, pieces, 0);
    next := NextPieces(KeyedSuite(), LEAST_MAX, pieces, 0);
    FirstByteCounts(pieces, 0);
  }

  /** Five pieces are sealed at level 0, their map's four pieces and that map's three at level 1. */
  lemma ThreeRounds(pieces: seq<Bytes>)
    requires |pieces| == 5
    ensures EncryptPieces(KeyedSuite(), LEAST_MAX, pieces, 0).Success?
    ensures NoCollision(KeyedSuite().hash, EncryptPieces(KeyedSuite(), LEAST_MAX, pieces, 0).value.1)
  {
    var second := FirstRound(pieces);
    var third := LastTwoRounds(second);
    ThreeListsCollideNot(pieces, second, third);
  }

  /** Behind the key of one level, nothing opens with the key of another. */
  lemma KeysSeparate(pieces: seq<Bytes>)
    requires |pieces| > 0 && AllSealed(KeyedSuite(), pieces, 1)
    ensures DecryptChunk(KeyedSuite(), 0, Sealed(KeyedSuite(), pieces, 1)[0], SrcHashes(KeyedSuite(), pieces), 0).Failure?
  {
    var cr, hashes := KeyedSuite(), SrcHashes(KeyedSuite(), pieces);
    assert SealPiece(cr, pieces, 1, 0).Success?;
    KeyedSeals(pieces, 1);
    KeyedPki(0, hashes, 0);
    var seal := KeyOf(hashes, 0, 1) + pieces[0];
    XorZeros(seal);
    assert seal[..32] == KeyOf(hashes, 0, 1);
    LevelShows(hashes);
    NoPrefix(KeyOf(hashes, 0, 0), seal);
  }

  lemma LevelShows(hashes: seq<Name>)
    requires |hashes| >= 3
    ensures KeyOf(hashes, 0, 0) != KeyOf(hashes, 0, 1)
  {
    assert KeyOf(hashes, 0, 0)[11..19] == U64(0) && KeyOf(hashes, 0, 1)[11..19] == U64(1);
    U64RoundTrip(0);
    U64RoundTrip(1);
  }

  lemma NoPrefix(key: Bytes, whole: Bytes)
    requires |key| == 32 <= |whole| && whole[..32] != key
    ensures !(key <= whole)
  {
  }

  lemma KeyedIsSeparated(chunks: seq<Bytes>)
    ensures LevelsSeparated(KeyedSuite(), chunks)
  {
    forall pieces | |pieces| > 0 && AllSealed(KeyedSuite(), pieces, 1) && Within(Sealed(KeyedSuite(), pieces, 1), chunks)
      ensures DecryptChunk(KeyedSuite(), 0, Sealed(KeyedSuite(), pieces, 1)[0], SrcHashes(KeyedSuite(), pieces), 0).Failure?
    {
      KeysSeparate(pieces);
    }
  }

  lemma KeyedIsLawful()
    ensures Lawful(KeyedSuite())
  {
    forall k: Bytes, x: Bytes
      ensures k <= k + x && (k + x)[|k|..] == x
    {
    }
  }

  /** The hypotheses of the exact round trip can all hold, on its failing side too. */
  lemma LawsAreConsistent()
    ensures Lawful(KeyedSuite()) && EncryptAt(KeyedSuite(), LEAST_MAX, Zeros(441), 0).Success?
    ensures var chunks := EncryptAt(KeyedSuite(), LEAST_MAX, Zeros(441), 0).value.1;
            NoCollision(KeyedSuite().hash, chunks) && LevelsSeparated(KeyedSuite(), chunks)
  {
    KeyedIsLawful();
    var pieces := Cut(Zeros(441), 441, LEAST_MAX);
    assert EncryptAt(KeyedSuite(), LEAST_MAX, Zeros(441), 0) == EncryptPieces(KeyedSuite(), LEAST_MAX, pieces, 0);
    ThreeRounds(pieces);
    KeyedIsSeparated(EncryptAt(KeyedSuite(), LEAST_MAX, Zeros(441), 0).value.1);
  }

  /** 441 zero bytes, encrypted in chunks of 110, do not decrypt: with these libraries, without any assumption. */
  lemma ZerosAreLost()
    ensures EncryptAt(KeyedSuite(), LEAST_MAX, Zeros(441), 0).Success?
    ensures var (m, chunks) := EncryptAt(KeyedSuite(), LEAST_MAX, Zeros(441), 0).value;
            Decrypted(KeyedSuite(), m, chunks).Failure?
  {
    LawsAreConsistent();
    assert Zeros(441) == seq(441, _ => 0);
    OneByteTooMany(KeyedSuite());
  }
}
