/** Unwinding child maps with batched retrieval (self_encryption/src/lib.rs, get_root_data_map_parallel). */
module Parallel {
  import opened Prelude
  import opened Crypto
  import opened Codec
  import opened Decrypt

  /** Retrieves a batch of (index, hash) requests as (index, content) answers, in any order. */
  type BatchGetter = seq<(nat, Name)> -> Result<seq<(nat, Bytes)>>

  function Request(infos: seq<ChunkInfo>): (r: seq<(nat, Name)>)
    ensures |r| == |infos|
  {
    seq(|infos|, i requires 0 <= i < |infos| => (infos[i].index, infos[i].dstHash))
  }

  ghost predicate Answerable(get: Getter, request: seq<(nat, Name)>) {
    forall i | 0 <= i < |request| :: get(request[i].1).Success?
  }

  ghost function Answers(get: Getter, request: seq<(nat, Name)>): (r: seq<(nat, Bytes)>)
    requires Answerable(get, request)
    ensures |r| == |request|
  {
    seq(|request|, i requires 0 <= i < |request| => (request[i].0, get(request[i].1).value))
  }

  /** The batch getter answers what the getter answers, each batch permuted as it likes. */
  ghost predicate Serves(batch: BatchGetter, get: Getter) {
    forall request | Answerable(get, request) ::
      batch(request).Success? && multiset(batch(request).value) == multiset(Answers(get, request))
  }

  /** The requests for the entries whose hashes were not seen before. */
  function Unseen(infos: seq<ChunkInfo>, seen: set<Name>): seq<(nat, Name)> {
    if infos == [] then []
    else
      var last := infos[|infos| - 1];
      Unseen(infos[..|infos| - 1], seen) + if last.dstHash in seen then [] else [(last.index, last.dstHash)]
  }

  /** The first `k` answers entered under the hashes requested, pair by pair. */
  function Fill(cache: Cache, request: seq<(nat, Name)>, answers: seq<(nat, Bytes)>, k: nat): Cache
    requires k <= |request| && k <= |answers|
  {
    if k == 0 then cache else Fill(cache, request, answers, k - 1)[request[k - 1].1 := answers[k - 1].1]
  }

  function FetchMissing(batch: BatchGetter, infos: seq<ChunkInfo>, cache: Cache): Result<Cache> {
    var request := Unseen(infos, cache.Keys);
    if request == [] then Success(cache)
    else
      var answers :- batch(request);
      Success(Fill(cache, request, answers, if |request| <= |answers| then |request| else |answers|))
  }

  type Cache = map<Name, Bytes>

  /** One level: the parent map, and the cache with this level's chunks in it. */
  function ParentMapBatch(cr: Suite, batch: BatchGetter, m: DataMap, cache: Cache): Result<(DataMap, Cache)> {
    var filled :- FetchMissing(batch, m.infos, cache);
    var parent :- ParentMap(cr, Lookup(filled), m);
    Success((parent, filled))
  }

  function StepUpBatch(cr: Suite, batch: BatchGetter): (DataMap, Cache) -> Result<(DataMap, Cache)> {
    (m, cache) => ParentMapBatch(cr, batch, m, cache)
  }

  /** Unwind, with a cache handed from level to level. */
  function UnwindWith(step: (DataMap, Cache) -> Result<(DataMap, Cache)>, m: DataMap, cache: Cache,
        depth: nat): Result<DataMap>
    decreases MAX_DEPTH + 1 - depth
  {
    if depth > MAX_DEPTH then Failure(TooDeep)
    else if !m.IsChild() then Success(m)
    else
      var (parent, filled) :- step(m, cache);
      UnwindWith(step, parent, filled, depth + 1)
  }

  function RootMapBatch(cr: Suite, batch: BatchGetter, m: DataMap, cache: Cache, depth: nat): Result<DataMap> {
    UnwindWith(StepUpBatch(cr, batch), m, cache, depth)
  }

  method GetRootDataMapParallel(cr: Suite, batch: BatchGetter, m: DataMap) returns (r: Result<DataMap>)
    ensures r == RootMapBatch(cr, batch, m, map[], 0)
  {
    r := InnerGetRootMapParallel(cr, batch, m, map[], 0);
  }

  method FindMissing(infos: seq<ChunkInfo>, cache: Cache) returns (request: seq<(nat, Name)>)
    ensures request == Unseen(infos, cache.Keys)
  {
    request := [];
    for i := 0 to |infos|
      invariant request == Unseen(infos[..i], cache.Keys)
    {
      assert infos[..i + 1][..i] == infos[..i];
      if infos[i].dstHash !in cache {
        request := request + [(infos[i].index, infos[i].dstHash)];
      }
    }
    assert infos[..|infos|] == infos;
  }

  method InnerGetRootMapParallel(cr: Suite, batch: BatchGetter, m: DataMap, cache: Cache, depth: nat)
    returns (r: Result<DataMap>)
    ensures r == RootMapBatch(cr, batch, m, cache, depth)
    decreases MAX_DEPTH + 1 - depth
  {
    if depth > MAX_DEPTH { return Failure(TooDeep); }
    if !m.IsChild() { return Success(m); }
    var chunkCache := cache;
    var missingHashes := FindMissing(m.infos, chunkCache);
    if missingHashes != [] {
      var newChunks := batch(missingHashes);
      if newChunks.Failure? { return Failure(newChunks.error); }
      var answers := newChunks.value;
      var pairs := if |missingHashes| <= |answers| then |missingHashes| else |answers|;
      for i := 0 to pairs
        invariant chunkCache == Fill(cache, missingHashes, answers, i)
      {
        chunkCache := chunkCache[missingHashes[i].1 := answers[i].1];
      }
    }
    assert FetchMissing(batch, m.infos, cache) == Success(chunkCache);
    var parent := DecodeParent(cr, chunkCache, m);
    if parent.Failure? { return Failure(parent.error); }
    assert StepUpBatch(cr, batch)(m, cache) == Success((parent.value, chunkCache));
    r := InnerGetRootMapParallel(cr, batch, parent.value, chunkCache, depth + 1);
  }

  /** The second half of a level: chunks from the cache, opened and decoded. */
  method DecodeParent(cr: Suite, cache: Cache, m: DataMap) returns (r: Result<DataMap>)
    ensures r == ParentMap(cr, Lookup(cache), m)
  {
    var chunks := CollectChunks(cache, m.infos);
    if chunks.Failure? { return Failure(chunks.error); }
    var bytes := DecryptFullSet(cr, m, chunks.value);
    if bytes.Failure? { return Failure(bytes.error); }
    r := FromBytes(bytes.value);
  }

  // Facts about caches and answers.

  /** What the cache of found chunks holds is what the getter answers. */
  ghost predicate Agrees(cache: map<Name, Bytes>, get: Getter) {
    forall h | h in cache :: get(h) == Success(cache[h])
  }

  /** Content found under a hash has that hash. */
  ghost predicate Honest(cr: Suite, get: Getter) {
    forall h | get(h).Success? :: cr.hash(get(h).value) == h
  }

  predicate DistinctHashes(infos: seq<ChunkInfo>) {
    forall i, j | 0 <= i < j < |infos| :: infos[i].dstHash != infos[j].dstHash
  }

  function HashesOf(infos: seq<ChunkInfo>): set<Name> {
    set info | info in infos :: info.dstHash
  }

  /** A chain of child maps is unwound to its root if that takes at most a hundred steps, and refused otherwise. */
  lemma {:induction false} BatchChainUnwinds(step: (DataMap, Cache) -> Result<(DataMap, Cache)>, maps: seq<DataMap>,
        caches: seq<Cache>, k: nat)
    requires |caches| == |maps| > k && !maps[|maps| - 1].IsChild()
    requires forall i | 0 <= i < |maps| - 1 ::
               maps[i].IsChild() && step(maps[i], caches[i]) == Success((maps[i + 1], caches[i + 1]))
    ensures k <= 101 ==>
              UnwindWith(step, maps[k], caches[k], k) == if |maps| <= 101 then Success(maps[|maps| - 1]) else Failure(TooDeep)
    decreases |maps| - k
  {
    if k < |maps| - 1 && k <= 100 {
      BatchChainUnwinds(step, maps, caches, k + 1);
    }
  }

  // What a level does, for any batch getter.

  /** Asked for is an entry exactly if its hash was not seen, */
  lemma UnseenOne(info: ChunkInfo, seen: set<Name>)
    ensures Unseen([info], seen) == if info.dstHash in seen then [] else [(info.index, info.dstHash)]
  {
    assert [info][..0] == [];
  }

  /** for one entry after the other, in their order. */
  lemma {:induction false} UnseenAppends(infos: seq<ChunkInfo>, more: seq<ChunkInfo>, seen: set<Name>)
    ensures Unseen(infos + more, seen) == Unseen(infos, seen) + Unseen(more, seen)
  {
    if more == [] {
      assert infos + more == infos;
    } else {
      var most, last := more[..|more| - 1], more[|more| - 1];
      UnseenAppends(infos, most, seen);
      var whole := infos + more;
      assert whole[..|whole| - 1] == infos + most && whole[|whole| - 1] == last;
      var asked := if last.dstHash in seen then [] else [(last.index, last.dstHash)];
      assert Unseen(whole, seen) == Unseen(infos + most, seen) + asked;
      assert Unseen(more, seen) == Unseen(most, seen) + asked;
    }
  }

  /** Of repeated hashes the last pair stays; a hash that was not requested keeps what the cache had. */
  lemma {:induction false} FillKeepsLast(cache: Cache, request: seq<(nat, Name)>, answers: seq<(nat, Bytes)>, k: nat,
        j: nat)
    requires j < k <= |request| && k <= |answers| && forall i | j < i < k :: request[i].1 != request[j].1
    ensures request[j].1 in Fill(cache, request, answers, k)
    ensures Fill(cache, request, answers, k)[request[j].1] == answers[j].1
  {
    if j < k - 1 {
      FillKeepsLast(cache, request, answers, k - 1, j);
    }
  }

  lemma {:induction false} FillKeepsOthers(cache: Cache, request: seq<(nat, Name)>, answers: seq<(nat, Bytes)>,
        k: nat, h: Name)
    requires k <= |request| && k <= |answers| && forall i | 0 <= i < k :: request[i].1 != h
    ensures h in Fill(cache, request, answers, k) <==> h in cache
    ensures h in cache ==> Fill(cache, request, answers, k)[h] == cache[h]
  {
    if k > 0 {
      FillKeepsOthers(cache, request, answers, k - 1, h);
    }
  }

  /** With distinct hashes every pair is held. */
  lemma FillFacts(cache: Cache, request: seq<(nat, Name)>, answers: seq<(nat, Bytes)>, k: nat)
    requires k <= |request| && k <= |answers|
    requires forall i, j | 0 <= i < j < |request| :: request[i].1 != request[j].1
    ensures forall i | 0 <= i < k ::
              request[i].1 in Fill(cache, request, answers, k) && Fill(cache, request, answers, k)[request[i].1] == answers[i].1
  {
    hide Fill;
    forall i | 0 <= i < k
      ensures request[i].1 in Fill(cache, request, answers, k)
      ensures Fill(cache, request, answers, k)[request[i].1] == answers[i].1
    {
      FillKeepsLast(cache, request, answers, k, i);
    }
  }

  /** A level asks for nothing if it has all its chunks. If it asks, a failing batch getter's error is the level's; and
      a chunk neither cached nor paired with an answer is missing. */
  lemma {:induction false} LevelFails(cr: Suite, batch: BatchGetter, m: DataMap, cache: Cache, h: Name)
    requires h in HashesOf(m.infos) && h !in cache
    ensures var request, r := Unseen(m.infos, cache.Keys), ParentMapBatch(cr, batch, m, cache);
            && request != []
            && (batch(request).Failure? ==> r == Failure(batch(request).error))
            && (batch(request).Success? &&
                (forall i | 0 <= i < |request| && i < |batch(request).value| :: request[i].1 != h) ==>
                  r == Failure(MissingChunk))
  {
    var request := Unseen(m.infos, cache.Keys);
    var info :| info in m.infos && info.dstHash == h;
    var i :| 0 <= i < |m.infos| && m.infos[i] == info;
    AsksFor(m.infos, cache.Keys, i);
    if batch(request).Success? {
      var answers := batch(request).value;
      var k := if |request| <= |answers| then |request| else |answers|;
      if forall i | 0 <= i < |request| && i < |answers| :: request[i].1 != h {
        FillKeepsOthers(cache, request, answers, k, h);
        var get := Lookup(Fill(cache, request, answers, k));
        GathersExactly(get, m.infos, |m.infos|);
        assert m.infos[..|m.infos|] == m.infos;
        assert !FoundAt(get, m.infos, i);
        if Gather(get, m.infos).Failure? { var j := GatheringFails(get, m.infos, |m.infos|); }
      }
    }
  }

  lemma {:induction false} AsksFor(infos: seq<ChunkInfo>, seen: set<Name>, i: nat)
    requires i < |infos| && infos[i].dstHash !in seen
    ensures (infos[i].index, infos[i].dstHash) in Unseen(infos, seen)
  {
    if i < |infos| - 1 {
      AsksFor(infos[..|infos| - 1], seen, i);
    }
  }

  lemma SameLength(answers: seq<(nat, Bytes)>, expected: seq<(nat, Bytes)>)
    requires multiset(answers) == multiset(expected)
    ensures |answers| == |expected|
  {
    assert |multiset(answers)| == |multiset(expected)|;
  }

  lemma SameParentOfSameContents(cr: Suite, get: Getter, m: DataMap, filled: Cache, a: seq<Bytes>, b: seq<Bytes>)
    requires Gather(get, m.infos) == Success(a) && Gather(Lookup(filled), m.infos) == Success(b)
    requires OpenFullSet(cr, m, a) == OpenFullSet(cr, m, b)
    ensures ParentMap(cr, Lookup(filled), m) == ParentMap(cr, get, m)
  {
  }

  lemma SameOpening(cr: Suite, get: Getter, m: DataMap, a: seq<Bytes>, b: seq<Bytes>)
    requires Honest(cr, get) && Gather(get, m.infos) == Success(a)
    requires forall c :: c in a <==> c in b
    ensures OpenFullSet(cr, m, a) == OpenFullSet(cr, m, b)
  {
    GatherGives(get, m.infos);
    forall x, y | x in a && y in a && cr.hash(x) == cr.hash(y)
      ensures x == y
    {
      var i :| 0 <= i < |a| && a[i] == x;
      var j :| 0 <= j < |a| && a[j] == y;
      assert cr.hash(a[i]) == m.infos[i].dstHash && cr.hash(a[j]) == m.infos[j].dstHash;
    }
    DecryptionDependsOnSet(cr, m, a, b);
  }
}
