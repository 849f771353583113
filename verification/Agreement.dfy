/** When unwinding with batched retrieval finds the root map whatever order batches are answered in
    (self_encryption/src/lib.rs, get_root_data_map_parallel): exact conditions, for one level and for all. */
module Agreement {
  import opened Prelude
  import opened Crypto
  import opened Codec
  import opened Encrypt
  import opened Decrypt
  import opened RoundTrip
  import opened Parallel

  // What is requested.

  function RequestHashes(request: seq<(nat, Name)>): set<Name> {
    set r | r in request :: r.1
  }

  predicate DistinctRequests(request: seq<(nat, Name)>) {
    forall i, j | 0 <= i < j < |request| :: request[i].1 != request[j].1
  }

  /** Every answer to the request is under its own hash afterwards, or all answers are the same chunk. */
  predicate Unambiguous(request: seq<(nat, Name)>) {
    DistinctRequests(request) || |RequestHashes(request)| <= 1
  }

  lemma {:induction false} UnseenHashes(infos: seq<ChunkInfo>, seen: set<Name>)
    ensures RequestHashes(Unseen(infos, seen)) == HashesOf(infos) - seen
  {
    if infos != [] {
      var most, last := infos[..|infos| - 1], infos[|infos| - 1];
      UnseenHashes(most, seen);
      HashesSnoc(most, last);
      assert infos == most + [last];
      if last.dstHash in seen {
        assert Unseen(infos, seen) == Unseen(most, seen);
      } else {
        RequestHashesSnoc(Unseen(most, seen), (last.index, last.dstHash));
      }
    }
  }

  lemma HashesSnoc(infos: seq<ChunkInfo>, last: ChunkInfo)
    ensures HashesOf(infos + [last]) == HashesOf(infos) + {last.dstHash}
  {
    assert last in infos + [last];
    assert forall info | info in infos :: info in infos + [last];
  }

  lemma RequestHashesSnoc(request: seq<(nat, Name)>, last: (nat, Name))
    ensures RequestHashes(request + [last]) == RequestHashes(request) + {last.1}
  {
    assert last in request + [last];
    assert forall r | r in request :: r in request + [last];
  }

  lemma {:induction false} UnseenOfNothing(infos: seq<ChunkInfo>)
    ensures Unseen(infos, {}) == Request(infos)
  {
    if infos != [] {
      UnseenOfNothing(infos[..|infos| - 1]);
      assert Request(infos) == Request(infos[..|infos| - 1]) + [(infos[|infos| - 1].index, infos[|infos| - 1].dstHash)];
    }
  }

  lemma RequestIsUnambiguous(infos: seq<ChunkInfo>)
    ensures Unambiguous(Request(infos)) <==> DistinctHashes(infos) || |HashesOf(infos)| <= 1
  {
    var request := Request(infos);
    UnseenOfNothing(infos);
    UnseenHashes(infos, {});
    assert forall i | 0 <= i < |infos| :: request[i].1 == infos[i].dstHash;
  }

  /** What can be gathered can be requested. */
  lemma UnseenIsAnswerable(get: Getter, infos: seq<ChunkInfo>, seen: set<Name>)
    requires Gather(get, infos).Success?
    ensures Answerable(get, Unseen(infos, seen))
  {
    GatherGives(get, infos);
    UnseenHashes(infos, seen);
    var request := Unseen(infos, seen);
    forall i | 0 <= i < |request|
      ensures get(request[i].1).Success?
    {
      assert request[i] in request;
      assert request[i].1 in RequestHashes(request);
      var info :| info in infos && info.dstHash == request[i].1;
      var j :| 0 <= j < |infos| && infos[j] == info;
    }
  }

  // What the cache holds after a level.

  /** A filled cache holds under each hash the answer paired with the hash's last request, or what it held before. */
  lemma {:induction false} FillHolds(cache: Cache, request: seq<(nat, Name)>, answers: seq<(nat, Bytes)>, k: nat,
        h: Name)
    requires k <= |request| && k <= |answers| && h in Fill(cache, request, answers, k)
    ensures var held := Fill(cache, request, answers, k)[h];
            || (h in cache && held == cache[h] && forall p | 0 <= p < k :: request[p].1 != h)
            || (exists p :: 0 <= p < k && request[p].1 == h && held == answers[p].1
                            && forall o | p < o < k :: request[o].1 != h)
  {
    if k > 0 && request[k - 1].1 != h {
      FillHolds(cache, request, answers, k - 1, h);
    }
  }

  lemma {:induction false} FillKeys(cache: Cache, request: seq<(nat, Name)>, answers: seq<(nat, Bytes)>, k: nat)
    requires k <= |request| && k <= |answers|
    ensures Fill(cache, request, answers, k).Keys == cache.Keys + RequestHashes(request[..k])
    ensures forall h | h in cache && h !in RequestHashes(request[..k]) ::
              h in Fill(cache, request, answers, k) && Fill(cache, request, answers, k)[h] == cache[h]
  {
    if k > 0 {
      FillKeys(cache, request, answers, k - 1);
      PrefixSnoc(request, k - 1);
      RequestHashesSnoc(request[..k - 1], request[k - 1]);
    }
  }

  /** All of a level's hashes are in the cache once its missing chunks are. */
  lemma LevelIsCached(get: Getter, batch: BatchGetter, infos: seq<ChunkInfo>, cache: Cache)
    requires Serves(batch, get) && Gather(get, infos).Success?
    ensures FetchMissing(batch, infos, cache).Success?
    ensures FetchMissing(batch, infos, cache).value.Keys == cache.Keys + HashesOf(infos)
  {
    var request := Unseen(infos, cache.Keys);
    UnseenHashes(infos, cache.Keys);
    UnseenIsAnswerable(get, infos, cache.Keys);
    if request != [] {
      var answers := batch(request).value;
      SameLength(answers, Answers(get, request));
      FillKeys(cache, request, answers, |request|);
      assert request[..|request|] == request;
    } else {
      assert RequestHashes(request) == {};
      assert forall h | h in HashesOf(infos) && h !in cache.Keys :: h in HashesOf(infos) - cache.Keys;
      assert cache.Keys + HashesOf(infos) == cache.Keys;
    }
  }

  // Levels that agree.

  function Contents(get: Getter, group: set<Name>): set<Bytes> {
    set g | g in group && get(g).Success? :: get(g).value
  }

  function Images(cache: Cache, group: set<Name>): set<Bytes> {
    set h | h in group && h in cache :: cache[h]
  }

  /** The cache holds the contents of a group of hashes under these hashes, in some order. */
  ghost predicate Shuffled(get: Getter, cache: Cache, group: set<Name>) {
    && group <= cache.Keys
    && (forall g | g in group :: get(g).Success?)
    && Images(cache, group) == Contents(get, group)
  }

  /** The cache consists of such groups: the hashes fetched together at one level. */
  ghost predicate Grouped(get: Getter, cache: Cache, groups: seq<set<Name>>) {
    && (forall h | h in cache :: exists i :: 0 <= i < |groups| && h in groups[i])
    && (forall i | 0 <= i < |groups| :: Shuffled(get, cache, groups[i]))
  }

  /** Of each group all hashes are in the set, or none. */
  ghost predicate AllOrNone(groups: seq<set<Name>>, hashes: set<Name>) {
    forall i | 0 <= i < |groups| :: groups[i] <= hashes || groups[i] !! hashes
  }

  /** An unambiguous request leaves its contents shuffled among its hashes. */
  lemma FetchedIsShuffled(get: Getter, cache: Cache, request: seq<(nat, Name)>, answers: seq<(nat, Bytes)>)
    requires Answerable(get, request) && multiset(answers) == multiset(Answers(get, request)) && |answers| == |request|
    requires Unambiguous(request)
    ensures Shuffled(get, Fill(cache, request, answers, |request|), RequestHashes(request))
  {
    var filled, hashes := Fill(cache, request, answers, |request|), RequestHashes(request);
    forall h | h in hashes
      ensures h in filled && filled[h] in Contents(get, hashes)
      ensures get(h).Success? && get(h).value in Images(filled, hashes)
    {
      HashIsShuffled(get, cache, request, answers, h);
    }
  }

  lemma HashIsShuffled(get: Getter, cache: Cache, request: seq<(nat, Name)>, answers: seq<(nat, Bytes)>, h: Name)
    requires Answerable(get, request) && multiset(answers) == multiset(Answers(get, request)) && |answers| == |request|
    requires Unambiguous(request) && h in RequestHashes(request)
    ensures var filled, hashes := Fill(cache, request, answers, |request|), RequestHashes(request);
            && h in filled && filled[h] in Contents(get, hashes)
            && get(h).Success? && get(h).value in Images(filled, hashes)
  {
    var filled, hashes := Fill(cache, request, answers, |request|), RequestHashes(request);
    var g := HeldIsAnswered(get, cache, request, answers, h);
    assert get(g).value in Contents(get, hashes);
    if DistinctRequests(request) {
      var holder := AnsweredIsHeld(get, cache, request, answers, h);
      assert filled[holder] in Images(filled, hashes);
    } else {
      OnlyMember(hashes, h);
      assert filled[h] in Images(filled, hashes);
    }
  }

  lemma OnlyMember<T>(s: set<T>, x: T)
    requires x in s && |s| <= 1
    ensures forall y | y in s :: y == x
  {
    if y :| y in s && y != x {
      assert {x, y} <= s;
      SubsetIsSmaller({x, y}, s);
    }
  }

  lemma {:induction false} SubsetIsSmaller<T>(a: set<T>, b: set<T>)
    requires a <= b
    ensures |a| <= |b|
  {
    if a != {} {
      var x :| x in a;
      SubsetIsSmaller(a - {x}, b - {x});
    }
  }

  lemma HeldIsAnswered(get: Getter, cache: Cache, request: seq<(nat, Name)>, answers: seq<(nat, Bytes)>, h: Name)
    returns (g: Name)
    requires Answerable(get, request) && multiset(answers) == multiset(Answers(get, request)) && |answers| == |request|
    requires h in RequestHashes(request)
    ensures h in Fill(cache, request, answers, |request|)
    ensures g in RequestHashes(request) && get(g) == Success(Fill(cache, request, answers, |request|)[h])
  {
    var filled, expected := Fill(cache, request, answers, |request|), Answers(get, request);
    FillKeys(cache, request, answers, |request|);
    assert request[..|request|] == request;
    FillHolds(cache, request, answers, |request|, h);
    var r :| r in request && r.1 == h;
    var o :| 0 <= o < |request| && request[o] == r;
    var p :| 0 <= p < |request| && request[p].1 == h && filled[h] == answers[p].1;
    assert answers[p] in multiset(answers);
    assert answers[p] in expected;
    var q :| 0 <= q < |expected| && expected[q] == answers[p];
    assert request[q] in request;
    g := request[q].1;
  }

  lemma AnsweredIsHeld(get: Getter, cache: Cache, request: seq<(nat, Name)>, answers: seq<(nat, Bytes)>, g: Name)
    returns (h: Name)
    requires Answerable(get, request) && multiset(answers) == multiset(Answers(get, request)) && |answers| == |request|
    requires DistinctRequests(request) && g in RequestHashes(request)
    ensures h in RequestHashes(request) && h in Fill(cache, request, answers, |request|)
    ensures get(g) == Success(Fill(cache, request, answers, |request|)[h])
  {
    var filled, expected := Fill(cache, request, answers, |request|), Answers(get, request);
    var r :| r in request && r.1 == g;
    var q :| 0 <= q < |request| && request[q] == r;
    assert expected[q] in multiset(expected);
    assert expected[q] in answers;
    var p :| 0 <= p < |answers| && answers[p] == expected[q];
    FillFacts(cache, request, answers, |request|);
    assert request[p] in request;
    h := request[p].1;
  }

  lemma LevelIsShuffled(get: Getter, batch: BatchGetter, infos: seq<ChunkInfo>, cache: Cache) returns (filled: Cache)
    requires Serves(batch, get) && Gather(get, infos).Success?
    requires Unambiguous(Unseen(infos, cache.Keys))
    ensures FetchMissing(batch, infos, cache) == Success(filled) && filled.Keys == cache.Keys + HashesOf(infos)
    ensures forall h | h in cache :: filled[h] == cache[h]
    ensures Shuffled(get, filled, HashesOf(infos) - cache.Keys)
  {
    LevelIsCached(get, batch, infos, cache);
    var request := Unseen(infos, cache.Keys);
    filled := FetchMissing(batch, infos, cache).value;
    UnseenHashes(infos, cache.Keys);
    UnseenIsAnswerable(get, infos, cache.Keys);
    if request != [] {
      SameLength(batch(request).value, Answers(get, request));
      FetchedIsShuffled(get, cache, request, batch(request).value);
      FillKeys(cache, request, batch(request).value, |request|);
      assert request[..|request|] == request;
    }
  }

  lemma ShuffledStays(get: Getter, cache: Cache, filled: Cache, group: set<Name>)
    requires Shuffled(get, cache, group) && forall h | h in cache :: h in filled && filled[h] == cache[h]
    ensures Shuffled(get, filled, group)
  {
    assert Images(filled, group) == Images(cache, group);
  }

  /** After a level with an unambiguous request, the groups so far and the hashes just fetched make up the cache. */
  lemma StaysGrouped(get: Getter, infos: seq<ChunkInfo>, cache: Cache, filled: Cache, groups: seq<set<Name>>)
    requires Grouped(get, cache, groups) && filled.Keys == cache.Keys + HashesOf(infos)
    requires forall h | h in cache :: filled[h] == cache[h]
    requires Shuffled(get, filled, HashesOf(infos) - cache.Keys)
    ensures Grouped(get, filled, groups + [HashesOf(infos) - cache.Keys])
  {
    var all := groups + [HashesOf(infos) - cache.Keys];
    forall i | 0 <= i < |all|
      ensures Shuffled(get, filled, all[i])
    {
      if i < |groups| { ShuffledStays(get, cache, filled, groups[i]); }
    }
    forall h | h in filled
      ensures exists i :: 0 <= i < |all| && h in all[i]
    {
      if h in cache {
        var i :| 0 <= i < |groups| && h in groups[i];
        assert h in all[i];
      } else {
        assert h in all[|groups|];
      }
    }
  }

  /** A level that uses groups wholly or not at all finds its parent map. */
  lemma GroupedParent(cr: Suite, get: Getter, m: DataMap, filled: Cache, groups: seq<set<Name>>)
    requires Honest(cr, get) && Gather(get, m.infos).Success?
    requires Grouped(get, filled, groups) && AllOrNone(groups, HashesOf(m.infos)) && HashesOf(m.infos) <= filled.Keys
    ensures ParentMap(cr, Lookup(filled), m) == ParentMap(cr, get, m)
  {
    var a := Gather(get, m.infos).value;
    var b := Held(filled, m.infos);
    GatherGives(get, m.infos);
    GatherFinds(Lookup(filled), m.infos, b);
    GroupedContents(get, filled, groups, HashesOf(m.infos));
    MembersAreContents(get, m.infos, a);
    MembersAreImages(filled, m.infos, b);
    SameOpening(cr, get, m, a, b);
    SameParentOfSameContents(cr, get, m, filled, a, b);
  }

  lemma MembersAreContents(get: Getter, infos: seq<ChunkInfo>, a: seq<Bytes>)
    requires |a| == |infos| && forall i | 0 <= i < |infos| :: get(infos[i].dstHash) == Success(a[i])
    ensures forall c :: c in a <==> c in Contents(get, HashesOf(infos))
  {
    forall c | c in a
      ensures c in Contents(get, HashesOf(infos))
    {
      var i :| 0 <= i < |a| && a[i] == c;
      assert infos[i] in infos;
      assert infos[i].dstHash in HashesOf(infos);
    }
    forall c | c in Contents(get, HashesOf(infos))
      ensures c in a
    {
      var h :| h in HashesOf(infos) && get(h) == Success(c);
      var info :| info in infos && info.dstHash == h;
      var i :| 0 <= i < |infos| && infos[i] == info;
      assert a[i] == c;
    }
  }

  lemma MembersAreImages(cache: Cache, infos: seq<ChunkInfo>, b: seq<Bytes>)
    requires |b| == |infos| && forall i | 0 <= i < |infos| :: Lookup(cache)(infos[i].dstHash) == Success(b[i])
    ensures forall c :: c in b <==> c in Images(cache, HashesOf(infos))
  {
    MembersAreContents(Lookup(cache), infos, b);
    assert Contents(Lookup(cache), HashesOf(infos)) == Images(cache, HashesOf(infos));
  }

  /** Whole groups hold whole groups' contents. */
  lemma GroupedContents(get: Getter, cache: Cache, groups: seq<set<Name>>, hashes: set<Name>)
    requires Grouped(get, cache, groups) && AllOrNone(groups, hashes) && hashes <= cache.Keys
    ensures Images(cache, hashes) == Contents(get, hashes)
  {
    forall h | h in hashes
      ensures cache[h] in Contents(get, hashes) && get(h).Success? && get(h).value in Images(cache, hashes)
    {
      var k :| 0 <= k < |groups| && h in groups[k];
      assert Shuffled(get, cache, groups[k]);
      assert cache[h] in Images(cache, groups[k]);
      assert get(h).value in Contents(get, groups[k]);
      ContentsGrow(get, cache, groups[k], hashes);
    }
  }

  lemma ContentsGrow(get: Getter, cache: Cache, some: set<Name>, more: set<Name>)
    requires some <= more
    ensures Contents(get, some) <= Contents(get, more) && Images(cache, some) <= Images(cache, more)
  {
  }

  /** What the cache holds for the entries. */
  function Held(cache: Cache, infos: seq<ChunkInfo>): (r: seq<Bytes>)
    requires HashesOf(infos) <= cache.Keys
    ensures |r| == |infos| && forall i | 0 <= i < |infos| :: Lookup(cache)(infos[i].dstHash) == Success(r[i])
  {
    assert forall i | 0 <= i < |infos| :: infos[i] in infos && infos[i].dstHash in HashesOf(infos);
    seq(|infos|, i requires 0 <= i < |infos| => cache[infos[i].dstHash])
  }

  // Levels that fail.

  function Swap<T>(s: seq<T>, i: nat, j: nat): (r: seq<T>)
    requires i < |s| && j < |s|
    ensures |r| == |s| && r[i] == s[j] && r[j] == s[i]
    ensures forall k | 0 <= k < |s| && k != i && k != j :: r[k] == s[k]
  {
    s[i := s[j]][j := s[i]]
  }

  lemma SwapPermutes<T>(s: seq<T>, i: nat, j: nat)
    requires i < |s| && j < |s|
    ensures multiset(Swap(s, i, j)) == multiset(s)
  {
  }

  /** Answers every batch in order, except that it swaps two answers of one request. */
  ghost function Swapping(get: Getter, request: seq<(nat, Name)>, i: nat, j: nat): BatchGetter {
    (r: seq<(nat, Name)>) =>
      if !Answerable(get, r) then Failure(MissingChunk)
      else if r == request && i < |r| && j < |r| then Success(Swap(Answers(get, r), i, j))
      else Success(Answers(get, r))
  }

  lemma SwappingServes(get: Getter, request: seq<(nat, Name)>, i: nat, j: nat)
    ensures Serves(Swapping(get, request, i, j), get)
  {
    if i < |request| && j < |request| && Answerable(get, request) {
      SwapPermutes(Answers(get, request), i, j);
    }
  }

  lemma {:induction false} GatherMisses(cache: Cache, infos: seq<ChunkInfo>, h: Name)
    requires h in HashesOf(infos) && h !in cache
    ensures Gather(Lookup(cache), infos) == Failure(MissingChunk)
  {
    var most, last := infos[..|infos| - 1], infos[|infos| - 1];
    assert infos == most + [last];
    HashesSnoc(most, last);
    if h in HashesOf(most) {
      GatherMisses(cache, most, h);
    } else {
      GatherIsFoundOrMissing(cache, most);
    }
  }

  lemma {:induction false} GatherIsFoundOrMissing(cache: Cache, infos: seq<ChunkInfo>)
    ensures Gather(Lookup(cache), infos).Success? || Gather(Lookup(cache), infos) == Failure(MissingChunk)
  {
    if infos != [] {
      GatherIsFoundOrMissing(cache, infos[..|infos| - 1]);
    }
  }

  /** Once a chunk of a level is under none of the level's hashes, decryption of the level misses it. */
  lemma LostChunk(cr: Suite, m: DataMap, filled: Cache, lost: Name)
    requires HashesOf(m.infos) <= filled.Keys && lost in HashesOf(m.infos)
    requires forall h | h in HashesOf(m.infos) :: cr.hash(filled[h]) != lost
    ensures ParentMap(cr, Lookup(filled), m) == Failure(MissingChunk)
  {
    var b := Held(filled, m.infos);
    GatherFinds(Lookup(filled), m.infos, b);
    TableEntries(cr.hash, b);
    forall c | c in b
      ensures cr.hash(c) != lost
    {
      var i :| 0 <= i < |b| && b[i] == c;
      assert m.infos[i] in m.infos;
      assert m.infos[i].dstHash in HashesOf(m.infos);
    }
    GatherMisses(Table(cr.hash, b), m.infos, lost);
  }

  /** An answer written over by a later one of the same hash: swapped into its place, the last answer of another
      hash is lost. */
  lemma SwapLoses(cr: Suite, get: Getter, cache: Cache, request: seq<(nat, Name)>, i: nat, k: nat, q: nat)
    requires Honest(cr, get) && Agrees(cache, get) && Answerable(get, request)
    requires forall r | r in request :: r.1 !in cache
    requires i < k < |request| && request[i].1 == request[k].1
    requires q < |request| && request[q].1 != request[i].1 && forall p | q < p < |request| :: request[p].1 != request[q].1
    ensures var filled := Fill(cache, request, Swap(Answers(get, request), i, q), |request|);
            forall h | h in filled :: cr.hash(filled[h]) != request[q].1
  {
    var answers := Swap(Answers(get, request), i, q);
    var filled := Fill(cache, request, answers, |request|);
    forall h | h in filled
      ensures cr.hash(filled[h]) != request[q].1
    {
      FillHolds(cache, request, answers, |request|, h);
      if h in cache && filled[h] == cache[h] && forall p | 0 <= p < |request| :: request[p].1 != h {
        assert cr.hash(cache[h]) == h;
      } else {
        var p :| 0 <= p < |request| && request[p].1 == h && filled[h] == answers[p].1
                 && forall o | p < o < |request| :: request[o].1 != h;
        if p == q {
          assert get(request[i].1) == Success(filled[h]);
        } else {
          assert p != i;
          assert get(h) == Success(filled[h]);
        }
      }
    }
  }

  lemma ThereIsALast(request: seq<(nat, Name)>, h: Name) returns (q: nat)
    requires h in RequestHashes(request)
    ensures q < |request| && request[q].1 == h && forall p | q < p < |request| :: request[p].1 != h
  {
    if request[|request| - 1].1 == h {
      q := |request| - 1;
    } else {
      var most := request[..|request| - 1];
      assert request == most + [request[|request| - 1]];
      RequestHashesSnoc(most, request[|request| - 1]);
      q := ThereIsALast(most, h);
    }
  }

  /** A level whose request is ambiguous, with an exact cache so far: some order of answers makes it fail. */
  lemma AmbiguousLevelFails(cr: Suite, get: Getter, m: DataMap, cache: Cache) returns (i: nat, q: nat)
    requires Honest(cr, get) && Agrees(cache, get) && Gather(get, m.infos).Success?
    requires !Unambiguous(Unseen(m.infos, cache.Keys))
    ensures ParentMapBatch(cr, Swapping(get, Unseen(m.infos, cache.Keys), i, q), m, cache) == Failure(MissingChunk)
    ensures Unseen(m.infos, cache.Keys) != []
  {
    var k: nat;
    i, k, q := AmbiguousPositions(Unseen(m.infos, cache.Keys));
    AmbiguousLevelLoses(cr, get, m, cache, i, k, q);
    SwappingServes(get, Unseen(m.infos, cache.Keys), i, q);
    LevelIsCached(get, Swapping(get, Unseen(m.infos, cache.Keys), i, q), m.infos, cache);
    SwappedFetch(get, m.infos, cache, i, q);
  }

  /** What the cache holds after two answers of a level's request were swapped. */
  lemma SwappedFetch(get: Getter, infos: seq<ChunkInfo>, cache: Cache, i: nat, j: nat)
    requires Answerable(get, Unseen(infos, cache.Keys)) && i < |Unseen(infos, cache.Keys)|
    requires j < |Unseen(infos, cache.Keys)|
    ensures var request := Unseen(infos, cache.Keys);
            FetchMissing(Swapping(get, request, i, j), infos, cache)
            == Success(Fill(cache, request, Swap(Answers(get, request), i, j), |request|))
  {
  }

  lemma AmbiguousLevelLoses(cr: Suite, get: Getter, m: DataMap, cache: Cache, i: nat, k: nat, q: nat)
    requires Honest(cr, get) && Agrees(cache, get) && Gather(get, m.infos).Success?
    requires var request := Unseen(m.infos, cache.Keys);
             && i < k < |request| && request[i].1 == request[k].1
             && q < |request| && request[q].1 != request[i].1 && forall p | q < p < |request| :: request[p].1 != request[q].1
    ensures var request := Unseen(m.infos, cache.Keys);
            && Answerable(get, request)
            && ParentMap(cr, Lookup(Fill(cache, request, Swap(Answers(get, request), i, q), |request|)), m) == Failure(MissingChunk)
  {
    var request := Unseen(m.infos, cache.Keys);
    UnseenIsAnswerable(get, m.infos, cache.Keys);
    UnseenHashes(m.infos, cache.Keys);
    RequestsAreNew(m.infos, cache);
    SwapLoses(cr, get, cache, request, i, k, q);
    assert request[q] in request;
    assert request[q].1 in RequestHashes(request);
    FillKeys(cache, request, Swap(Answers(get, request), i, q), |request|);
    assert request[..|request|] == request;
    LostChunk(cr, m, Fill(cache, request, Swap(Answers(get, request), i, q), |request|), request[q].1);
  }

  lemma RequestsAreNew(infos: seq<ChunkInfo>, cache: Cache)
    ensures forall r | r in Unseen(infos, cache.Keys) :: r.1 !in cache
  {
    UnseenHashes(infos, cache.Keys);
    forall r | r in Unseen(infos, cache.Keys)
      ensures r.1 !in cache
    {
      assert r.1 in RequestHashes(Unseen(infos, cache.Keys));
    }
  }

  lemma AmbiguousPositions(request: seq<(nat, Name)>) returns (i: nat, k: nat, q: nat)
    requires !Unambiguous(request)
    ensures i < k < |request| && request[i].1 == request[k].1
    ensures q < |request| && request[q].1 != request[i].1 && forall p | q < p < |request| :: request[p].1 != request[q].1
  {
    var i', k' :| 0 <= i' < k' < |request| && request[i'].1 == request[k'].1;
    i, k := i', k';
    var hashes := RequestHashes(request);
    if forall h | h in hashes :: h == request[i].1 {
      SubsetIsSmaller(hashes, {request[i].1});
    }
    var other :| other in hashes && other != request[i].1;
    q := ThereIsALast(request, other);
  }

  /** One level, from an empty cache: the parent map is found whatever order the batch is answered in, if and only
      if no hash occurs twice or there is only one hash. */
  lemma LevelAgreesExactly(cr: Suite, get: Getter, m: DataMap)
    requires Honest(cr, get) && ParentMap(cr, get, m).Success?
    ensures (forall batch: BatchGetter | Serves(batch, get) ::
               var r := ParentMapBatch(cr, batch, m, map[]);
               r.Success? && Success(r.value.0) == ParentMap(cr, get, m))
            <==> DistinctHashes(m.infos) || |HashesOf(m.infos)| <= 1
  {
    var cache: Cache := map[];
    UnseenOfNothing(m.infos);
    RequestIsUnambiguous(m.infos);
    assert cache.Keys == {};
    if Unambiguous(Request(m.infos)) {
      forall batch: BatchGetter | Serves(batch, get)
        ensures var r := ParentMapBatch(cr, batch, m, map[]);
                r.Success? && Success(r.value.0) == ParentMap(cr, get, m)
      {
        var filled := LevelIsShuffled(get, batch, m.infos, cache);
        StaysGrouped(get, m.infos, cache, filled, []);
        GroupedParent(cr, get, m, filled, [] + [HashesOf(m.infos) - cache.Keys]);
      }
    } else {
      var i, q := AmbiguousLevelFails(cr, get, m, cache);
      SwappingServes(get, Request(m.infos), i, q);
    }
  }

  // All levels.

  /** Some level from here on uses one of two hashes but not the other. */
  ghost predicate Splits(step: DataMap -> Result<DataMap>, m: DataMap, p: Name, q: Name, depth: nat)
    decreases MAX_DEPTH + 1 - depth
  {
    depth <= MAX_DEPTH && m.IsChild() &&
    ((p in HashesOf(m.infos)) != (q in HashesOf(m.infos)) || (step(m).Success? && Splits(step, step(m).value, p, q, depth + 1)))
  }

  /** Every level's request is unambiguous, and no later level uses only some of the hashes requested together. */
  ghost predicate Clean(step: DataMap -> Result<DataMap>, m: DataMap, seen: set<Name>, depth: nat)
    decreases MAX_DEPTH + 1 - depth
  {
    depth <= MAX_DEPTH && m.IsChild() ==>
      && Unambiguous(Unseen(m.infos, seen))
      && (step(m).Success? ==>
            && (forall p, q | p in HashesOf(m.infos) - seen && q in HashesOf(m.infos) - seen ::
                  !Splits(step, step(m).value, p, q, depth + 1))
            && Clean(step, step(m).value, seen + HashesOf(m.infos), depth + 1))
  }

  /** No group is used in part from here on. */
  ghost predicate Unsplit(step: DataMap -> Result<DataMap>, m: DataMap, groups: seq<set<Name>>, depth: nat) {
    forall i, p, q | 0 <= i < |groups| && p in groups[i] && q in groups[i] :: !Splits(step, m, p, q, depth)
  }

  lemma UnsplitMeans(step: DataMap -> Result<DataMap>, m: DataMap, groups: seq<set<Name>>, depth: nat)
    requires Unsplit(step, m, groups, depth) && depth <= MAX_DEPTH && m.IsChild()
    ensures AllOrNone(groups, HashesOf(m.infos))
    ensures step(m).Success? ==> Unsplit(step, step(m).value, groups, depth + 1)
  {
    forall i | 0 <= i < |groups|
      ensures groups[i] <= HashesOf(m.infos) || groups[i] !! HashesOf(m.infos)
    {
      if !(groups[i] <= HashesOf(m.infos)) && !(groups[i] !! HashesOf(m.infos)) {
        var p :| p in groups[i] && p !in HashesOf(m.infos);
        var q :| q in groups[i] && q in HashesOf(m.infos);
        assert Splits(step, m, p, q, depth);
      }
    }
    if step(m).Success? {
      forall i, p, q | 0 <= i < |groups| && p in groups[i] && q in groups[i]
        ensures !Splits(step, step(m).value, p, q, depth + 1)
      {
        assert !Splits(step, m, p, q, depth);
      }
    }
  }

  /** One clean level: the parent map is found and the groups stay whole. */
  lemma CleanLevel(cr: Suite, get: Getter, batch: BatchGetter, m: DataMap, cache: Cache, groups: seq<set<Name>>)
    returns (filled: Cache)
    requires Honest(cr, get) && Serves(batch, get) && ParentMap(cr, get, m).Success?
    requires Grouped(get, cache, groups) && AllOrNone(groups, HashesOf(m.infos))
    requires Unambiguous(Unseen(m.infos, cache.Keys))
    ensures ParentMapBatch(cr, batch, m, cache) == Success((ParentMap(cr, get, m).value, filled))
    ensures filled.Keys == cache.Keys + HashesOf(m.infos)
    ensures Grouped(get, filled, groups + [HashesOf(m.infos) - cache.Keys])
  {
    filled := LevelIsShuffled(get, batch, m.infos, cache);
    StaysGrouped(get, m.infos, cache, filled, groups);
    var all := groups + [HashesOf(m.infos) - cache.Keys];
    forall i | 0 <= i < |all|
      ensures all[i] <= HashesOf(m.infos) || all[i] !! HashesOf(m.infos)
    {
      if i < |groups| { assert all[i] == groups[i]; }
    }
    GroupedParent(cr, get, m, filled, all);
  }

  type Step = DataMap -> Result<DataMap>
  type BatchStep = (DataMap, Cache) -> Result<(DataMap, Cache)>

  /** On a clean level the batched step does what the plain step does. */
  ghost predicate CleanSteps(get: Getter, step: Step, batchStep: BatchStep) {
    forall m: DataMap, cache: Cache, groups: seq<set<Name>>
      | Grouped(get, cache, groups) && AllOrNone(groups, HashesOf(m.infos)) && Unambiguous(Unseen(m.infos, cache.Keys)) && step(m).Success?
      :: && batchStep(m, cache).Success? && batchStep(m, cache).value.0 == step(m).value
         && batchStep(m, cache).value.1.Keys == cache.Keys + HashesOf(m.infos)
         && Grouped(get, batchStep(m, cache).value.1, groups + [HashesOf(m.infos) - cache.Keys])
  }

  lemma StepsAreClean(cr: Suite, get: Getter, batch: BatchGetter)
    requires Honest(cr, get) && Serves(batch, get)
    ensures CleanSteps(get, StepUp(cr, get), StepUpBatch(cr, batch))
  {
    forall m: DataMap, cache: Cache, groups: seq<set<Name>>
      | Grouped(get, cache, groups) && AllOrNone(groups, HashesOf(m.infos)) && Unambiguous(Unseen(m.infos, cache.Keys))
        && StepUp(cr, get)(m).Success?
      ensures StepUpBatch(cr, batch)(m, cache).Success?
      ensures StepUpBatch(cr, batch)(m, cache).value.0 == StepUp(cr, get)(m).value
      ensures StepUpBatch(cr, batch)(m, cache).value.1.Keys == cache.Keys + HashesOf(m.infos)
      ensures Grouped(get, StepUpBatch(cr, batch)(m, cache).value.1, groups + [HashesOf(m.infos) - cache.Keys])
    {
      StepGathers(cr, get, m);
      var filled := CleanLevel(cr, get, batch, m, cache, groups);
      StepsToParent(cr, batch, m, cache);
    }
  }

  lemma StepGathers(cr: Suite, get: Getter, m: DataMap)
    ensures StepUp(cr, get)(m) == ParentMap(cr, get, m)
    ensures StepUp(cr, get)(m).Success? ==> Gather(get, m.infos).Success?
  {
  }

  lemma StepsToParent(cr: Suite, batch: BatchGetter, m: DataMap, cache: Cache)
    ensures StepUpBatch(cr, batch)(m, cache) == ParentMapBatch(cr, batch, m, cache)
  {
  }

  lemma {:induction false} CleanAgrees(get: Getter, step: Step, batchStep: BatchStep, m: DataMap, cache: Cache,
        groups: seq<set<Name>>, depth: nat)
    requires CleanSteps(get, step, batchStep) && Unwind(step, m, depth).Success?
    requires Grouped(get, cache, groups) && Unsplit(step, m, groups, depth) && Clean(step, m, cache.Keys, depth)
    ensures UnwindWith(batchStep, m, cache, depth) == Unwind(step, m, depth)
    decreases MAX_DEPTH + 1 - depth
  {
    if m.IsChild() {
      var filled := CleanOnce(get, step, batchStep, m, cache, groups, depth);
      CleanAgrees(get, step, batchStep, step(m).value, filled, groups + [HashesOf(m.infos) - cache.Keys], depth + 1);
    }
  }

  lemma CleanOnce(get: Getter, step: Step, batchStep: BatchStep, m: DataMap, cache: Cache, groups: seq<set<Name>>,
        depth: nat)
    returns (filled: Cache)
    requires CleanSteps(get, step, batchStep) && m.IsChild() && depth <= MAX_DEPTH && step(m).Success?
    requires Grouped(get, cache, groups) && Unsplit(step, m, groups, depth) && Clean(step, m, cache.Keys, depth)
    ensures var all := groups + [HashesOf(m.infos) - cache.Keys];
            Grouped(get, filled, all) && Unsplit(step, step(m).value, all, depth + 1)
    ensures Clean(step, step(m).value, filled.Keys, depth + 1)
    ensures UnwindWith(batchStep, m, cache, depth) == UnwindWith(batchStep, step(m).value, filled, depth + 1)
  {
    assert AllOrNone(groups, HashesOf(m.infos)) by { UnsplitMeans(step, m, groups, depth); }
    assert Unambiguous(Unseen(m.infos, cache.Keys)) && Clean(step, step(m).value, cache.Keys + HashesOf(m.infos), depth + 1) by {
      CleanMeans(step, m, cache.Keys, depth);
    }
    filled := CleanStepAt(get, step, batchStep, m, cache, groups);
    assert Unsplit(step, step(m).value, groups + [HashesOf(m.infos) - cache.Keys], depth + 1) by {
      UnsplitMeans(step, m, groups, depth);
      CleanMeans(step, m, cache.Keys, depth);
      NextUnsplit(step, step(m).value, groups, HashesOf(m.infos) - cache.Keys, depth + 1);
    }
    UnwindOnce(batchStep, m, cache, depth, step(m).value, filled);
  }

  lemma CleanStepAt(get: Getter, step: Step, batchStep: BatchStep, m: DataMap, cache: Cache, groups: seq<set<Name>>)
    returns (filled: Cache)
    requires CleanSteps(get, step, batchStep) && step(m).Success?
    requires Grouped(get, cache, groups) && AllOrNone(groups, HashesOf(m.infos))
    requires Unambiguous(Unseen(m.infos, cache.Keys))
    ensures batchStep(m, cache) == Success((step(m).value, filled)) && filled.Keys == cache.Keys + HashesOf(m.infos)
    ensures Grouped(get, filled, groups + [HashesOf(m.infos) - cache.Keys])
  {
    filled := batchStep(m, cache).value.1;
  }

  lemma CleanMeans(step: Step, m: DataMap, seen: set<Name>, depth: nat)
    requires Clean(step, m, seen, depth) && depth <= MAX_DEPTH && m.IsChild() && step(m).Success?
    ensures Unambiguous(Unseen(m.infos, seen))
    ensures forall p, q | p in HashesOf(m.infos) - seen && q in HashesOf(m.infos) - seen :: !Splits(step, step(m).value, p, q, depth + 1)
    ensures Clean(step, step(m).value, seen + HashesOf(m.infos), depth + 1)
  {
  }

  lemma NextUnsplit(step: DataMap -> Result<DataMap>, m: DataMap, groups: seq<set<Name>>, fetched: set<Name>,
        depth: nat)
    requires Unsplit(step, m, groups, depth)
    requires forall p, q | p in fetched && q in fetched :: !Splits(step, m, p, q, depth)
    ensures Unsplit(step, m, groups + [fetched], depth)
  {
    var all := groups + [fetched];
    forall i, p, q | 0 <= i < |all| && p in all[i] && q in all[i]
      ensures !Splits(step, m, p, q, depth)
    {
      if i < |groups| { assert p in groups[i] && q in groups[i]; }
    }
  }

  // Levels with two contents swapped.

  /** The cache is exact but for two hashes, which hold each other's contents. */
  ghost predicate Crossed(get: Getter, cache: Cache, p: Name, q: Name) {
    && p != q && p in cache && q in cache
    && get(p) == Success(cache[q]) && get(q) == Success(cache[p])
    && forall h | h in cache && h != p && h != q :: get(h) == Success(cache[h])
  }

  /** A level that uses both or neither finds its parent map. */
  lemma CrossedParent(cr: Suite, get: Getter, m: DataMap, filled: Cache, p: Name, q: Name)
    requires Honest(cr, get) && Gather(get, m.infos).Success? && Crossed(get, filled, p, q)
    requires HashesOf(m.infos) <= filled.Keys && ((p in HashesOf(m.infos)) == (q in HashesOf(m.infos)))
    ensures ParentMap(cr, Lookup(filled), m) == ParentMap(cr, get, m)
  {
    var hashes := HashesOf(m.infos);
    forall h | h in hashes
      ensures filled[h] in Contents(get, hashes) && get(h).Success? && get(h).value in Images(filled, hashes)
    {
      var twin := if h == p then q else if h == q then p else h;
      assert twin in hashes && get(twin) == Success(filled[h]) && get(h) == Success(filled[twin]);
    }
    var a := Gather(get, m.infos).value;
    var b := Held(filled, m.infos);
    GatherGives(get, m.infos);
    GatherFinds(Lookup(filled), m.infos, b);
    MembersAreContents(get, m.infos, a);
    MembersAreImages(filled, m.infos, b);
    assert Images(filled, hashes) == Contents(get, hashes);
    SameOpening(cr, get, m, a, b);
    SameParentOfSameContents(cr, get, m, filled, a, b);
  }

  /** A level that uses one of them without the other misses a chunk. */
  lemma CrossedLoses(cr: Suite, get: Getter, m: DataMap, filled: Cache, p: Name, q: Name)
    requires Honest(cr, get) && Crossed(get, filled, p, q)
    requires HashesOf(m.infos) <= filled.Keys && p in HashesOf(m.infos) && q !in HashesOf(m.infos)
    ensures ParentMap(cr, Lookup(filled), m) == Failure(MissingChunk)
  {
    forall h | h in HashesOf(m.infos)
      ensures cr.hash(filled[h]) != p
    {
      assert cr.hash(filled[p]) == q;
    }
    LostChunk(cr, m, filled, p);
  }

  /** A request that is not the one with the swap is answered in order. */
  lemma OtherFetch(get: Getter, request: seq<(nat, Name)>, i: nat, j: nat, infos: seq<ChunkInfo>, cache: Cache)
    requires Gather(get, infos).Success? && Unseen(infos, cache.Keys) != request
    ensures Answerable(get, Unseen(infos, cache.Keys))
    ensures var own := Unseen(infos, cache.Keys);
            FetchMissing(Swapping(get, request, i, j), infos, cache) == Success(Fill(cache, own, Answers(get, own), |own|))
  {
    UnseenIsAnswerable(get, infos, cache.Keys);
  }

  /** Answers in order are exact. */
  lemma StraightIsExact(get: Getter, infos: seq<ChunkInfo>, cache: Cache) returns (filled: Cache)
    requires Gather(get, infos).Success? && Answerable(get, Unseen(infos, cache.Keys))
    ensures var own := Unseen(infos, cache.Keys); filled == Fill(cache, own, Answers(get, own), |own|)
    ensures filled.Keys == cache.Keys + HashesOf(infos)
    ensures forall h | h in cache :: filled[h] == cache[h]
    ensures forall h | h in filled && h !in cache :: get(h) == Success(filled[h])
  {
    var own := Unseen(infos, cache.Keys);
    filled := Fill(cache, own, Answers(get, own), |own|);
    FillKeys(cache, own, Answers(get, own), |own|);
    assert own[..|own|] == own;
    UnseenHashes(infos, cache.Keys);
    forall h | h in filled && h !in cache
      ensures get(h) == Success(filled[h])
    {
      FillHolds(cache, own, Answers(get, own), |own|, h);
    }
  }

  /** With two contents crossed, levels that use both or neither are as ever, and others fail. */
  ghost predicate CrossedSteps(get: Getter, step: Step, batchStep: BatchStep, p: Name, q: Name) {
    forall m: DataMap, cache: Cache | Crossed(get, cache, p, q) && step(m).Success? ::
      if (p in HashesOf(m.infos)) == (q in HashesOf(m.infos)) then
        && batchStep(m, cache).Success? && batchStep(m, cache).value.0 == step(m).value
        && Crossed(get, batchStep(m, cache).value.1, p, q)
      else batchStep(m, cache) == Failure(MissingChunk)
  }

  lemma StepsAreCrossed(cr: Suite, get: Getter, request: seq<(nat, Name)>, i: nat, j: nat, p: Name, q: Name)
    requires Honest(cr, get) && i < |request| && request[i].1 == p
    ensures CrossedSteps(get, StepUp(cr, get), StepUpBatch(cr, Swapping(get, request, i, j)), p, q)
  {
    var batch := Swapping(get, request, i, j);
    forall m: DataMap, cache: Cache | Crossed(get, cache, p, q) && StepUp(cr, get)(m).Success?
      ensures if (p in HashesOf(m.infos)) == (q in HashesOf(m.infos)) then
                && StepUpBatch(cr, batch)(m, cache).Success? && StepUpBatch(cr, batch)(m, cache).value.0 == StepUp(cr, get)(m).value
                && Crossed(get, StepUpBatch(cr, batch)(m, cache).value.1, p, q)
              else StepUpBatch(cr, batch)(m, cache) == Failure(MissingChunk)
    {
      StepGathers(cr, get, m);
      StepsToParent(cr, batch, m, cache);
      CrossedLevel(cr, get, request, i, j, m, cache, p, q);
    }
  }

  lemma CrossedLevel(cr: Suite, get: Getter, request: seq<(nat, Name)>, i: nat, j: nat, m: DataMap, cache: Cache,
        p: Name, q: Name)
    requires Honest(cr, get) && i < |request| && request[i].1 == p
    requires Crossed(get, cache, p, q) && ParentMap(cr, get, m).Success?
    ensures var r := ParentMapBatch(cr, Swapping(get, request, i, j), m, cache);
            if (p in HashesOf(m.infos)) == (q in HashesOf(m.infos))
            then r.Success? && r.value.0 == ParentMap(cr, get, m).value && Crossed(get, r.value.1, p, q)
            else r == Failure(MissingChunk)
  {
    RequestsAreNew(m.infos, cache);
    assert request[i] in request;
    OtherFetch(get, request, i, j, m.infos, cache);
    var filled := StraightIsExact(get, m.infos, cache);
    CrossedStays(get, cache, filled, p, q);
    if (p in HashesOf(m.infos)) == (q in HashesOf(m.infos)) {
      CrossedParent(cr, get, m, filled, p, q);
    } else if p in HashesOf(m.infos) {
      CrossedLoses(cr, get, m, filled, p, q);
    } else {
      CrossedLoses(cr, get, m, filled, q, p);
    }
  }

  lemma CrossedStays(get: Getter, cache: Cache, filled: Cache, p: Name, q: Name)
    requires Crossed(get, cache, p, q) && forall h | h in cache :: h in filled && filled[h] == cache[h]
    requires forall h | h in filled && h !in cache :: get(h) == Success(filled[h])
    ensures Crossed(get, filled, p, q)
  {
  }

  lemma {:induction false} SplitFails(get: Getter, step: Step, batchStep: BatchStep, m: DataMap, cache: Cache,
        p: Name, q: Name, depth: nat)
    requires CrossedSteps(get, step, batchStep, p, q) && Unwind(step, m, depth).Success?
    requires Crossed(get, cache, p, q) && Splits(step, m, p, q, depth)
    ensures UnwindWith(batchStep, m, cache, depth) == Failure(MissingChunk)
    decreases MAX_DEPTH + 1 - depth
  {
    if (p in HashesOf(m.infos)) == (q in HashesOf(m.infos)) {
      SplitFails(get, step, batchStep, step(m).value, batchStep(m, cache).value.1, p, q, depth + 1);
    }
  }

  lemma UnwindOnce(batchStep: BatchStep, m: DataMap, cache: Cache, depth: nat, next: DataMap, filled: Cache)
    requires m.IsChild() && depth <= MAX_DEPTH && batchStep(m, cache) == Success((next, filled))
    ensures UnwindWith(batchStep, m, cache, depth) == UnwindWith(batchStep, next, filled, depth + 1)
  {
  }

  /** Two hashes requested together and used apart later: with their answers swapped, the later level fails. */
  lemma SplitLevelFails(cr: Suite, get: Getter, m: DataMap, cache: Cache, next: DataMap, p: Name, q: Name,
        depth: nat) returns (i: nat, j: nat)
    requires Honest(cr, get) && Agrees(cache, get) && m.IsChild() && depth <= MAX_DEPTH
    requires ParentMap(cr, get, m) == Success(next) && Unwind(StepUp(cr, get), next, depth + 1).Success?
    requires DistinctRequests(Unseen(m.infos, cache.Keys))
    requires p in HashesOf(m.infos) - cache.Keys && q in HashesOf(m.infos) - cache.Keys && p != q
    requires Splits(StepUp(cr, get), next, p, q, depth + 1)
    ensures UnwindWith(StepUpBatch(cr, Swapping(get, Unseen(m.infos, cache.Keys), i, j)), m, cache, depth) == Failure(MissingChunk)
  {
    var request := Unseen(m.infos, cache.Keys);
    UnseenHashes(m.infos, cache.Keys);
    i := ThereIsALast(request, p);
    j := ThereIsALast(request, q);
    var filled := SwappedLevel(cr, get, m, cache, i, j);
    UnwindOnce(StepUpBatch(cr, Swapping(get, request, i, j)), m, cache, depth, next, filled);
    StepsAreCrossed(cr, get, request, i, j, p, q);
    SplitFails(get, StepUp(cr, get), StepUpBatch(cr, Swapping(get, request, i, j)), next, filled, p, q, depth + 1);
  }

  lemma SwappedLevel(cr: Suite, get: Getter, m: DataMap, cache: Cache, i: nat, j: nat) returns (filled: Cache)
    requires Honest(cr, get) && Agrees(cache, get) && ParentMap(cr, get, m).Success?
    requires DistinctRequests(Unseen(m.infos, cache.Keys))
    requires i < |Unseen(m.infos, cache.Keys)| && j < |Unseen(m.infos, cache.Keys)| && i != j
    ensures var request := Unseen(m.infos, cache.Keys);
            && StepUpBatch(cr, Swapping(get, request, i, j))(m, cache) == Success((ParentMap(cr, get, m).value, filled))
            && Crossed(get, filled, request[i].1, request[j].1)
  {
    var request := Unseen(m.infos, cache.Keys);
    UnseenIsAnswerable(get, m.infos, cache.Keys);
    SwappedFetch(get, m.infos, cache, i, j);
    filled := SwappedIsCrossed(get, m.infos, cache, i, j);
    UnseenHashes(m.infos, cache.Keys);
    assert request[i] in request && request[j] in request;
    assert request[i].1 in RequestHashes(request) && request[j].1 in RequestHashes(request);
    CrossedParent(cr, get, m, filled, request[i].1, request[j].1);
    StepsToParent(cr, Swapping(get, request, i, j), m, cache);
  }

  lemma SwappedIsCrossed(get: Getter, infos: seq<ChunkInfo>, cache: Cache, i: nat, j: nat) returns (filled: Cache)
    requires Gather(get, infos).Success? && Agrees(cache, get) && Answerable(get, Unseen(infos, cache.Keys))
    requires DistinctRequests(Unseen(infos, cache.Keys))
    requires i < |Unseen(infos, cache.Keys)| && j < |Unseen(infos, cache.Keys)| && i != j
    ensures var own := Unseen(infos, cache.Keys);
            filled == Fill(cache, own, Swap(Answers(get, own), i, j), |own|) && Crossed(get, filled, own[i].1, own[j].1)
    ensures filled.Keys == cache.Keys + HashesOf(infos)
  {
    var own := Unseen(infos, cache.Keys);
    var answers := Swap(Answers(get, own), i, j);
    filled := Fill(cache, own, answers, |own|);
    FillKeys(cache, own, answers, |own|);
    FillFacts(cache, own, answers, |own|);
    assert own[..|own|] == own;
    UnseenHashes(infos, cache.Keys);
    RequestsAreNew(infos, cache);
    forall h | h in filled && h != own[i].1 && h != own[j].1
      ensures get(h) == Success(filled[h])
    {
      ElsewhereExact(get, cache, own, i, j, h);
    }
  }

  lemma ElsewhereExact(get: Getter, cache: Cache, own: seq<(nat, Name)>, i: nat, j: nat, h: Name)
    requires Agrees(cache, get) && Answerable(get, own) && i < |own| && j < |own| && h != own[i].1 && h != own[j].1
    requires h in Fill(cache, own, Swap(Answers(get, own), i, j), |own|)
    ensures get(h) == Success(Fill(cache, own, Swap(Answers(get, own), i, j), |own|)[h])
  {
    FillHolds(cache, own, Swap(Answers(get, own), i, j), |own|, h);
  }

  lemma {:induction false} NothingSplitsItself(step: DataMap -> Result<DataMap>, m: DataMap, p: Name, depth: nat)
    ensures !Splits(step, m, p, p, depth)
    decreases MAX_DEPTH + 1 - depth
  {
    if depth <= MAX_DEPTH && m.IsChild() && step(m).Success? {
      NothingSplitsItself(step, step(m).value, p, depth + 1);
    }
  }

  lemma TwoOfOne(request: seq<(nat, Name)>, p: Name, q: Name)
    requires Unambiguous(request) && p in RequestHashes(request) && q in RequestHashes(request) && p != q
    ensures DistinctRequests(request)
  {
    if !DistinctRequests(request) { OnlyMember(RequestHashes(request), p); }
  }

  /** Where the levels are not clean, some order of answers makes unwinding fail. The order differs from the
      requests' in one request only, for hashes not seen before. */
  lemma {:induction false} UncleanFails(cr: Suite, get: Getter, m: DataMap, cache: Cache, depth: nat)
    returns (request: seq<(nat, Name)>, i: nat, j: nat)
    requires Honest(cr, get) && Agrees(cache, get) && Unwind(StepUp(cr, get), m, depth).Success?
    requires !Clean(StepUp(cr, get), m, cache.Keys, depth)
    ensures UnwindWith(StepUpBatch(cr, Swapping(get, request, i, j)), m, cache, depth) == Failure(MissingChunk)
    ensures request != [] && forall r | r in request :: r.1 !in cache
    decreases MAX_DEPTH + 1 - depth
  {
    StepGathers(cr, get, m);
    var next := ParentMap(cr, get, m).value;
    request := Unseen(m.infos, cache.Keys);
    RequestsAreNew(m.infos, cache);
    if !Unambiguous(request) {
      i, j := AmbiguousLevelFails(cr, get, m, cache);
      UnwindFails(StepUpBatch(cr, Swapping(get, request, i, j)), m, cache, depth);
    } else if exists p, q :: p in HashesOf(m.infos) - cache.Keys && q in HashesOf(m.infos) - cache.Keys
                             && Splits(StepUp(cr, get), next, p, q, depth + 1) {
      i, j := SplitHere(cr, get, m, cache, next, depth);
    } else {
      var filled := ExactLevel(get, m.infos, cache);
      request, i, j := UncleanFails(cr, get, next, filled, depth + 1);
      StraightLevel(cr, get, request, i, j, m, cache, filled);
      UnwindOnce(StepUpBatch(cr, Swapping(get, request, i, j)), m, cache, depth, next, filled);
    }
  }

  lemma ExactLevel(get: Getter, infos: seq<ChunkInfo>, cache: Cache) returns (filled: Cache)
    requires Gather(get, infos).Success? && Agrees(cache, get)
    ensures Answerable(get, Unseen(infos, cache.Keys))
    ensures var own := Unseen(infos, cache.Keys); filled == Fill(cache, own, Answers(get, own), |own|)
    ensures filled.Keys == cache.Keys + HashesOf(infos) && Agrees(filled, get)
  {
    UnseenIsAnswerable(get, infos, cache.Keys);
    filled := StraightIsExact(get, infos, cache);
  }

  lemma UnwindFails(batchStep: BatchStep, m: DataMap, cache: Cache, depth: nat)
    requires m.IsChild() && depth <= MAX_DEPTH && batchStep(m, cache) == Failure(MissingChunk)
    ensures UnwindWith(batchStep, m, cache, depth) == Failure(MissingChunk)
  {
  }

  lemma SplitHere(cr: Suite, get: Getter, m: DataMap, cache: Cache, next: DataMap, depth: nat) returns (i: nat, j: nat)
    requires Honest(cr, get) && Agrees(cache, get) && m.IsChild() && depth <= MAX_DEPTH
    requires ParentMap(cr, get, m) == Success(next) && Unwind(StepUp(cr, get), next, depth + 1).Success?
    requires Unambiguous(Unseen(m.infos, cache.Keys))
    requires exists p, q :: p in HashesOf(m.infos) - cache.Keys && q in HashesOf(m.infos) - cache.Keys
                            && Splits(StepUp(cr, get), next, p, q, depth + 1)
    ensures UnwindWith(StepUpBatch(cr, Swapping(get, Unseen(m.infos, cache.Keys), i, j)), m, cache, depth) == Failure(MissingChunk)
    ensures Unseen(m.infos, cache.Keys) != []
  {
    var p, q :| p in HashesOf(m.infos) - cache.Keys && q in HashesOf(m.infos) - cache.Keys
                && Splits(StepUp(cr, get), next, p, q, depth + 1);
    if p == q { NothingSplitsItself(StepUp(cr, get), next, p, depth + 1); }
    UnseenHashes(m.infos, cache.Keys);
    TwoOfOne(Unseen(m.infos, cache.Keys), p, q);
    i, j := SplitLevelFails(cr, get, m, cache, next, p, q, depth);
  }

  /** A level that the swap does not concern. */
  lemma StraightLevel(cr: Suite, get: Getter, request: seq<(nat, Name)>, i: nat, j: nat, m: DataMap, cache: Cache,
        filled: Cache)
    requires Honest(cr, get) && ParentMap(cr, get, m).Success? && Answerable(get, Unseen(m.infos, cache.Keys))
    requires var own := Unseen(m.infos, cache.Keys); filled == Fill(cache, own, Answers(get, own), |own|)
    requires Agrees(filled, get) && filled.Keys == cache.Keys + HashesOf(m.infos)
    requires request != [] && forall r | r in request :: r.1 !in filled
    ensures StepUpBatch(cr, Swapping(get, request, i, j))(m, cache) == Success((ParentMap(cr, get, m).value, filled))
  {
    UnseenHashes(m.infos, cache.Keys);
    assert request[0] in request;
    assert request[0].1 in RequestHashes(request);
    OtherFetch(get, request, i, j, m.infos, cache);
    ExactParent(cr, get, m, filled);
    StepsToParent(cr, Swapping(get, request, i, j), m, cache);
  }

  lemma ExactParent(cr: Suite, get: Getter, m: DataMap, filled: Cache)
    requires Agrees(filled, get) && HashesOf(m.infos) <= filled.Keys && Gather(get, m.infos).Success?
    ensures ParentMap(cr, Lookup(filled), m) == ParentMap(cr, get, m)
  {
    GatherGives(get, m.infos);
    assert forall k | 0 <= k < |m.infos| :: m.infos[k] in m.infos && m.infos[k].dstHash in HashesOf(m.infos);
    GatherFinds(Lookup(filled), m.infos, Gather(get, m.infos).value);
  }

  /** Where the levels are not clean there is a batch getter that loses a chunk. */
  lemma LosingBatch(cr: Suite, get: Getter, m: DataMap) returns (batch: BatchGetter)
    requires Honest(cr, get) && RootMap(cr, get, m, 0).Success? && !Clean(StepUp(cr, get), m, {}, 0)
    ensures Serves(batch, get) && RootMapBatch(cr, batch, m, map[], 0) == Failure(MissingChunk)
  {
    var cache: Cache := map[];
    assert cache.Keys == {};
    var request, i, j := UncleanFails(cr, get, m, cache, 0);
    batch := Swapping(get, request, i, j);
    SwappingServes(get, request, i, j);
  }

  /** Unwinding finds the root map whatever order each batch is answered in, if and only if every level asks for
      distinct hashes, or for only one, and no later level uses only some of the hashes requested together. */
  lemma ParallelAgreesExactly(cr: Suite, get: Getter, m: DataMap)
    requires Honest(cr, get) && RootMap(cr, get, m, 0).Success?
    ensures (forall batch: BatchGetter | Serves(batch, get) :: RootMapBatch(cr, batch, m, map[], 0) == RootMap(cr, get, m, 0))
            <==> Clean(StepUp(cr, get), m, {}, 0)
  {
    var cache: Cache := map[];
    assert cache.Keys == {};
    if Clean(StepUp(cr, get), m, {}, 0) {
      forall batch: BatchGetter | Serves(batch, get)
        ensures RootMapBatch(cr, batch, m, map[], 0) == RootMap(cr, get, m, 0)
      {
        StepsAreClean(cr, get, batch);
        CleanAgrees(get, StepUp(cr, get), StepUpBatch(cr, batch), m, cache, [], 0);
      }
    } else {
      var batch := LosingBatch(cr, get, m);
    }
  }

  /** One step from the root map, only the child map's own hashes matter. */
  lemma OneStepClean(step: DataMap -> Result<DataMap>, m: DataMap, root: DataMap)
    requires m.IsChild() && !root.IsChild() && step(m) == Success(root)
    ensures Clean(step, m, {}, 0) <==> DistinctHashes(m.infos) || |HashesOf(m.infos)| <= 1
  {
    UnseenOfNothing(m.infos);
    RequestIsUnambiguous(m.infos);
  }
}
