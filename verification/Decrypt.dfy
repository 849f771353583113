/** Batch decryption and the unwinding of child maps (self_encryption/src/{lib,decrypt}.rs). */
module Decrypt {
  import opened Prelude
  import opened Crypto
  import opened Codec
  import opened Encrypt

  /** Chunks keyed by the hash of their content; of two with the same hash the later one stays. */
  function Table(hash: Bytes -> Name, chunks: seq<Bytes>): map<Name, Bytes> {
    if chunks == [] then map[]
    else
      var last := chunks[|chunks| - 1];
      Table(hash, chunks[..|chunks| - 1])[hash(last) := last]
  }

  /** How chunks are retrieved by hash. */
  type Getter = Name -> Result<Bytes>

  function Lookup(table: map<Name, Bytes>): Getter {
    h => if h in table then Success(table[h]) else Failure(MissingChunk)
  }

  /** The chunks of the entries, in the order of the entries. */
  function Gather(get: Getter, infos: seq<ChunkInfo>): (r: Result<seq<Bytes>>)
    ensures r.Success? ==> |r.value| == |infos|
  {
    if infos == [] then Success([])
    else
      var most :- Gather(get, infos[..|infos| - 1]);
      var last :- get(infos[|infos| - 1].dstHash);
      Success(most + [last])
  }

  function ExtractHashes(m: DataMap): (r: seq<Name>)
    ensures |r| == |m.infos|
    ensures forall i | 0 <= i < |r| :: r[i] == m.infos[i].srcHash
  {
    seq(|m.infos|, i requires 0 <= i < |m.infos| => m.infos[i].srcHash)
  }

  /** Chunk `i` of the list opened as chunk `i` of the file. */
  function OpenAll(cr: Suite, hashes: seq<Name>, chunks: seq<Bytes>, level: nat): (r: Result<seq<Bytes>>)
    ensures r.Success? ==> |r.value| == |chunks|
  {
    if chunks == [] then Success([])
    else
      var last := |chunks| - 1;
      var most :- OpenAll(cr, hashes, chunks[..last], level);
      var plain :- DecryptChunk(cr, last, chunks[last], hashes, level);
      Success(most + [plain])
  }

  function OpenSorted(cr: Suite, hashes: seq<Name>, chunks: seq<Bytes>, level: nat): Result<Bytes> {
    var plain :- OpenAll(cr, hashes, chunks, level);
    Success(Concat(plain))
  }

  function OpenFullSet(cr: Suite, m: DataMap, chunks: seq<Bytes>): Result<Bytes> {
    var sorted :- Gather(Lookup(Table(cr.hash, chunks)), m.infos);
    OpenSorted(cr, ExtractHashes(m), sorted, m.Level())
  }

  const MAX_DEPTH: nat := 100

  /** The map one level up: the child map's chunks, opened and decoded. */
  function ParentMap(cr: Suite, get: Getter, m: DataMap): Result<DataMap> {
    var chunks :- Gather(get, m.infos);
    var bytes :- OpenFullSet(cr, m, chunks);
    FromBytes(bytes)
  }

  /** Takes one step up after another while the map is a child map, at most MAX_DEPTH of them. */
  function Unwind(step: DataMap -> Result<DataMap>, m: DataMap, depth: nat): Result<DataMap>
    decreases MAX_DEPTH + 1 - depth
  {
    if depth > MAX_DEPTH then Failure(TooDeep)
    else if !m.IsChild() then Success(m)
    else
      var parent :- step(m);
      Unwind(step, parent, depth + 1)
  }

  function StepUp(cr: Suite, get: Getter): DataMap -> Result<DataMap> {
    m => ParentMap(cr, get, m)
  }

  function RootMap(cr: Suite, get: Getter, m: DataMap, depth: nat): Result<DataMap> {
    Unwind(StepUp(cr, get), m, depth)
  }

  function Decrypted(cr: Suite, m: DataMap, chunks: seq<Bytes>): Result<Bytes> {
    var get := Lookup(Table(cr.hash, chunks));
    var root :- if m.IsChild() then RootMap(cr, get, m, 0) else Success(m);
    var rootChunks :- Gather(get, root.infos);
    OpenFullSet(cr, root, rootChunks)
  }

  // The methods, each against its function.

  method BuildTable(cr: Suite, chunks: seq<Bytes>) returns (table: map<Name, Bytes>)
    ensures table == Table(cr.hash, chunks)
  {
    table := map[];
    for i := 0 to |chunks|
      invariant table == Table(cr.hash, chunks[..i])
    {
      assert chunks[..i + 1][..i] == chunks[..i];
      table := table[cr.hash(chunks[i]) := chunks[i]];
    }
    assert chunks[..|chunks|] == chunks;
  }

  lemma GatherSnoc(get: Getter, infos: seq<ChunkInfo>, k: nat)
    requires k < |infos|
    ensures Gather(get, infos[..k + 1]) ==
            if Gather(get, infos[..k]).Failure? then Gather(get, infos[..k])
            else if get(infos[k].dstHash).Failure? then Failure(get(infos[k].dstHash).error)
            else Success(Gather(get, infos[..k]).value + [get(infos[k].dstHash).value])
  {
    assert infos[..k + 1][..k] == infos[..k];
  }

  lemma {:induction false} GatherFails(get: Getter, infos: seq<ChunkInfo>, k: nat)
    requires k <= |infos| && Gather(get, infos[..k]).Failure?
    ensures Gather(get, infos) == Gather(get, infos[..k])
    decreases |infos| - k
  {
    if k < |infos| {
      GatherSnoc(get, infos, k);
      GatherFails(get, infos, k + 1);
    } else {
      assert infos[..k] == infos;
    }
  }

  lemma {:induction false} GatherGives(get: Getter, infos: seq<ChunkInfo>)
    requires Gather(get, infos).Success?
    ensures forall i | 0 <= i < |infos| :: get(infos[i].dstHash) == Success(Gather(get, infos).value[i])
  {
    if infos != [] {
      GatherGives(get, infos[..|infos| - 1]);
    }
  }

  /** The getter has the chunk of entry `i`. */
  ghost predicate FoundAt(get: Getter, infos: seq<ChunkInfo>, i: nat)
    requires i < |infos|
  {
    get(infos[i].dstHash).Success?
  }

  /** The chunks are found exactly if each is; */
  lemma {:induction false} GathersExactly(get: Getter, infos: seq<ChunkInfo>, k: nat)
    requires k <= |infos|
    ensures Gather(get, infos[..k]).Success? <==> forall i | 0 <= i < k :: FoundAt(get, infos, i)
  {
    if k > 0 {
      GathersExactly(get, infos, k - 1);
      GatherSnoc(get, infos, k - 1);
      assert FoundAt(get, infos, k - 1) <==> get(infos[k - 1].dstHash).Success?;
    }
  }

  /** if not, the failure is that of the first that is not. */
  lemma {:induction false} GatheringFails(get: Getter, infos: seq<ChunkInfo>, k: nat) returns (i: nat)
    requires k <= |infos| && Gather(get, infos[..k]).Failure?
    ensures i < k && forall j | 0 <= j < i :: FoundAt(get, infos, j)
    ensures get(infos[i].dstHash) == Failure(Gather(get, infos[..k]).error)
  {
    GatherSnoc(get, infos, k - 1);
    if Gather(get, infos[..k - 1]).Failure? {
      i := GatheringFails(get, infos, k - 1);
    } else {
      GathersExactly(get, infos, k - 1);
      i := k - 1;
    }
  }

  lemma OpenAllSnoc(cr: Suite, hashes: seq<Name>, chunks: seq<Bytes>, level: nat, k: nat)
    requires k < |chunks|
    ensures OpenAll(cr, hashes, chunks[..k + 1], level) ==
            var most := OpenAll(cr, hashes, chunks[..k], level);
            var last := DecryptChunk(cr, k, chunks[k], hashes, level);
            if most.Failure? then most else if last.Failure? then Failure(last.error) else Success(most.value + [last.value])
  {
    assert chunks[..k + 1][..k] == chunks[..k];
  }

  lemma {:induction false} OpenAllFails(cr: Suite, hashes: seq<Name>, chunks: seq<Bytes>, level: nat, k: nat)
    requires k <= |chunks| && OpenAll(cr, hashes, chunks[..k], level).Failure?
    ensures OpenAll(cr, hashes, chunks, level) == OpenAll(cr, hashes, chunks[..k], level)
    decreases |chunks| - k
  {
    if k < |chunks| {
      OpenAllSnoc(cr, hashes, chunks, level, k);
      OpenAllFails(cr, hashes, chunks, level, k + 1);
    } else {
      assert chunks[..k] == chunks;
    }
  }

  /** Chunk `i` opens as chunk `i`. */
  ghost predicate OpensAt(cr: Suite, hashes: seq<Name>, chunks: seq<Bytes>, level: nat, i: nat)
    requires i < |chunks|
  {
    DecryptChunk(cr, i, chunks[i], hashes, level).Success?
  }

  /** All chunks open exactly if each does, */
  lemma {:induction false} OpensExactly(cr: Suite, hashes: seq<Name>, chunks: seq<Bytes>, level: nat, k: nat)
    requires k <= |chunks|
    ensures OpenAll(cr, hashes, chunks[..k], level).Success? <==> forall i | 0 <= i < k :: OpensAt(cr, hashes, chunks, level, i)
  {
    hide DecryptChunk;
    if k > 0 {
      OpensExactly(cr, hashes, chunks, level, k - 1);
      OpenAllSnoc(cr, hashes, chunks, level, k - 1);
      assert OpensAt(cr, hashes, chunks, level, k - 1) <==> DecryptChunk(cr, k - 1, chunks[k - 1], hashes, level).Success?;
    }
  }

  /** and then to what each opens to; */
  lemma {:induction false} OpensTo(cr: Suite, hashes: seq<Name>, chunks: seq<Bytes>, level: nat, k: nat, i: nat)
    requires i < k <= |chunks| && OpenAll(cr, hashes, chunks[..k], level).Success?
    ensures DecryptChunk(cr, i, chunks[i], hashes, level) == Success(OpenAll(cr, hashes, chunks[..k], level).value[i])
    decreases k
  {
    hide DecryptChunk;
    OpenAllSnoc(cr, hashes, chunks, level, k - 1);
    if i < k - 1 { OpensTo(cr, hashes, chunks, level, k - 1, i); }
  }

  /** otherwise the failure is that of the first that does not. */
  lemma {:induction false} OpeningFailsExactly(cr: Suite, hashes: seq<Name>, chunks: seq<Bytes>, level: nat, k: nat)
    returns (i: nat)
    requires k <= |chunks| && OpenAll(cr, hashes, chunks[..k], level).Failure?
    ensures i < k && (forall j | 0 <= j < i :: OpensAt(cr, hashes, chunks, level, j))
    ensures DecryptChunk(cr, i, chunks[i], hashes, level) == Failure(OpenAll(cr, hashes, chunks[..k], level).error)
  {
    hide DecryptChunk;
    OpenAllSnoc(cr, hashes, chunks, level, k - 1);
    if OpenAll(cr, hashes, chunks[..k - 1], level).Failure? {
      i := OpeningFailsExactly(cr, hashes, chunks, level, k - 1);
    } else {
      OpensExactly(cr, hashes, chunks, level, k - 1);
      i := k - 1;
    }
  }

  /** A list of chunks decrypts exactly if each chunk opens at its place, */
  lemma SortedSetExactly(cr: Suite, hashes: seq<Name>, chunks: seq<Bytes>, level: nat)
    ensures OpenSorted(cr, hashes, chunks, level).Success? <==>
            forall i | 0 <= i < |chunks| :: OpensAt(cr, hashes, chunks, level, i)
  {
    OpensExactly(cr, hashes, chunks, level, |chunks|);
    assert chunks[..|chunks|] == chunks;
  }

  /** and then to what the chunks open to, joined. */
  lemma SortedSetIs(cr: Suite, hashes: seq<Name>, chunks: seq<Bytes>, level: nat, plain: seq<Bytes>)
    requires |plain| == |chunks|
    requires forall i | 0 <= i < |chunks| :: DecryptChunk(cr, i, chunks[i], hashes, level) == Success(plain[i])
    ensures OpenSorted(cr, hashes, chunks, level) == Success(Concat(plain))
  {
    hide DecryptChunk, Concat;
    forall i | 0 <= i < |chunks|
      ensures OpensAt(cr, hashes, chunks, level, i)
    {
      assert DecryptChunk(cr, i, chunks[i], hashes, level) == Success(plain[i]);
    }
    OpensExactly(cr, hashes, chunks, level, |chunks|);
    assert chunks[..|chunks|] == chunks;
    var parts := OpenAll(cr, hashes, chunks, level).value;
    forall i | 0 <= i < |chunks|
      ensures parts[i] == plain[i]
    {
      OpensTo(cr, hashes, chunks, level, |chunks|, i);
    }
    assert parts == plain;
  }

  method DecryptSortedSet(cr: Suite, hashes: seq<Name>, chunks: seq<Bytes>, level: nat) returns (r: Result<Bytes>)
    ensures r == OpenSorted(cr, hashes, chunks, level)
  {
    var decrypted: seq<Bytes> := [];
    for i := 0 to |chunks|
      invariant OpenAll(cr, hashes, chunks[..i], level) == Success(decrypted)
    {
      OpenAllSnoc(cr, hashes, chunks, level, i);
      var chunk := DecryptChunk(cr, i, chunks[i], hashes, level);
      if chunk.Failure? {
        OpenAllFails(cr, hashes, chunks, level, i + 1);
        return Failure(chunk.error);
      }
      decrypted := decrypted + [chunk.value];
    }
    assert chunks[..|chunks|] == chunks;
    var allBytes: Bytes := [];
    for i := 0 to |decrypted|
      invariant allBytes == Concat(decrypted[..i])
    {
      ConcatSnoc(decrypted, i);
      allBytes := allBytes + decrypted[i];
    }
    assert decrypted[..|decrypted|] == decrypted;
    r := Success(allBytes);
  }

  /** The table's chunks for the entries, in the order of the entries. */
  method CollectChunks(table: map<Name, Bytes>, infos: seq<ChunkInfo>) returns (r: Result<seq<Bytes>>)
    ensures r == Gather(Lookup(table), infos)
  {
    var chunks: seq<Bytes> := [];
    for i := 0 to |infos|
      invariant Gather(Lookup(table), infos[..i]) == Success(chunks)
    {
      GatherSnoc(Lookup(table), infos, i);
      if infos[i].dstHash !in table {
        GatherFails(Lookup(table), infos, i + 1);
        return Failure(MissingChunk);
      }
      chunks := chunks + [table[infos[i].dstHash]];
    }
    assert infos[..|infos|] == infos;
    r := Success(chunks);
  }

  method DecryptFullSet(cr: Suite, m: DataMap, chunks: seq<Bytes>) returns (r: Result<Bytes>)
    ensures r == OpenFullSet(cr, m, chunks)
  {
    var table := BuildTable(cr, chunks);
    var sorted := CollectChunks(table, m.infos);
    if sorted.Failure? { return Failure(sorted.error); }
    r := DecryptSortedSet(cr, ExtractHashes(m), sorted.value, m.Level());
  }

  /** Retrieval by a closure, whose answer may depend on everything it was asked for before. */
  type Closure = (seq<Name>, Name) -> Result<Bytes>

  /** The getter always gives the answer that the closure gave when it was asked for these hashes in this order. */
  ghost predicate Repeats(get: Getter, closure: Closure, asked: seq<Name>) {
    forall i | 0 <= i < |asked| :: get(asked[i]) == closure(asked[..i], asked[i])
  }

  predicate AskedOnce(asked: seq<Name>) {
    forall i, j | 0 <= i < j < |asked| :: asked[i] != asked[j]
  }

  /** The cache holds the answers to all that was asked for, and no answer was a failure. */
  ghost predicate Cached(cache: map<Name, Bytes>, closure: Closure, asked: seq<Name>) {
    && (forall h :: h in cache <==> h in asked)
    && forall i | 0 <= i < |asked| :: closure(asked[..i], asked[i]) == Success(cache[asked[i]])
  }

  lemma RepeatsLess(get: Getter, closure: Closure, before: seq<Name>, asked: seq<Name>)
    requires Repeats(get, closure, asked) && before <= asked
    ensures Repeats(get, closure, before)
  {
    forall i | 0 <= i < |before|
      ensures get(before[i]) == closure(before[..i], before[i])
    {
      assert before[..i] == asked[..i] && before[i] == asked[i];
    }
  }

  lemma RepeatsAt(get: Getter, closure: Closure, asked: seq<Name>, i: nat)
    requires Repeats(get, closure, asked) && i < |asked|
    ensures get(asked[i]) == closure(asked[..i], asked[i])
  {
  }

  lemma RepeatsLast(get: Getter, closure: Closure, asked: seq<Name>, h: Name)
    requires Repeats(get, closure, asked + [h])
    ensures get(h) == closure(asked, h)
  {
    assert (asked + [h])[|asked|] == h && (asked + [h])[..|asked|] == asked;
  }

  lemma CachedMore(cache: map<Name, Bytes>, closure: Closure, asked: seq<Name>, h: Name, data: Bytes)
    requires Cached(cache, closure, asked) && h !in cache && closure(asked, h) == Success(data)
    ensures Cached(cache[h := data], closure, asked + [h])
  {
    var more := asked + [h];
    forall i | 0 <= i < |more|
      ensures closure(more[..i], more[i]) == Success(cache[h := data][more[i]])
    {
      if i < |asked| {
        assert asked[i] in asked;
        assert more[..i] == asked[..i];
      } else {
        assert more[..i] == asked;
      }
    }
  }

  /** Every getter that repeats the answers finds these chunks for the entries. */
  ghost predicate Gathered(closure: Closure, asked: seq<Name>, infos: seq<ChunkInfo>, chunks: seq<Bytes>) {
    forall get | Repeats(get, closure, asked) :: Gather(get, infos) == Success(chunks)
  }

  lemma GatheredCached(closure: Closure, asked: seq<Name>, infos: seq<ChunkInfo>, k: nat, chunks: seq<Bytes>,
        cache: map<Name, Bytes>)
    requires k < |infos| && Gathered(closure, asked, infos[..k], chunks)
    requires Cached(cache, closure, asked) && infos[k].dstHash in cache
    ensures Gathered(closure, asked, infos[..k + 1], chunks + [cache[infos[k].dstHash]])
  {
    var h := infos[k].dstHash;
    var i :| 0 <= i < |asked| && asked[i] == h;
    forall get | Repeats(get, closure, asked)
      ensures Gather(get, infos[..k + 1]) == Success(chunks + [cache[h]])
    {
      RepeatsAt(get, closure, asked, i);
      GatherSnoc(get, infos, k);
    }
  }

  lemma GatheredAsked(closure: Closure, asked: seq<Name>, infos: seq<ChunkInfo>, k: nat, chunks: seq<Bytes>)
    requires k < |infos| && Gathered(closure, asked, infos[..k], chunks)
    ensures var h := infos[k].dstHash;
            var answer := closure(asked, h);
            if answer.Success? then Gathered(closure, asked + [h], infos[..k + 1], chunks + [answer.value])
            else forall get | Repeats(get, closure, asked + [h]) :: Gather(get, infos) == Failure(answer.error)
  {
    var h := infos[k].dstHash;
    forall get | Repeats(get, closure, asked + [h])
      ensures var answer := closure(asked, h);
              if answer.Success? then Gather(get, infos[..k + 1]) == Success(chunks + [answer.value])
              else Gather(get, infos) == Failure(answer.error)
    {
      RepeatsLess(get, closure, asked, asked + [h]);
      RepeatsLast(get, closure, asked, h);
      GatherSnoc(get, infos, k);
      if closure(asked, h).Failure? { GatherFails(get, infos, k + 1); }
    }
  }

  /** The chunks of a level, from the cache or else from the closure. */
  method FetchLevel(closure: Closure, infos: seq<ChunkInfo>, cache: map<Name, Bytes>, asked: seq<Name>)
    returns (r: Result<seq<Bytes>>, cache': map<Name, Bytes>, asked': seq<Name>)
    requires AskedOnce(asked) && Cached(cache, closure, asked)
    ensures AskedOnce(asked') && asked <= asked'
    ensures r.Success? ==> Cached(cache', closure, asked')
    ensures forall get | Repeats(get, closure, asked') :: r == Gather(get, infos)
  {
    cache', asked' := cache, asked;
    var chunks: seq<Bytes> := [];
    assert infos[..0] == [];
    for i := 0 to |infos|
      invariant AskedOnce(asked') && asked <= asked' && Cached(cache', closure, asked')
      invariant Gathered(closure, asked', infos[..i], chunks)
    {
      var h := infos[i].dstHash;
      if h in cache' {
        GatheredCached(closure, asked', infos, i, chunks, cache');
        chunks := chunks + [cache'[h]];
      } else {
        GatheredAsked(closure, asked', infos, i, chunks);
        var answer := closure(asked', h);
        if answer.Failure? { return Failure(answer.error), cache', asked' + [h]; }
        CachedMore(cache', closure, asked', h, answer.value);
        cache', asked', chunks := cache'[h := answer.value], asked' + [h], chunks + [answer.value];
      }
    }
    assert infos[..|infos|] == infos;
    r := Success(chunks);
  }

  /** One level of unwinding with a cache shared by all levels. No chunk is asked for twice, so that the outcome is
      that of every getter which always gives the answers that were given, however the closure's answers change. */
  method InnerGetRootMap(cr: Suite, closure: Closure, m: DataMap, cache: map<Name, Bytes>, asked: seq<Name>, depth: nat)
    returns (r: Result<DataMap>, asked': seq<Name>)
    requires AskedOnce(asked) && Cached(cache, closure, asked)
    ensures AskedOnce(asked') && asked <= asked'
    ensures forall get | Repeats(get, closure, asked') :: r == RootMap(cr, get, m, depth)
    decreases MAX_DEPTH + 1 - depth
  {
    if depth > MAX_DEPTH { return Failure(TooDeep), asked; }
    if !m.IsChild() { return Success(m), asked; }
    var chunks, chunkCache, level := FetchLevel(closure, m.infos, cache, asked);
    if chunks.Failure? { return Failure(chunks.error), level; }
    var bytes := DecryptFullSet(cr, m, chunks.value);
    if bytes.Failure? { return Failure(bytes.error), level; }
    var parent := FromBytes(bytes.value);
    if parent.Failure? { return Failure(parent.error), level; }
    r, asked' := InnerGetRootMap(cr, closure, parent.value, chunkCache, level, depth + 1);
    forall get | Repeats(get, closure, asked')
      ensures r == RootMap(cr, get, m, depth)
    {
      RepeatsLess(get, closure, level, asked');
      assert StepUp(cr, get)(m) == parent;
    }
  }

  method GetRootDataMap(cr: Suite, closure: Closure, m: DataMap) returns (r: Result<DataMap>, asked: seq<Name>)
    ensures AskedOnce(asked)
    ensures forall get | Repeats(get, closure, asked) :: r == RootMap(cr, get, m, 0)
  {
    r, asked := InnerGetRootMap(cr, closure, m, map[], [], 0);
  }

  method DecryptBytes(cr: Suite, m: DataMap, chunks: seq<Bytes>) returns (r: Result<Bytes>)
    ensures r == Decrypted(cr, m, chunks)
  {
    var table := BuildTable(cr, chunks);
    var root := m;
    if m.IsChild() {
      var getChunk: Closure := (_: seq<Name>, h: Name) => Lookup(table)(h);
      var unwound, asked := GetRootDataMap(cr, getChunk, m);
      assert Repeats(Lookup(table), getChunk, asked);
      if unwound.Failure? { return Failure(unwound.error); }
      root := unwound.value;
    }
    var rootChunks := CollectChunks(table, root.infos);
    if rootChunks.Failure? { return Failure(rootChunks.error); }
    r := DecryptFullSet(cr, root, rootChunks.value);
  }

  // Facts about tables.

  /** A table holds nothing but the chunks, each under its own hash, and misses none of their hashes. */
  lemma {:induction false} TableEntries(hash: Bytes -> Name, chunks: seq<Bytes>)
    ensures forall h | h in Table(hash, chunks) ::
              Table(hash, chunks)[h] in chunks && hash(Table(hash, chunks)[h]) == h
    ensures forall c | c in chunks :: hash(c) in Table(hash, chunks)
  {
    if chunks != [] {
      var most := chunks[..|chunks| - 1];
      TableEntries(hash, most);
      assert chunks == most + [chunks[|chunks| - 1]];
    }
  }

  /** Of several chunks with the same hash it holds the last. */
  lemma {:induction false} TableKeepsLast(hash: Bytes -> Name, chunks: seq<Bytes>, i: nat)
    requires i < |chunks| && forall j | i < j < |chunks| :: hash(chunks[j]) != hash(chunks[i])
    ensures hash(chunks[i]) in Table(hash, chunks) && Table(hash, chunks)[hash(chunks[i])] == chunks[i]
  {
    if i < |chunks| - 1 {
      assert chunks[..|chunks| - 1][i] == chunks[i];
      TableKeepsLast(hash, chunks[..|chunks| - 1], i);
    }
  }

  /** Without collisions a table finds every chunk. */
  lemma TableFinds(hash: Bytes -> Name, chunks: seq<Bytes>, chunk: Bytes)
    requires NoCollision(hash, chunks) && chunk in chunks
    ensures Lookup(Table(hash, chunks))(hash(chunk)) == Success(chunk)
  {
    TableEntries(hash, chunks);
  }

  /** Without collisions, a larger list of chunks has a larger table. */
  lemma TableMonotone(hash: Bytes -> Name, some: seq<Bytes>, more: seq<Bytes>)
    requires NoCollision(hash, more) && forall c | c in some :: c in more
    ensures forall h | h in Table(hash, some) ::
              h in Table(hash, more) && Table(hash, more)[h] == Table(hash, some)[h]
  {
    TableEntries(hash, some);
    TableEntries(hash, more);
  }

  /** The chunk that a table of chunks has for entry `i`. */
  ghost function ChunkFor(cr: Suite, m: DataMap, chunks: seq<Bytes>, i: nat): Result<Bytes>
    requires i < |m.infos|
  {
    Lookup(Table(cr.hash, chunks))(m.infos[i].dstHash)
  }

  /** Whether entry `i` of a map can be read from the chunks: there is one with its hash, and it opens at its place. */
  ghost predicate EntryOpens(cr: Suite, m: DataMap, chunks: seq<Bytes>, i: nat)
    requires i < |m.infos|
  {
    ChunkFor(cr, m, chunks, i).Success?
    && DecryptChunk(cr, i, ChunkFor(cr, m, chunks, i).value, ExtractHashes(m), m.Level()).Success?
  }

  /** A full set decrypts exactly if every entry can be read; a chunk that is not there is a missing chunk. */
  lemma FullSetExactly(cr: Suite, m: DataMap, chunks: seq<Bytes>)
    ensures OpenFullSet(cr, m, chunks).Success? <==> forall i | 0 <= i < |m.infos| :: EntryOpens(cr, m, chunks, i)
    ensures (exists i :: 0 <= i < |m.infos| && ChunkFor(cr, m, chunks, i).Failure?) ==>
              OpenFullSet(cr, m, chunks) == Failure(MissingChunk)
  {
    var get := Lookup(Table(cr.hash, chunks));
    GathersExactly(get, m.infos, |m.infos|);
    assert m.infos[..|m.infos|] == m.infos;
    if Gather(get, m.infos).Success? {
      GatherGives(get, m.infos);
      var sorted := Gather(get, m.infos).value;
      SortedSetExactly(cr, ExtractHashes(m), sorted, m.Level());
      forall i | 0 <= i < |m.infos|
        ensures OpensAt(cr, ExtractHashes(m), sorted, m.Level(), i) <==> EntryOpens(cr, m, chunks, i)
      {
        assert ChunkFor(cr, m, chunks, i) == Success(sorted[i]);
      }
    } else {
      var i := GatheringFails(get, m.infos, |m.infos|);
      assert !EntryOpens(cr, m, chunks, i);
    }
  }

  /** A root map decrypts exactly if every entry can be read; a child map exactly if it unwinds to a map that does. */
  lemma DecryptsExactly(cr: Suite, m: DataMap, chunks: seq<Bytes>)
    ensures var root := if m.IsChild() then RootMap(cr, Lookup(Table(cr.hash, chunks)), m, 0) else Success(m);
            && (root.Failure? ==> Decrypted(cr, m, chunks) == Failure(root.error))
            && (root.Success? ==>
                  && (Decrypted(cr, m, chunks).Success? <==>
                      forall i | 0 <= i < |root.value.infos| :: EntryOpens(cr, root.value, chunks, i))
                  && ((exists i :: 0 <= i < |root.value.infos| && ChunkFor(cr, root.value, chunks, i).Failure?) ==>
                      Decrypted(cr, m, chunks) == Failure(MissingChunk)))
  {
    var get := Lookup(Table(cr.hash, chunks));
    var root := if m.IsChild() then RootMap(cr, get, m, 0) else Success(m);
    if root.Success? {
      var r := root.value;
      GathersExactly(get, r.infos, |r.infos|);
      assert r.infos[..|r.infos|] == r.infos;
      if Gather(get, r.infos).Success? {
        SameEntries(cr, r, chunks, Gather(get, r.infos).value);
        FullSetExactly(cr, r, Gather(get, r.infos).value);
      } else {
        var i := GatheringFails(get, r.infos, |r.infos|);
        assert !EntryOpens(cr, r, chunks, i);
      }
    }
  }

  /** The chunks taken from a table for the entries of a map make a table that gives those entries the same chunks. */
  lemma SameEntries(cr: Suite, m: DataMap, chunks: seq<Bytes>, taken: seq<Bytes>)
    requires Gather(Lookup(Table(cr.hash, chunks)), m.infos) == Success(taken)
    ensures forall i | 0 <= i < |m.infos| :: ChunkFor(cr, m, taken, i) == ChunkFor(cr, m, chunks, i) == Success(taken[i])
    ensures forall i | 0 <= i < |m.infos| :: EntryOpens(cr, m, taken, i) <==> EntryOpens(cr, m, chunks, i)
  {
    GatherGives(Lookup(Table(cr.hash, chunks)), m.infos);
    TableEntries(cr.hash, chunks);
    TableEntries(cr.hash, taken);
    forall i | 0 <= i < |m.infos|
      ensures ChunkFor(cr, m, taken, i) == ChunkFor(cr, m, chunks, i) == Success(taken[i])
    {
      var h := m.infos[i].dstHash;
      assert Lookup(Table(cr.hash, chunks))(h) == Success(taken[i]);
      assert taken[i] in taken && cr.hash(taken[i]) == h;
      var c := Table(cr.hash, taken)[h];
      var j :| 0 <= j < |taken| && taken[j] == c;
      assert Lookup(Table(cr.hash, chunks))(m.infos[j].dstHash) == Success(taken[j]);
    }
  }

  /** Every answer of `some` is an answer of `more`. */
  ghost predicate Extends(some: Getter, more: Getter) {
    forall h | some(h).Success? :: more(h) == some(h)
  }

  lemma {:induction false} GatherExtends(some: Getter, more: Getter, infos: seq<ChunkInfo>)
    requires Extends(some, more) && Gather(some, infos).Success?
    ensures Gather(more, infos) == Gather(some, infos)
  {
    if infos != [] {
      GatherExtends(some, more, infos[..|infos| - 1]);
    }
  }

  lemma ParentMapExtends(cr: Suite, some: Getter, more: Getter, m: DataMap)
    requires Extends(some, more) && ParentMap(cr, some, m).Success?
    ensures ParentMap(cr, more, m) == ParentMap(cr, some, m)
  {
    GatherExtends(some, more, m.infos);
  }

  lemma {:induction false} UnwindExtends(some: DataMap -> Result<DataMap>, more: DataMap -> Result<DataMap>,
        m: DataMap, depth: nat)
    requires forall x | some(x).Success? :: more(x) == some(x)
    requires Unwind(some, m, depth).Success?
    ensures Unwind(more, m, depth) == Unwind(some, m, depth)
    decreases MAX_DEPTH + 1 - depth
  {
    if m.IsChild() {
      UnwindExtends(some, more, some(m).value, depth + 1);
    }
  }

  lemma RootMapExtends(cr: Suite, some: Getter, more: Getter, m: DataMap, depth: nat)
    requires Extends(some, more) && RootMap(cr, some, m, depth).Success?
    ensures RootMap(cr, more, m, depth) == RootMap(cr, some, m, depth)
  {
    forall x | StepUp(cr, some)(x).Success?
      ensures StepUp(cr, more)(x) == StepUp(cr, some)(x)
    {
      ParentMapExtends(cr, some, more, x);
    }
    UnwindExtends(StepUp(cr, some), StepUp(cr, more), m, depth);
  }

  /** More chunks never change a result: reordering, duplicating or adding chunks leaves what was decrypted. */
  lemma DecryptionIsMonotone(cr: Suite, m: DataMap, some: seq<Bytes>, more: seq<Bytes>)
    requires NoCollision(cr.hash, more) && forall c | c in some :: c in more
    requires Decrypted(cr, m, some).Success?
    ensures Decrypted(cr, m, more) == Decrypted(cr, m, some)
  {
    TableMonotone(cr.hash, some, more);
    var getSome, getMore := Lookup(Table(cr.hash, some)), Lookup(Table(cr.hash, more));
    if m.IsChild() {
      RootMapExtends(cr, getSome, getMore, m, 0);
    }
    var root := if m.IsChild() then RootMap(cr, getSome, m, 0).value else m;
    GatherExtends(getSome, getMore, root.infos);
  }

  /** Only the set of chunks matters, for failures too. */
  lemma DecryptionDependsOnSet(cr: Suite, m: DataMap, a: seq<Bytes>, b: seq<Bytes>)
    requires NoCollision(cr.hash, a) && forall c :: c in a <==> c in b
    ensures Decrypted(cr, m, a) == Decrypted(cr, m, b)
    ensures OpenFullSet(cr, m, a) == OpenFullSet(cr, m, b)
  {
    TableMonotone(cr.hash, a, b);
    TableMonotone(cr.hash, b, a);
    assert Table(cr.hash, a) == Table(cr.hash, b);
  }

  // What was sealed opens again.

  lemma {:induction false} GatherFinds(get: Getter, infos: seq<ChunkInfo>, chunks: seq<Bytes>)
    requires |infos| == |chunks| && forall i | 0 <= i < |infos| :: get(infos[i].dstHash) == Success(chunks[i])
    ensures Gather(get, infos) == Success(chunks)
  {
    if infos == [] {
      assert chunks == [];
    } else {
      var last := |infos| - 1;
      GatherFinds(get, infos[..last], chunks[..last]);
      assert chunks == chunks[..last] + [chunks[last]];
    }
  }

  lemma {:induction false} OpenAllInverts(cr: Suite, pieces: seq<Bytes>, level: nat, k: nat)
    requires Lawful(cr) && AllSealed(cr, pieces, level) && k <= |pieces|
    ensures OpenAll(cr, SrcHashes(cr, pieces), Sealed(cr, pieces, level)[..k], level) == Success(pieces[..k])
  {
    var hashes, seals := SrcHashes(cr, pieces), Sealed(cr, pieces, level);
    if k > 0 {
      OpenAllInverts(cr, pieces, level, k - 1);
      OpenAllSnoc(cr, hashes, seals, level, k - 1);
      OpenInvertsSeal(cr, k - 1, pieces[k - 1], hashes, level);
      assert SealPiece(cr, pieces, level, k - 1).Success?;
      PrefixSnoc(pieces, k - 1);
    }
  }

  lemma HashesOfMap(cr: Suite, pieces: seq<Bytes>, level: nat, m: DataMap)
    requires AllSealed(cr, pieces, level) && m.infos == MapOf(cr, pieces, level).infos
    ensures ExtractHashes(m) == SrcHashes(cr, pieces)
  {
  }

  lemma OpenedSet(cr: Suite, m: DataMap, chunks: seq<Bytes>, found: seq<Bytes>)
    requires Gather(Lookup(Table(cr.hash, chunks)), m.infos) == Success(found)
    ensures OpenFullSet(cr, m, chunks) == OpenSorted(cr, ExtractHashes(m), found, m.Level())
  {
  }

  lemma OpenSortedInverts(cr: Suite, pieces: seq<Bytes>, level: nat)
    requires Lawful(cr) && AllSealed(cr, pieces, level)
    ensures OpenSorted(cr, SrcHashes(cr, pieces), Sealed(cr, pieces, level), level) == Success(Concat(pieces))
  {
    OpenAllInverts(cr, pieces, level, |pieces|);
    var seals := Sealed(cr, pieces, level);
    assert seals[..|pieces|] == seals && pieces[..|pieces|] == pieces;
  }

  /** A full set opens to the pieces, whatever else is among the chunks. */
  lemma FullSetRoundTrip(cr: Suite, pieces: seq<Bytes>, m: DataMap, chunks: seq<Bytes>)
    requires Lawful(cr) && AllSealed(cr, pieces, m.Level())
    requires m.infos == MapOf(cr, pieces, m.Level()).infos
    requires NoCollision(cr.hash, chunks)
    requires forall c | c in Sealed(cr, pieces, m.Level()) :: c in chunks
    ensures OpenFullSet(cr, m, chunks) == Success(Concat(pieces))
  {
    SealsGather(cr, pieces, m, chunks);
    HashesOfMap(cr, pieces, m.Level(), m);
    OpenedSet(cr, m, chunks, Sealed(cr, pieces, m.Level()));
    OpenSortedInverts(cr, pieces, m.Level());
  }

  lemma SealsGather(cr: Suite, pieces: seq<Bytes>, m: DataMap, chunks: seq<Bytes>)
    requires AllSealed(cr, pieces, m.Level())
    requires m.infos == MapOf(cr, pieces, m.Level()).infos
    requires NoCollision(cr.hash, chunks)
    requires forall c | c in Sealed(cr, pieces, m.Level()) :: c in chunks
    ensures Gather(Lookup(Table(cr.hash, chunks)), m.infos) == Success(Sealed(cr, pieces, m.Level()))
  {
    var seals := Sealed(cr, pieces, m.Level());
    var get := Lookup(Table(cr.hash, chunks));
    forall i | 0 <= i < |pieces|
      ensures get(m.infos[i].dstHash) == Success(seals[i])
    {
      assert seals[i] in seals;
      TableFinds(cr.hash, chunks, seals[i]);
    }
    GatherFinds(get, m.infos, seals);
  }
}
