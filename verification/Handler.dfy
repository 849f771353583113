/** The handlers themselves (ant-node/src/storage/handler.rs and PaymentVerifier of ant-node/src/payment/verifier.rs),
    each run without interruption, and their agreement with the interleaved steps of module Node. */
module Handler {
  import opened Prelude
  import opened Lru
  import opened Payment
  import opened Storage
  import opened Node

  // A request on its own.

  /** Gives a request turn after turn until it is answered. */
  ghost function Finish(cfg: Config, s: State, id: nat, env: Env): State
    decreases if id in s.tasks then Rank(s.tasks[id].phase) else 0
  {
    if id !in s.tasks || s.tasks[id].phase.Done? then s
    else
      EffectProgresses(cfg, s, s.tasks[id].request, s.tasks[id].phase, env);
      Finish(cfg, Advanced(cfg, s, id, env), id, env)
  }

  /** What verifying a payment leaves of the caches when nothing comes in between, and whether it succeeds. */
  ghost function Verified(cfg: Config, cache: Entries<Name, ()>, pool: Entries<Name, PoolInfo>, request: Request,
        env: Env)
    : (Entries<Name, ()>, Entries<Name, PoolInfo>, bool)
  {
    var a := request.address;
    var promoted := Promote(cache, a);
    if Find(cache, a).Some? then (promoted, pool, true)
    else
      var (pool', paid) := ProofPays(cfg, pool, request, env);
      (if paid then Put(promoted, a, (), cfg.Capacity()) else promoted, pool', paid)
  }

  /** What judging a proof leaves of the pool cache, and whether it pays. */
  ghost function ProofPays(cfg: Config, pool: Entries<Name, PoolInfo>, request: Request, env: Env)
    : (Entries<Name, PoolInfo>, bool)
  {
    match ReadProof(cfg, request)
    case Single(quotes) => (pool, SingleAccepted(cfg.lib, cfg.node, request.address, quotes, env.now, env.vault))
    case PoolLooking(mp) => PoolPays(cfg, pool, mp, env)
    case _ => (pool, false)
  }

  /** A cached pool record, else the chain's, which is then cached. */
  ghost function PoolPays(cfg: Config, pool: Entries<Name, PoolInfo>, mp: MerkleProof, env: Env)
    : (Entries<Name, PoolInfo>, bool)
  {
    var hash := cfg.lib.poolHash(mp.winnerPool);
    var found := Find(pool, hash);
    if found.Some? then (Promote(pool, hash), MerkleAccepted(cfg.lib, mp, found.value))
    else if env.chain.None? then (pool, false)
    else (Put(pool, hash, env.chain.value, POOL_CACHE_CAPACITY), MerkleAccepted(cfg.lib, mp, env.chain.value))
  }

  /** The record by which a pool's payment is judged: the cached one, else the chain's. */
  function RecordFor(pool: Entries<Name, PoolInfo>, hash: Name, chain: Option<PoolInfo>): Option<PoolInfo> {
    if Find(pool, hash).Some? then Find(pool, hash) else chain
  }

  /** A proof of 32 to 262144 bytes that starts with 2, reads as a proof for this address, and holds by the record of
      its pool. */
  ghost predicate PaidByPool(cfg: Config, pool: Entries<Name, PoolInfo>, request: Request, env: Env) {
    && request.proof.Some? && 32 <= |request.proof.value| <= 262_144 && request.proof.value[0] == 2
    && var mp := cfg.lib.decodeMerkle(request.proof.value);
    && mp.Some? && mp.value.address == request.address
    && var record := RecordFor(pool, cfg.lib.poolHash(mp.value.winnerPool), env.chain);
    && record.Some? && MerkleAccepted(cfg.lib, mp.value, record.value)
  }

  /** The address is cached as paid, or the proof pays for it in one of the two ways. */
  ghost predicate PaysFor(cfg: Config, cache: Entries<Name, ()>, pool: Entries<Name, PoolInfo>, request: Request,
        env: Env) {
    request.address in KeySet(cache) || PaidSingly(cfg, request, env) || PaidByPool(cfg, pool, request, env)
  }

  /** Verification succeeds exactly if the request is paid for; a first byte other than 1 and 2 never pays. */
  lemma VerifiesExactly(cfg: Config, cache: Entries<Name, ()>, pool: Entries<Name, PoolInfo>, request: Request,
        env: Env)
    ensures Verified(cfg, cache, pool, request, env).2 <==> PaysFor(cfg, cache, pool, request, env)
  {
    hide Promote, Put, SingleAccepted, MerkleAccepted, KeySet;
    FindFacts(cache, request.address);
  }

  /** After a success the address is cached as paid, the last one to be evicted; after a failure the cache is as before.
      Whatever record the proof was judged by is cached for its pool, likewise. */
  lemma VerifiedLeaves(cfg: Config, cache: Entries<Name, ()>, pool: Entries<Name, PoolInfo>, request: Request, env: Env)
    ensures var (cache', pool', ok) := Verified(cfg, cache, pool, request, env);
            && (ok ==> cache' != [] && cache'[0] == (request.address, ()))
            && (!ok ==> cache' == cache)
            && (request.address in KeySet(cache) ==> pool' == pool)
            && (request.address !in KeySet(cache) && ReadProof(cfg, request).PoolLooking? ==>
                  var hash := cfg.lib.poolHash(ReadProof(cfg, request).mp.winnerPool);
                  && (RecordFor(pool, hash, env.chain).None? ==> pool' == pool)
                  && (RecordFor(pool, hash, env.chain).Some? ==>
                        pool' != [] && pool'[0] == (hash, RecordFor(pool, hash, env.chain).value))
                  && (Find(pool, hash).None? && env.chain.Some? ==> pool' == Put(pool, hash, env.chain.value, 1_000)))
  {
    hide SingleAccepted, MerkleAccepted, Find;
    FindFacts(cache, request.address);
    PromoteFacts(cache, request.address);
    NotFound(cache, request.address);
    PutFacts(Promote(cache, request.address), request.address, (), cfg.Capacity());
    if ReadProof(cfg, request).PoolLooking? {
      var hash := cfg.lib.poolHash(ReadProof(cfg, request).mp.winnerPool);
      PromoteFacts(pool, hash);
      if env.chain.Some? { PutFacts(pool, hash, env.chain.value, POOL_CACHE_CAPACITY); }
    }
  }

  lemma NotFound(cache: Entries<Name, ()>, key: Name)
    ensures Find(cache, key).None? ==> Promote(cache, key) == cache
    ensures Find(cache, key).Some? ==> Find(cache, key) == Some(())
  {
    if Find(cache, key).Some? { assert Find(cache, key).value == (); }
  }

  /** What a PUT is answered when nothing comes in between, in the order in which the reasons to refuse it are seen. */
  ghost function Answer(cfg: Config, db: Database, paid: bool, request: Request, env: Env): Reply {
    if |request.content| > 4_194_304 then Refused(ChunkTooLarge)
    else if cfg.lib.hash(request.content) != request.address then Refused(WrongAddress)
    else if env.checkFails then Refused(Internal)
    else if request.address in db then AlreadyExists
    else if !paid then Refused(PaymentFailed)
    else if env.lookFails || env.writeFails || (cfg.maxChunks > 0 && |db| >= cfg.maxChunks) then Refused(StorageFailed)
    else Stored
  }

  /** The states agree but for the caches and what is noted about payments. */
  predicate SameButPaid(s: State, t: State) {
    && t.db == s.db && t.chunksStored == s.chunksStored && t.duplicates == s.duplicates
    && t.log.stored == s.log.stored && t.log.deleted == s.log.deleted && t.log.duplicates == s.log.duplicates
  }

  /** One turn does not change how a request ends. */
  lemma OneTurn(cfg: Config, s: State, id: nat, env: Env)
    requires id in s.tasks && !s.tasks[id].phase.Done?
    ensures Finish(cfg, s, id, env) == Finish(cfg, Advanced(cfg, s, id, env), id, env)
  {
  }

  /** From the record on: the proof is judged and, if it holds, the address cached. */
  lemma MerkleEnds(cfg: Config, s: State, id: nat, env: Env) returns (t: State)
    requires id in s.tasks && s.tasks[id].phase.Merkle?
    ensures var task := s.tasks[id];
            var ok := MerkleAccepted(cfg.lib, task.phase.mp, task.phase.info);
            && SameButPaid(s, t) && t.pool == s.pool
            && t.cache == (if ok then Put(s.cache, task.request.address, (), cfg.Capacity()) else s.cache)
            && t.tasks == s.tasks[id := task.(phase := if ok then Putting else Done(Refused(PaymentFailed)))]
    ensures Finish(cfg, s, id, env) == Finish(cfg, t, id, env)
  {
    OneTurn(cfg, s, id, env);
    t := Advanced(cfg, s, id, env);
    if MerkleAccepted(cfg.lib, s.tasks[id].phase.mp, s.tasks[id].phase.info) {
      assert t.tasks == s.tasks[id := s.tasks[id].(phase := Caching)];
      t := CachingEnds(cfg, t, id, env);
    }
  }

  lemma CachingEnds(cfg: Config, s: State, id: nat, env: Env) returns (t: State)
    requires id in s.tasks && s.tasks[id].phase.Caching?
    ensures SameButPaid(s, t) && t.pool == s.pool
    ensures t.cache == Put(s.cache, s.tasks[id].request.address, (), cfg.Capacity())
    ensures t.tasks == s.tasks[id := s.tasks[id].(phase := Putting)]
    ensures Finish(cfg, s, id, env) == Finish(cfg, t, id, env)
  {
    OneTurn(cfg, s, id, env);
    t := Advanced(cfg, s, id, env);
  }

  lemma SingleEnds(cfg: Config, s: State, id: nat, env: Env) returns (t: State)
    requires id in s.tasks && s.tasks[id].phase.Single?
    ensures var task := s.tasks[id];
            var ok := SingleAccepted(cfg.lib, cfg.node, task.request.address, task.phase.quotes, env.now, env.vault);
            && SameButPaid(s, t) && t.pool == s.pool
            && t.cache == (if ok then Put(s.cache, task.request.address, (), cfg.Capacity()) else s.cache)
            && t.tasks == s.tasks[id := task.(phase := if ok then Putting else Done(Refused(PaymentFailed)))]
    ensures Finish(cfg, s, id, env) == Finish(cfg, t, id, env)
  {
    OneTurn(cfg, s, id, env);
    t := Advanced(cfg, s, id, env);
    if t.tasks[id].phase.Caching? {
      t := CachingEnds(cfg, t, id, env);
    }
  }

  /** The pool record: cached, or asked for and then cached. */
  lemma PoolEnds(cfg: Config, s: State, id: nat, env: Env) returns (t: State)
    requires id in s.tasks && s.tasks[id].phase.PoolLooking?
    ensures var task := s.tasks[id];
            var (pool, ok) := PoolPays(cfg, s.pool, task.phase.mp, env);
            && SameButPaid(s, t) && t.pool == pool
            && t.cache == (if ok then Put(s.cache, task.request.address, (), cfg.Capacity()) else s.cache)
            && t.tasks == s.tasks[id := task.(phase := if ok then Putting else Done(Refused(PaymentFailed)))]
    ensures Finish(cfg, s, id, env) == Finish(cfg, t, id, env)
  {
    OneTurn(cfg, s, id, env);
    t := Advanced(cfg, s, id, env);
    if t.tasks[id].phase.PoolAsking? {
      t := AskingEnds(cfg, t, id, env);
    } else {
      t := MerkleEnds(cfg, t, id, env);
    }
  }

  lemma AskingEnds(cfg: Config, s: State, id: nat, env: Env) returns (t: State)
    requires id in s.tasks && s.tasks[id].phase.PoolAsking?
    ensures var task := s.tasks[id];
            var hash := cfg.lib.poolHash(task.phase.mp.winnerPool);
            var ok := env.chain.Some? && MerkleAccepted(cfg.lib, task.phase.mp, env.chain.value);
            && SameButPaid(s, t)
            && t.pool == (if env.chain.None? then s.pool else Put(s.pool, hash, env.chain.value, POOL_CACHE_CAPACITY))
            && t.cache == (if ok then Put(s.cache, task.request.address, (), cfg.Capacity()) else s.cache)
            && t.tasks == s.tasks[id := task.(phase := if ok then Putting else Done(Refused(PaymentFailed)))]
    ensures Finish(cfg, s, id, env) == Finish(cfg, t, id, env)
  {
    OneTurn(cfg, s, id, env);
    t := Advanced(cfg, s, id, env);
    if t.tasks[id].phase.PoolCaching? {
      t := RecordEnds(cfg, t, id, env);
    }
  }

  lemma RecordEnds(cfg: Config, s: State, id: nat, env: Env) returns (t: State)
    requires id in s.tasks && s.tasks[id].phase.PoolCaching?
    ensures var task := s.tasks[id];
            var hash := cfg.lib.poolHash(task.phase.mp.winnerPool);
            var ok := MerkleAccepted(cfg.lib, task.phase.mp, task.phase.info);
            && SameButPaid(s, t) && t.pool == Put(s.pool, hash, task.phase.info, POOL_CACHE_CAPACITY)
            && t.cache == (if ok then Put(s.cache, task.request.address, (), cfg.Capacity()) else s.cache)
            && t.tasks == s.tasks[id := task.(phase := if ok then Putting else Done(Refused(PaymentFailed)))]
    ensures Finish(cfg, s, id, env) == Finish(cfg, t, id, env)
  {
    OneTurn(cfg, s, id, env);
    t := Advanced(cfg, s, id, env);
    t := MerkleEnds(cfg, t, id, env);
  }

  /** Verification step by step, without interruption, is verification at once. */
  lemma VerifyingEnds(cfg: Config, s: State, id: nat, env: Env) returns (t: State)
    requires id in s.tasks && s.tasks[id].phase.Looking?
    ensures var task := s.tasks[id];
            var (cache, pool, ok) := Verified(cfg, s.cache, s.pool, task.request, env);
            && SameButPaid(s, t) && t.cache == cache && t.pool == pool
            && t.tasks == s.tasks[id := task.(phase := if ok then Putting else Done(Refused(PaymentFailed)))]
    ensures Finish(cfg, s, id, env) == Finish(cfg, t, id, env)
  {
    OneTurn(cfg, s, id, env);
    t := Advanced(cfg, s, id, env);
    if Find(s.cache, s.tasks[id].request.address).None? {
      t := ProofEnds(cfg, t, id, env);
    }
  }

  lemma ProofEnds(cfg: Config, s: State, id: nat, env: Env) returns (t: State)
    requires id in s.tasks && s.tasks[id].phase == ReadProof(cfg, s.tasks[id].request)
    ensures var task := s.tasks[id];
            var (pool, ok) := ProofPays(cfg, s.pool, task.request, env);
            && SameButPaid(s, t) && t.pool == pool
            && t.cache == (if ok then Put(s.cache, task.request.address, (), cfg.Capacity()) else s.cache)
            && t.tasks == s.tasks[id := task.(phase := if ok then Putting else Done(Refused(PaymentFailed)))]
    ensures Finish(cfg, s, id, env) == Finish(cfg, t, id, env)
  {
    match s.tasks[id].phase
    case Single(_) => t := SingleEnds(cfg, s, id, env);
    case PoolLooking(_) => t := PoolEnds(cfg, s, id, env);
    case _ => t := s;
  }

  /** The put's steps without interruption are a put at once. */
  lemma PuttingEnds(cfg: Config, s: State, id: nat, env: Env) returns (t: State)
    requires id in s.tasks && s.tasks[id].phase.Putting?
    requires cfg.lib.hash(s.tasks[id].request.content) == s.tasks[id].request.address
    ensures var request := s.tasks[id].request;
            var (db, r) := TryPut(s.db, cfg.maxChunks, request.address, request.content, env.lookFails, env.writeFails);
            && t.db == db && t.cache == s.cache && t.pool == s.pool
            && t.chunksStored == s.chunksStored + (if r == Success(true) then 1 else 0)
            && t.duplicates == s.duplicates + (if r == Success(false) then 1 else 0)
            && t.tasks == s.tasks[id := s.tasks[id].(phase := Done(if r.Success? then Stored else Refused(StorageFailed)))]
    ensures Finish(cfg, s, id, env) == t
  {
    OneTurn(cfg, s, id, env);
    t := Advanced(cfg, s, id, env);
    if t.tasks[id].phase.Writing? {
      t := WritingEnds(cfg, t, id, env);
    } else if !t.tasks[id].phase.Done? {
      t := CountingEnds(cfg, t, id, env);
    }
  }

  lemma WritingEnds(cfg: Config, s: State, id: nat, env: Env) returns (t: State)
    requires id in s.tasks && s.tasks[id].phase.Writing?
    ensures var request := s.tasks[id].request;
            var (db, r) := if env.writeFails then (s.db, Failure(StoreFailed))
                           else PutTxn(s.db, cfg.maxChunks, request.address, request.content);
            && t.db == db && t.cache == s.cache && t.pool == s.pool
            && t.chunksStored == s.chunksStored + (if r == Success(true) then 1 else 0)
            && t.duplicates == s.duplicates + (if r == Success(false) then 1 else 0)
            && t.tasks == s.tasks[id := s.tasks[id].(phase := Done(if r.Success? then Stored else Refused(StorageFailed)))]
    ensures Finish(cfg, s, id, env) == t
  {
    OneTurn(cfg, s, id, env);
    t := Advanced(cfg, s, id, env);
    if !t.tasks[id].phase.Done? {
      t := CountingEnds(cfg, t, id, env);
    }
  }

  lemma CountingEnds(cfg: Config, s: State, id: nat, env: Env) returns (t: State)
    requires id in s.tasks && (s.tasks[id].phase.CountingStored? || s.tasks[id].phase.CountingDuplicate?)
    ensures t.db == s.db && t.cache == s.cache && t.pool == s.pool
    ensures t.chunksStored == s.chunksStored + (if s.tasks[id].phase.CountingStored? then 1 else 0)
    ensures t.duplicates == s.duplicates + (if s.tasks[id].phase.CountingDuplicate? then 1 else 0)
    ensures t.tasks == s.tasks[id := s.tasks[id].(phase := Done(Stored))]
    ensures Finish(cfg, s, id, env) == t
  {
    OneTurn(cfg, s, id, env);
    t := Advanced(cfg, s, id, env);
    OneTurn(cfg, t, id, env);
    t := Advanced(cfg, t, id, env);
  }

  /** A request that has just arrived: its size and address, and whether its chunk is there. */
  lemma ArrivingEnds(cfg: Config, s: State, id: nat, env: Env) returns (t: State)
    requires id in s.tasks && s.tasks[id].phase.Arrived?
    ensures var request := s.tasks[id].request;
            t == At(s, id, if |request.content| > MAX_CHUNK_SIZE then Done(Refused(ChunkTooLarge))
                           else if cfg.lib.hash(request.content) != request.address then Done(Refused(WrongAddress))
                           else if env.checkFails then Done(Refused(Internal))
                           else if request.address in s.db then Done(AlreadyExists)
                           else Looking)
    ensures Finish(cfg, s, id, env) == Finish(cfg, t, id, env)
  {
    OneTurn(cfg, s, id, env);
    t := Advanced(cfg, s, id, env);
    if t.tasks[id].phase.Checking? {
      OneTurn(cfg, t, id, env);
      t := Advanced(cfg, t, id, env);
    }
  }

  lemma RunAppend(cfg: Config, s: State, events: seq<Event>, e: Event)
    ensures Run(cfg, s, events + [e]) == Apply(cfg, Run(cfg, s, events), e)
  {
    assert (events + [e])[..|events|] == events;
  }

  /** A request finished on its own is one of the interleavings: what holds after every run holds after it. */
  lemma {:induction false} FinishIsRun(cfg: Config, start: State, events: seq<Event>, id: nat, env: Env)
    returns (more: seq<Event>)
    ensures events <= more && Run(cfg, start, more) == Finish(cfg, Run(cfg, start, events), id, env)
    decreases var s := Run(cfg, start, events); if id in s.tasks then Rank(s.tasks[id].phase) else 0
  {
    var s := Run(cfg, start, events);
    if id !in s.tasks || s.tasks[id].phase.Done? {
      more := events;
    } else {
      RunAppend(cfg, start, events, Advance(id, env));
      EffectProgresses(cfg, s, s.tasks[id].request, s.tasks[id].phase, env);
      more := FinishIsRun(cfg, start, events + [Advance(id, env)], id, env);
    }
  }

  datatype PaymentStatus = CachedAsVerified | PaymentRequired | PaymentVerified {
    predicate CanStore() {
      CachedAsVerified? || PaymentVerified?
    }
  }

  class PaymentVerifier {
    const cfg: Config
    const cache: VerifiedCache
    var poolCache: Entries<Name, PoolInfo>

    ghost predicate Valid()
      reads this, cache
    {
      cache.Valid() && cache.capacity == cfg.Capacity()
    }

    constructor (cfg: Config)
      ensures Valid() && fresh(cache) && this.cfg == cfg && cache.inner == [] && poolCache == []
    {
      this.cfg := cfg;
      cache := new VerifiedCache(cfg.cacheCapacity);
      poolCache := [];
    }

    method CheckPaymentRequired(address: Name) returns (status: PaymentStatus)
      requires Valid()
      modifies cache
      ensures Valid() && cache.inner == Promote(old(cache.inner), address)
      ensures status == if Find(old(cache.inner), address).Some? then CachedAsVerified else PaymentRequired
    {
      var found := cache.Contains(address);
      status := if found then CachedAsVerified else PaymentRequired;
    }

    /** Judges a decoded Merkle proof by the pool record, cached or from the chain. */
    method VerifyMerklePayment(mp: MerkleProof, env: Env) returns (ok: bool)
      modifies this`poolCache
      ensures (poolCache, ok) == PoolPays(cfg, old(poolCache), mp, env)
    {
      var poolHash := cfg.lib.poolHash(mp.winnerPool);
      var cachedInfo := Find(poolCache, poolHash);
      poolCache := Promote(poolCache, poolHash);
      var info;
      if cachedInfo.Some? {
        info := cachedInfo.value;
      } else {
        if env.chain.None? { return false; }
        info := env.chain.value;
        poolCache := Put(poolCache, poolHash, info, POOL_CACHE_CAPACITY);
      }
      ok := CheckMerkle(cfg.lib, mp, info);
    }

    /** Reads and judges a payment proof. */
    method VerifyProof(request: Request, env: Env) returns (ok: bool)
      modifies this`poolCache
      ensures (poolCache, ok) == ProofPays(cfg, old(poolCache), request, env)
    {
      if request.proof.None? { return false; }
      var proof := request.proof.value;
      if |proof| < MIN_PAYMENT_PROOF_SIZE { return false; }
      if |proof| > MAX_PAYMENT_PROOF_SIZE { return false; }
      if proof[0] == PROOF_TAG_MERKLE {
        var mp := cfg.lib.decodeMerkle(proof);
        if mp.None? { return false; }
        if mp.value.address != request.address { return false; }
        ok := VerifyMerklePayment(mp.value, env);
      } else if proof[0] == PROOF_TAG_SINGLE_NODE {
        var quotes := cfg.lib.decodeSingle(proof);
        if quotes.None? { return false; }
        ok := VerifyEvmPayment(cfg.lib, cfg.node, request.address, quotes.value, env.now, env.vault);
      } else {
        return false;
      }
    }

    /** A cached address needs no proof; a proof that holds puts the address into the cache. A successful answer
        always permits storing. */
    method VerifyPayment(request: Request, env: Env) returns (r: Result<PaymentStatus>)
      requires Valid()
      modifies this`poolCache, cache
      ensures Valid()
      ensures (cache.inner, poolCache, r.Success?) == Verified(cfg, old(cache.inner), old(poolCache), request, env)
      ensures r.Success? <==> PaysFor(cfg, old(cache.inner), old(poolCache), request, env)
      ensures r.Success? ==> r.value.CanStore()
    {
      VerifiesExactly(cfg, cache.inner, poolCache, request, env);
      var status := CheckPaymentRequired(request.address);
      if status.CachedAsVerified? { return Success(status); }
      var ok := VerifyProof(request, env);
      if !ok { return Failure(Unpaid); }
      cache.Insert(request.address);
      r := Success(PaymentVerified);
    }
  }

  class AntProtocol {
    const cfg: Config
    const storage: LmdbStorage
    const verifier: PaymentVerifier
    /** The same node as a state of module Node. */
    ghost var model: State

    ghost predicate Valid()
      reads this, storage, verifier, verifier.cache
    {
      && verifier.Valid() && verifier.cfg == cfg && storage.hash == cfg.lib.hash && storage.maxChunks == cfg.maxChunks
      && model.db == storage.db && model.chunksStored == storage.chunksStored && model.duplicates == storage.duplicates
      && model.cache == verifier.cache.inner && model.pool == verifier.poolCache
    }

    constructor (cfg: Config, storage: LmdbStorage)
      requires storage.hash == cfg.lib.hash && storage.maxChunks == cfg.maxChunks
      requires storage.chunksStored == 0 && storage.duplicates == 0
      ensures Valid() && Start(model) && model.db == storage.db
      ensures this.cfg == cfg && this.storage == storage && fresh(verifier) && fresh(verifier.cache)
    {
      this.cfg, this.storage := cfg, storage;
      verifier := new PaymentVerifier(cfg);
      model := State(storage.db, [], [], 0, 0, map[], Log({}, {}, multiset{}, multiset{}, 0));
    }

    /** Handles one PUT without interruption: the node ends in the state, and gives the answer, to which the
        request's steps lead, whether or not the store fails. */
    method HandlePut(request: Request, env: Env, ghost id: nat) returns (reply: Reply)
      requires Valid() && id !in model.tasks
      modifies this`model, storage, verifier, verifier.cache
      ensures Valid() && model == Finish(cfg, Apply(cfg, old(model), Arrive(id, request)), id, env)
      ensures id in model.tasks && model.tasks[id] == Task(request, Done(reply))
      ensures var paid := PaysFor(cfg, old(verifier.cache.inner), old(verifier.poolCache), request, env);
              reply == Answer(cfg, old(storage.db), paid, request, env)
      ensures storage.db == if reply == Stored then old(storage.db)[request.address := request.content] else old(storage.db)
    {
      model := Apply(cfg, model, Arrive(id, request));
      model := ArrivingEnds(cfg, model, id, env);
      if |request.content| > MAX_CHUNK_SIZE { return Refused(ChunkTooLarge); }
      var computed := cfg.lib.hash(request.content);
      if computed != request.address { return Refused(WrongAddress); }
      var alreadyStored := storage.Exists(request.address, env.checkFails);
      if alreadyStored.Failure? { return Refused(Internal); }
      if alreadyStored.value { return AlreadyExists; }
      reply := PayAndStore(request, env, id);
    }

    /** The rest of a PUT, for a chunk that is not there: payment, then the store. */
    method PayAndStore(request: Request, env: Env, ghost id: nat) returns (reply: Reply)
      requires Valid() && id in model.tasks && model.tasks[id] == Task(request, Looking)
      requires cfg.lib.hash(request.content) == request.address
      modifies this`model, storage, verifier, verifier.cache
      ensures Valid() && model == Finish(cfg, old(model), id, env)
      ensures id in model.tasks && model.tasks[id] == Task(request, Done(reply))
      ensures request.address !in old(storage.db) ==>
                reply == if !PaysFor(cfg, old(verifier.cache.inner), old(verifier.poolCache), request, env)
                         then Refused(PaymentFailed)
                         else if env.lookFails || env.writeFails ||
                                 (cfg.maxChunks > 0 && |old(storage.db)| >= cfg.maxChunks)
                         then Refused(StorageFailed) else Stored
      ensures request.address !in old(storage.db) ==>
                storage.db == if reply == Stored then old(storage.db)[request.address := request.content] else old(storage.db)
    {
      model := VerifyingEnds(cfg, model, id, env);
      var status := verifier.VerifyPayment(request, env);
      if status.Failure? { return Refused(PaymentFailed); }
      // The reply for a status that does not permit storing is never given.
      if !status.value.CanStore() { assert false; }
      model := PuttingEnds(cfg, model, id, env);
      var stored := storage.Put(request.address, request.content, env.lookFails, env.writeFails);
      reply := if stored.Success? then Stored else Refused(StorageFailed);
    }

    /** Handles one GET: the stored chunk, if it is what its address says. */
    method HandleGet(address: Name, fails: bool) returns (r: Result<Option<Bytes>>)
      requires Valid()
      modifies storage`chunksRetrieved, storage`bytesRetrieved, storage`verificationFailures
      ensures Valid()
      ensures storage.verifyOnRead && r.Success? && r.value.Some? ==> cfg.lib.hash(r.value.value) == address
      ensures fails <==> r == Failure(StoreFailed)
      ensures ContentAddressed(cfg.lib.hash, storage.db) && !fails ==>
                r == Success(if address in storage.db then Some(storage.db[address]) else None)
    {
      r := storage.Get(address, fails);
    }
  }
}
