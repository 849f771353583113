/** Concurrent PUT requests on one node, as interleaved steps (ant-node/src/storage/handler.rs, with the steps of
    ant-node/src/payment/verifier.rs and ant-node/src/storage/lmdb.rs in between).

    A step is what one request does between two points where another may come in: one access to the store, to
    either cache or to the counters, or one answer from the chain. */
module Node {
  import opened Prelude
  import opened Lru
  import opened Payment
  import opened Storage

  const MAX_CHUNK_SIZE: nat := 4_194_304

  datatype Config = Config(lib: Libraries, node: Address, cacheCapacity: nat, maxChunks: nat) {
    /** A capacity of 0 means 1. */
    function Capacity(): nat {
      if cacheCapacity == 0 then 1 else cacheCapacity
    }
  }

  datatype Request = Request(address: Name, content: Bytes, proof: Option<Bytes>)

  datatype Refusal = ChunkTooLarge | WrongAddress | Internal | PaymentFailed | StorageFailed

  datatype Reply = Stored | AlreadyExists | Refused(why: Refusal)

  /** How far a request has come. */
  datatype Phase =
    | Arrived
    | Checking                                  // is the chunk stored already
    | Looking                                   // is the address cached as paid
    | Single(quotes: Quotes)                    // waiting for the vault's verdict
    | PoolLooking(mp: MerkleProof)              // is the pool cached
    | PoolAsking(mp: MerkleProof)               // waiting for the chain's record of the pool
    | PoolCaching(mp: MerkleProof, info: PoolInfo)
    | Merkle(mp: MerkleProof, info: PoolInfo)   // the proof against the record
    | Caching                                   // paid; the address goes into the cache
    | Putting                                   // may be stored: the put's first look at the store
    | Writing                                   // the put's write transaction
    | CountingStored
    | CountingDuplicate
    | Recording                                 // the quoting metrics
    | Done(reply: Reply)

  datatype Task = Task(request: Request, phase: Phase)

  /** Why an address counts as paid. */
  datatype Evidence =
    | BySingle(quotes: Quotes, now: nat, results: seq<VaultResult>)
    | ByMerkle(mp: MerkleProof, info: PoolInfo)

  datatype Grant = Grant(address: Name, evidence: Evidence)

  /** What happened so far: payments accepted, pool records the chain gave, and the results of puts and deletes. */
  datatype Log = Log(grants: set<Grant>, answered: set<(Name, PoolInfo)>, stored: multiset<Name>, deleted: multiset<Name>,
                     duplicates: nat)

  datatype State = State(db: Database, cache: Entries<Name, ()>, pool: Entries<Name, PoolInfo>, chunksStored: nat,
                         duplicates: nat, tasks: map<nat, Task>, log: Log)

  /** What the outside answers during a step: the clock, the vault, the chain, and whether the store fails: at the
      handler's check, at the put's own look, or in its write transaction. */
  datatype Env = Env(now: nat, vault: Option<seq<VaultResult>>, chain: Option<PoolInfo>,
                     checkFails: bool, lookFails: bool, writeFails: bool)

  datatype Event =
    | Arrive(id: nat, request: Request)
    | Advance(id: nat, env: Env)
    | Delete(address: Name)
    | ClearCache

  /** Moves a request to a phase. */
  function At(s: State, id: nat, phase: Phase): State
    requires id in s.tasks
  {
    s.(tasks := s.tasks[id := s.tasks[id].(phase := phase)])
  }

  /** Size first, then the address against the content. */
  function Admit(cfg: Config, request: Request): Phase {
    if |request.content| > MAX_CHUNK_SIZE then Done(Refused(ChunkTooLarge))
    else if cfg.lib.hash(request.content) != request.address then Done(Refused(WrongAddress))
    else Checking
  }

  /** The proof's size, its tag and its form. */
  function ReadProof(cfg: Config, request: Request): Phase {
    if request.proof.None? then Done(Refused(PaymentFailed))
    else
      var proof := request.proof.value;
      if |proof| < MIN_PAYMENT_PROOF_SIZE || |proof| > MAX_PAYMENT_PROOF_SIZE then Done(Refused(PaymentFailed))
      else if proof[0] == PROOF_TAG_MERKLE then
        var mp := cfg.lib.decodeMerkle(proof);
        if mp.None? || mp.value.address != request.address then Done(Refused(PaymentFailed)) else PoolLooking(mp.value)
      else if proof[0] == PROOF_TAG_SINGLE_NODE then
        var quotes := cfg.lib.decodeSingle(proof);
        if quotes.None? then Done(Refused(PaymentFailed)) else Single(quotes.value)
      else Done(Refused(PaymentFailed))
  }

  /** A proof of 32 to 262144 bytes that starts with 1 and reads as quotes which this node accepts. */
  ghost predicate PaidSingly(cfg: Config, request: Request, env: Env) {
    && request.proof.Some? && 32 <= |request.proof.value| <= 262_144 && request.proof.value[0] == 1
    && var quotes := cfg.lib.decodeSingle(request.proof.value);
    && quotes.Some? && SingleAccepted(cfg.lib, cfg.node, request.address, quotes.value, env.now, env.vault)
  }

  function LookUp(cfg: Config, s: State, request: Request): (Entries<Name, ()>, Phase) {
    (Promote(s.cache, request.address), if Find(s.cache, request.address).Some? then Putting else ReadProof(cfg, request))
  }

  function LookUpPool(cfg: Config, s: State, mp: MerkleProof): (Entries<Name, PoolInfo>, Phase) {
    var hash := cfg.lib.poolHash(mp.winnerPool);
    var found := Find(s.pool, hash);
    (Promote(s.pool, hash), if found.Some? then Merkle(mp, found.value) else PoolAsking(mp))
  }

  /** The put's steps: the content's address again and a first look, then the transaction. */
  function Open(cfg: Config, s: State, request: Request, fails: bool): Phase {
    if cfg.lib.hash(request.content) != request.address || fails then Done(Refused(StorageFailed))
    else if request.address in s.db then CountingDuplicate
    else Writing
  }

  function Write(cfg: Config, s: State, request: Request, fails: bool): (Database, Phase) {
    if fails then (s.db, Done(Refused(StorageFailed)))
    else
      var (db, r) := PutTxn(s.db, cfg.maxChunks, request.address, request.content);
      (db, if r.Failure? then Done(Refused(StorageFailed)) else if r.value then CountingStored else CountingDuplicate)
  }

  function Granted(log: Log, address: Name, evidence: Evidence): Log {
    log.(grants := log.grants + {Grant(address, evidence)})
  }

  /** What a step of a request does besides moving it: the shared state, and the phase it goes to. */
  ghost function Effect(cfg: Config, s: State, request: Request, phase: Phase, env: Env): (State, Phase) {
    var a := request.address;
    match phase
    case Arrived => (s, Admit(cfg, request))
    case Checking =>
      (s, if env.checkFails then Done(Refused(Internal)) else if a in s.db then Done(AlreadyExists) else Looking)
    case Looking =>
      var (cache, next) := LookUp(cfg, s, request); (s.(cache := cache), next)
    case Single(quotes) =>
      if SingleAccepted(cfg.lib, cfg.node, a, quotes, env.now, env.vault)
      then (s.(log := Granted(s.log, a, BySingle(quotes, env.now, env.vault.value))), Caching)
      else (s, Done(Refused(PaymentFailed)))
    case PoolLooking(mp) =>
      var (pool, next) := LookUpPool(cfg, s, mp); (s.(pool := pool), next)
    case PoolAsking(mp) =>
      if env.chain.None? then (s, Done(Refused(PaymentFailed)))
      else
        var answer := (cfg.lib.poolHash(mp.winnerPool), env.chain.value);
        (s.(log := s.log.(answered := s.log.answered + {answer})), PoolCaching(mp, env.chain.value))
    case PoolCaching(mp, info) =>
      (s.(pool := Put(s.pool, cfg.lib.poolHash(mp.winnerPool), info, POOL_CACHE_CAPACITY)), Merkle(mp, info))
    case Merkle(mp, info) =>
      if MerkleAccepted(cfg.lib, mp, info)
      then (s.(log := Granted(s.log, a, ByMerkle(mp, info))), Caching)
      else (s, Done(Refused(PaymentFailed)))
    case Caching => (s.(cache := Put(s.cache, a, (), cfg.Capacity())), Putting)
    case Putting =>
      var next := Open(cfg, s, request, env.lookFails);
      (Noted(s, a, next), next)
    case Writing =>
      var (db, next) := Write(cfg, s, request, env.writeFails);
      (Noted(s.(db := db), a, next), next)
    case CountingStored => (s.(chunksStored := s.chunksStored + 1), Recording)
    case CountingDuplicate => (s.(duplicates := s.duplicates + 1), Recording)
    case Recording => (s, Done(Stored))
    case Done(_) => (s, phase)
  }

  /** Notes a put's result. */
  function Noted(s: State, address: Name, next: Phase): State {
    if next == CountingStored then s.(log := s.log.(stored := s.log.stored + multiset{address}))
    else if next == CountingDuplicate then s.(log := s.log.(duplicates := s.log.duplicates + 1))
    else s
  }

  ghost function Advanced(cfg: Config, s: State, id: nat, env: Env): State
    requires id in s.tasks
  {
    var t := s.tasks[id];
    var (after, phase) := Effect(cfg, s, t.request, t.phase, env);
    after.(tasks := s.tasks[id := t.(phase := phase)])
  }

  /** One event. An event that does not apply changes nothing. */
  ghost function Apply(cfg: Config, s: State, e: Event): State {
    match e
    case Arrive(id, request) => if id in s.tasks then s else s.(tasks := s.tasks[id := Task(request, Arrived)])
    case Advance(id, env) => if id in s.tasks then Advanced(cfg, s, id, env) else s
    case Delete(address) =>
      if address in s.db then s.(db := s.db - {address}, log := s.log.(deleted := s.log.deleted + multiset{address})) else s
    case ClearCache => s.(cache := [])
  }

  ghost function Run(cfg: Config, s: State, events: seq<Event>): State {
    if events == [] then s else Apply(cfg, Run(cfg, s, events[..|events| - 1]), events[|events| - 1])
  }

  /** Where a node starts: any store and caches, no requests, nothing counted. Pool records cached before are
      counted as answered. */
  ghost predicate Start(s: State) {
    && s.tasks == map[] && s.chunksStored == 0 && s.duplicates == 0
    && s.log.grants == {} && s.log.stored == multiset{} && s.log.deleted == multiset{} && s.log.duplicates == 0
    && forall entry | entry in s.pool :: entry in s.log.answered
  }

  // Safety: what is stored was paid for.

  /** The payment was accepted on its evidence; a pool record came from the chain. */
  ghost predicate Justified(cfg: Config, g: Grant, answered: set<(Name, PoolInfo)>) {
    match g.evidence
    case BySingle(quotes, now, results) => SingleAccepted(cfg.lib, cfg.node, g.address, quotes, now, Some(results))
    case ByMerkle(mp, info) =>
      && mp.address == g.address && (cfg.lib.poolHash(mp.winnerPool), info) in answered
      && MerkleAccepted(cfg.lib, mp, info)
  }

  /** Cached as paid when the node started, or paid since. */
  ghost predicate Earned(start: State, log: Log, address: Name) {
    address in KeySet(start.cache) || exists g :: g in log.grants && g.address == address
  }

  ghost predicate EverStored(start: State, log: Log, address: Name) {
    address in start.db || log.stored[address] > 0
  }

  predicate Admitted(phase: Phase) {
    !phase.Arrived? && (phase.Done? ==> phase.reply.Stored? || phase.reply.AlreadyExists?)
  }

  predicate Paid(phase: Phase) {
    phase.Caching? || phase.Putting? || phase.Writing? || Counted(phase)
  }

  predicate Counted(phase: Phase) {
    phase.CountingStored? || phase.CountingDuplicate? || phase.Recording? || phase == Done(Stored)
  }

  /** What is known of a request in a phase. */
  ghost predicate PhaseOk(cfg: Config, start: State, log: Log, request: Request, phase: Phase) {
    && (Admitted(phase) ==> cfg.lib.hash(request.content) == request.address && |request.content| <= MAX_CHUNK_SIZE)
    && (Paid(phase) ==> Earned(start, log, request.address))
    && (Counted(phase) || phase == Done(AlreadyExists) ==> EverStored(start, log, request.address))
    && (phase.PoolLooking? || phase.PoolAsking? ==> phase.mp.address == request.address)
    && (phase.PoolCaching? || phase.Merkle? ==>
          phase.mp.address == request.address && (cfg.lib.poolHash(phase.mp.winnerPool), phase.info) in log.answered)
  }

  /** The entry is as it was at the start, or under its hash, not too large, paid for and stored by a put. */
  ghost predicate EntryOk(cfg: Config, start: State, address: Name, content: Bytes, log: Log) {
    || (address in start.db && content == start.db[address])
    || (cfg.lib.hash(content) == address && |content| <= MAX_CHUNK_SIZE && Earned(start, log, address) && log.stored[address] > 0)
  }

  ghost predicate StoreOk(cfg: Config, start: State, db: Database, log: Log) {
    forall a | a in db :: EntryOk(cfg, start, a, db[a], log)
  }

  ghost predicate CacheOk(start: State, cache: Entries<Name, ()>, log: Log) {
    forall a | a in KeySet(cache) :: Earned(start, log, a)
  }

  ghost predicate PoolOk(pool: Entries<Name, PoolInfo>, log: Log) {
    forall entry | entry in pool :: entry in log.answered
  }

  ghost predicate GrantsOk(cfg: Config, log: Log) {
    forall g | g in log.grants :: Justified(cfg, g, log.answered)
  }

  ghost predicate TasksOk(cfg: Config, start: State, tasks: map<nat, Task>, log: Log) {
    forall id | id in tasks :: PhaseOk(cfg, start, log, tasks[id].request, tasks[id].phase)
  }

  /** What every step keeps. */
  ghost predicate Safe(cfg: Config, start: State, s: State) {
    && StoreOk(cfg, start, s.db, s.log) && CacheOk(start, s.cache, s.log) && PoolOk(s.pool, s.log)
    && GrantsOk(cfg, s.log) && TasksOk(cfg, start, s.tasks, s.log)
  }

  /** Nothing noted is forgotten. */
  predicate Grows(a: Log, b: Log) {
    a.grants <= b.grants && a.answered <= b.answered && a.stored <= b.stored && a.deleted <= b.deleted
  }

  lemma StaysOk(cfg: Config, start: State, a: Log, b: Log, request: Request, phase: Phase)
    requires Grows(a, b) && PhaseOk(cfg, start, a, request, phase)
    ensures PhaseOk(cfg, start, b, request, phase)
  {
    assert a.stored[request.address] <= b.stored[request.address];
  }

  lemma ContentsStayOk(cfg: Config, start: State, s: State, log: Log)
    requires Safe(cfg, start, s) && Grows(s.log, log)
    ensures StoreOk(cfg, start, s.db, log) && CacheOk(start, s.cache, log) && PoolOk(s.pool, log)
    ensures TasksOk(cfg, start, s.tasks, log)
  {
    forall a | a in s.db
      ensures EntryOk(cfg, start, a, s.db[a], log)
    {
      assert s.log.stored[a] <= log.stored[a];
    }
    forall id | id in s.tasks
      ensures PhaseOk(cfg, start, log, s.tasks[id].request, s.tasks[id].phase)
    {
      StaysOk(cfg, start, s.log, log, s.tasks[id].request, s.tasks[id].phase);
    }
  }

  lemma EffectGrows(cfg: Config, s: State, request: Request, phase: Phase, env: Env)
    ensures Grows(s.log, Effect(cfg, s, request, phase, env).0.log)
  {
  }

  /** The next phase is as it should be: while payment is verified, */
  lemma PaymentPhaseOk(cfg: Config, start: State, s: State, request: Request, phase: Phase, env: Env)
    requires PoolOk(s.pool, s.log) && PhaseOk(cfg, start, s.log, request, phase)
    requires phase.Single? || phase.PoolLooking? || phase.PoolAsking? || phase.PoolCaching? || phase.Merkle?
    ensures var (after, next) := Effect(cfg, s, request, phase, env); PhaseOk(cfg, start, after.log, request, next)
  {
    var (after, next) := Effect(cfg, s, request, phase, env);
    match phase
    case Single(quotes) =>
      if next.Caching? { assert Grant(request.address, BySingle(quotes, env.now, env.vault.value)) in after.log.grants; }
    case Merkle(mp, info) =>
      if next.Caching? { assert Grant(request.address, ByMerkle(mp, info)) in after.log.grants; }
    case PoolLooking(mp) => FindFacts(s.pool, cfg.lib.poolHash(mp.winnerPool));
    case _ =>
  }

  /** while the chunk is stored, */
  lemma StoragePhaseOk(cfg: Config, start: State, s: State, request: Request, phase: Phase, env: Env)
    requires StoreOk(cfg, start, s.db, s.log) && PhaseOk(cfg, start, s.log, request, phase)
    requires phase.Putting? || phase.Writing?
    ensures var (after, next) := Effect(cfg, s, request, phase, env); PhaseOk(cfg, start, after.log, request, next)
  {
    var a := request.address;
    if a in s.db { assert EntryOk(cfg, start, a, s.db[a], s.log); }
  }

  /** and at any other time. */
  lemma NextPhaseOk(cfg: Config, start: State, s: State, request: Request, phase: Phase, env: Env)
    requires Safe(cfg, start, s) && PhaseOk(cfg, start, s.log, request, phase)
    ensures var (after, next) := Effect(cfg, s, request, phase, env); PhaseOk(cfg, start, after.log, request, next)
  {
    if phase.Single? || phase.PoolLooking? || phase.PoolAsking? || phase.PoolCaching? || phase.Merkle? {
      PaymentPhaseOk(cfg, start, s, request, phase, env);
    } else if phase.Putting? || phase.Writing? {
      StoragePhaseOk(cfg, start, s, request, phase, env);
    } else {
      FindFacts(s.cache, request.address);
    }
  }

  lemma EffectKeepsCaches(cfg: Config, start: State, s: State, request: Request, phase: Phase, env: Env)
    requires Safe(cfg, start, s) && PhaseOk(cfg, start, s.log, request, phase)
    ensures var after := Effect(cfg, s, request, phase, env).0; CacheOk(start, after.cache, after.log) && PoolOk(after.pool, after.log)
  {
    var after := Effect(cfg, s, request, phase, env).0;
    EffectGrows(cfg, s, request, phase, env);
    ContentsStayOk(cfg, start, s, after.log);
    match phase
    case Looking => PromoteFacts(s.cache, request.address);
    case Caching => PutFacts(s.cache, request.address, (), cfg.Capacity());
    case PoolLooking(mp) => PromoteFacts(s.pool, cfg.lib.poolHash(mp.winnerPool));
    case PoolCaching(mp, info) => PutFacts(s.pool, cfg.lib.poolHash(mp.winnerPool), info, POOL_CACHE_CAPACITY);
    case _ =>
  }

  lemma EffectKeepsStore(cfg: Config, start: State, s: State, request: Request, phase: Phase, env: Env)
    requires Safe(cfg, start, s) && PhaseOk(cfg, start, s.log, request, phase)
    ensures var after := Effect(cfg, s, request, phase, env).0; StoreOk(cfg, start, after.db, after.log)
  {
    var after := Effect(cfg, s, request, phase, env).0;
    EffectGrows(cfg, s, request, phase, env);
    ContentsStayOk(cfg, start, s, after.log);
    EffectOnStore(cfg, s, request, phase, env);
    if after.db != s.db {
      StaysOk(cfg, start, s.log, after.log, request, phase);
      GainsEntry(cfg, start, s.db, after.log, request);
    }
  }

  lemma GainsEntry(cfg: Config, start: State, db: Database, log: Log, request: Request)
    requires StoreOk(cfg, start, db, log) && PhaseOk(cfg, start, log, request, Writing)
    requires log.stored[request.address] > 0
    ensures StoreOk(cfg, start, db[request.address := request.content], log)
  {
  }

  lemma EffectKeepsGrants(cfg: Config, start: State, s: State, request: Request, phase: Phase, env: Env)
    requires Safe(cfg, start, s) && PhaseOk(cfg, start, s.log, request, phase)
    ensures GrantsOk(cfg, Effect(cfg, s, request, phase, env).0.log)
  {
    var log := Effect(cfg, s, request, phase, env).0.log;
    forall g | g in log.grants
      ensures Justified(cfg, g, log.answered)
    {
      if g in s.log.grants { assert Justified(cfg, g, s.log.answered); }
    }
  }

  lemma AdvanceIsSafe(cfg: Config, start: State, s: State, id: nat, env: Env)
    requires Safe(cfg, start, s) && id in s.tasks
    ensures Safe(cfg, start, Advanced(cfg, s, id, env))
  {
    var t := s.tasks[id];
    var (after, next) := Effect(cfg, s, t.request, t.phase, env);
    assert PhaseOk(cfg, start, s.log, t.request, t.phase);
    EffectGrows(cfg, s, t.request, t.phase, env);
    ContentsStayOk(cfg, start, s, after.log);
    NextPhaseOk(cfg, start, s, t.request, t.phase, env);
    EffectKeepsCaches(cfg, start, s, t.request, t.phase, env);
    EffectKeepsStore(cfg, start, s, t.request, t.phase, env);
    EffectKeepsGrants(cfg, start, s, t.request, t.phase, env);
  }

  /** Every event keeps the node safe. */
  lemma StepIsSafe(cfg: Config, start: State, s: State, e: Event)
    requires Safe(cfg, start, s)
    ensures Safe(cfg, start, Apply(cfg, s, e))
  {
    match e
    case Advance(id, env) =>
      if id in s.tasks { AdvanceIsSafe(cfg, start, s, id, env); }
    case Delete(address) => ContentsStayOk(cfg, start, s, Apply(cfg, s, e).log);
    case ClearCache =>
    case Arrive(id, request) =>
  }

  /** Over every interleaving of requests, deletions and cache evictions: whatever is stored was there from the
      start, or has the hash it is stored under and was cached as paid at the start or paid since, on evidence
      that the verifier accepts; both caches hold nothing else. */
  lemma {:induction false} RunIsSafe(cfg: Config, start: State, events: seq<Event>)
    requires Start(start)
    ensures Safe(cfg, start, Run(cfg, start, events))
  {
    if events != [] {
      RunIsSafe(cfg, start, events[..|events| - 1]);
      StepIsSafe(cfg, start, Run(cfg, start, events[..|events| - 1]), events[|events| - 1]);
    }
  }

  /** A reply of success means that the chunk was stored at some time, under its hash and not too large; and that it was
      paid for, unless the reply is that it was there already. */
  lemma StoredReplyMeans(cfg: Config, start: State, events: seq<Event>, id: nat)
    requires Start(start)
    requires var s := Run(cfg, start, events); id in s.tasks && s.tasks[id].phase in {Done(Stored), Done(AlreadyExists)}
    ensures var s := Run(cfg, start, events);
            var request := s.tasks[id].request;
            && cfg.lib.hash(request.content) == request.address && |request.content| <= 4_194_304
            && EverStored(start, s.log, request.address)
            && (s.tasks[id].phase == Done(Stored) ==> Earned(start, s.log, request.address))
  {
    RunIsSafe(cfg, start, events);
    var s := Run(cfg, start, events);
    assert PhaseOk(cfg, start, s.log, s.tasks[id].request, s.tasks[id].phase);
  }

  /** After the cache is cleared, no address counts as paid without a proof. */
  lemma ClearedCacheAsksAgain(cfg: Config, s: State, request: Request)
    ensures LookUp(cfg, Apply(cfg, s, ClearCache), request) == ([], ReadProof(cfg, request))
  {
  }

  // Capacity and conservation.

  /** A step adds the request's chunk, where there was none and room for it, and notes that; or it leaves the
      store and the notes about it alone. */
  lemma EffectOnStore(cfg: Config, s: State, request: Request, phase: Phase, env: Env)
    ensures var after := Effect(cfg, s, request, phase, env).0;
            && after.log.deleted == s.log.deleted
            && if after.db == s.db then after.log.stored == s.log.stored
               else
                 && phase.Writing? && request.address !in s.db && after.db == s.db[request.address := request.content]
                 && after.log.stored == s.log.stored + multiset{request.address}
                 && (cfg.maxChunks == 0 || |s.db| < cfg.maxChunks)
  {
    hide Find, Promote, SingleAccepted, MerkleAccepted, ReadProof, Admit, PutTxn;
    if phase.Writing? {
      WriteOnStore(cfg, s, request, env.writeFails);
    }
  }

  lemma WriteOnStore(cfg: Config, s: State, request: Request, fails: bool)
    ensures var (db, next) := Write(cfg, s, request, fails);
            if next == CountingStored then
              && request.address !in s.db && db == s.db[request.address := request.content] && db != s.db
              && (cfg.maxChunks == 0 || |s.db| < cfg.maxChunks)
            else db == s.db
  {
  }

  lemma OneMore(db: Database, address: Name, content: Bytes)
    requires address !in db
    ensures |db[address := content]| == |db| + 1
  {
    assert db[address := content].Keys == db.Keys + {address};
    assert |db[address := content]| == |db.Keys + {address}|;
  }

  /** One entry more, noted as stored by a put, and there was room for it. */
  ghost predicate Gained(cfg: Config, s: State, after: State, a: Name) {
    && a !in s.db && after.db.Keys == s.db.Keys + {a} && |after.db| == |s.db| + 1
    && after.log.stored == s.log.stored + multiset{a} && after.log.deleted == s.log.deleted
    && (cfg.maxChunks == 0 || |s.db| < cfg.maxChunks)
  }

  /** One entry less, noted as deleted. */
  ghost predicate Lost(s: State, after: State, a: Name) {
    && a in s.db && after.db.Keys == s.db.Keys - {a} && |after.db| == |s.db| - 1
    && after.log.stored == s.log.stored && after.log.deleted == s.log.deleted + multiset{a}
  }

  ghost predicate SameStore(s: State, after: State) {
    after.db == s.db && after.log.stored == s.log.stored && after.log.deleted == s.log.deleted
  }

  lemma AdvanceOnStore(cfg: Config, s: State, id: nat, env: Env)
    requires id in s.tasks
    ensures var after := Advanced(cfg, s, id, env); SameStore(s, after) || Gained(cfg, s, after, s.tasks[id].request.address)
  {
    var request := s.tasks[id].request;
    EffectOnStore(cfg, s, request, s.tasks[id].phase, env);
    var after := Effect(cfg, s, request, s.tasks[id].phase, env).0;
    if after.db != s.db {
      OneMore(s.db, request.address, request.content);
      assert after.db.Keys == s.db.Keys + {request.address};
    }
  }

  lemma DeleteOnStore(cfg: Config, s: State, address: Name)
    ensures var after := Apply(cfg, s, Delete(address)); if address in s.db then Lost(s, after, address) else after == s
  {
    DeleteFacts(s.db, address);
    if address in s.db {
      assert Apply(cfg, s, Delete(address)).db.Keys == s.db.Keys - {address};
    }
  }

  /** An event adds one entry and notes it, removes one and notes it, or does neither. */
  lemma StepOnStore(cfg: Config, s: State, e: Event) returns (a: Name)
    ensures var after := Apply(cfg, s, e); SameStore(s, after) || Gained(cfg, s, after, a) || Lost(s, after, a)
  {
    match e
    case Delete(address) =>
      a := address;
      DeleteOnStore(cfg, s, address);
    case Advance(id, env) =>
      if id in s.tasks {
        a := s.tasks[id].request.address;
        AdvanceOnStore(cfg, s, id, env);
      } else {
        a := seq(32, _ => 0);
      }
    case _ =>
      a := seq(32, _ => 0);
  }

  /** A store within its limit stays within it. */
  lemma {:induction false} NeverOverCapacity(cfg: Config, s: State, events: seq<Event>)
    requires cfg.maxChunks > 0 && |s.db| <= cfg.maxChunks
    ensures |Run(cfg, s, events).db| <= cfg.maxChunks
  {
    if events != [] {
      NeverOverCapacity(cfg, s, events[..|events| - 1]);
      var a := StepOnStore(cfg, Run(cfg, s, events[..|events| - 1]), events[|events| - 1]);
    }
  }

  function Has(db: Database, address: Name): nat {
    if address in db then 1 else 0
  }

  /** Puts that stored an address, deletes that removed it, and whether it is there. */
  ghost predicate Balanced(a: State, b: State, address: Name) {
    Has(a.db, address) + b.log.stored[address] + a.log.deleted[address]
    == Has(b.db, address) + a.log.stored[address] + b.log.deleted[address]
  }

  /** Over any run, from any state: puts that stored an address minus deletes that removed it is the change in
      whether it is there. */
  lemma {:induction false} RunBalances(cfg: Config, s: State, events: seq<Event>, address: Name)
    ensures Balanced(s, Run(cfg, s, events), address)
  {
    if events != [] {
      var before := Run(cfg, s, events[..|events| - 1]);
      RunBalances(cfg, s, events[..|events| - 1], address);
      var a := StepOnStore(cfg, before, events[|events| - 1]);
      assert Balanced(before, Apply(cfg, before, events[|events| - 1]), address) by {
        assert address in before.db.Keys <==> address in before.db;
        assert address in Apply(cfg, before, events[|events| - 1]).db.Keys <==> address in Apply(cfg, before, events[|events| - 1]).db;
      }
    }
  }

  /** Between two deletions of an address, of all the puts that race for it at most one stores it, and none if it
      is there. */
  lemma RacingPutsStoreOnce(cfg: Config, s: State, events: seq<Event>, address: Name)
    requires Run(cfg, s, events).log.deleted[address] == s.log.deleted[address]
    ensures Run(cfg, s, events).log.stored[address] <= s.log.stored[address] + 1 - Has(s.db, address)
  {
    RunBalances(cfg, s, events, address);
  }

  /** Entries now are entries then, plus puts that stored, minus deletes that removed. */
  lemma {:induction false} RunKeepsSize(cfg: Config, s: State, events: seq<Event>)
    ensures var after := Run(cfg, s, events);
            |s.db| + |after.log.stored| + |s.log.deleted| == |after.db| + |s.log.stored| + |after.log.deleted|
  {
    if events != [] {
      RunKeepsSize(cfg, s, events[..|events| - 1]);
      var a := StepOnStore(cfg, Run(cfg, s, events[..|events| - 1]), events[|events| - 1]);
    }
  }

  // The counters.

  function InPhase(tasks: map<nat, Task>, phase: Phase): set<nat> {
    set id | id in tasks && tasks[id].phase == phase
  }

  lemma Moving(tasks: map<nat, Task>, id: nat, t: Task, phase: Phase)
    ensures var before := if id in tasks && tasks[id].phase == phase then 1 else 0;
            var after := if t.phase == phase then 1 else 0;
            |InPhase(tasks[id := t], phase)| + before == |InPhase(tasks, phase)| + after
  {
    var others := InPhase(tasks, phase) - {id};
    assert InPhase(tasks[id := t], phase) == if t.phase == phase then others + {id} else others;
    assert InPhase(tasks, phase) == if id in tasks && tasks[id].phase == phase then others + {id} else others;
  }

  /** Each put's result is counted once, after the transaction, and each counted put is answered with success. */
  ghost predicate Tallied(s: State) {
    && |s.log.stored| == s.chunksStored + |InPhase(s.tasks, CountingStored)|
    && s.log.duplicates == s.duplicates + |InPhase(s.tasks, CountingDuplicate)|
    && s.chunksStored + s.duplicates == |InPhase(s.tasks, Recording)| + |InPhase(s.tasks, Done(Stored))|
  }

  lemma AdvanceTallies(cfg: Config, s: State, id: nat, env: Env)
    requires Tallied(s) && id in s.tasks
    ensures Tallied(Advanced(cfg, s, id, env))
  {
    var t := s.tasks[id];
    var (after, next) := Effect(cfg, s, t.request, t.phase, env);
    PutTxnFacts(s.db, cfg.maxChunks, t.request.address, t.request.content);
    Moving(s.tasks, id, t.(phase := next), CountingStored);
    Moving(s.tasks, id, t.(phase := next), CountingDuplicate);
    Moving(s.tasks, id, t.(phase := next), Recording);
    Moving(s.tasks, id, t.(phase := next), Done(Stored));
    EffectTallies(cfg, s, t.request, t.phase, env);
  }

  function One(yes: bool): nat {
    if yes then 1 else 0
  }

  /** A step's effect on the counters, by the phases it leads from and to. */
  lemma EffectTallies(cfg: Config, s: State, request: Request, phase: Phase, env: Env)
    ensures var (after, next) := Effect(cfg, s, request, phase, env);
            && |after.log.stored| + One(phase.CountingStored?) == |s.log.stored| + (after.chunksStored - s.chunksStored) + One(next.CountingStored?)
            && after.log.duplicates + One(phase.CountingDuplicate?) == s.log.duplicates + (after.duplicates - s.duplicates) + One(next.CountingDuplicate?)
            && after.chunksStored + after.duplicates + One(phase.Recording?) + One(phase == Done(Stored))
               == s.chunksStored + s.duplicates + One(next.Recording?) + One(next == Done(Stored))
  {
  }

  lemma StepTallies(cfg: Config, s: State, e: Event)
    requires Tallied(s)
    ensures Tallied(Apply(cfg, s, e))
  {
    match e
    case Advance(id, env) =>
      if id in s.tasks { AdvanceTallies(cfg, s, id, env); }
    case Arrive(id, request) =>
      if id !in s.tasks {
        Moving(s.tasks, id, Task(request, Arrived), CountingStored);
        Moving(s.tasks, id, Task(request, Arrived), CountingDuplicate);
        Moving(s.tasks, id, Task(request, Arrived), Recording);
        Moving(s.tasks, id, Task(request, Arrived), Done(Stored));
      }
    case _ =>
  }

  lemma {:induction false} RunTallies(cfg: Config, start: State, events: seq<Event>)
    requires Start(start)
    ensures Tallied(Run(cfg, start, events))
  {
    if events != [] {
      RunTallies(cfg, start, events[..|events| - 1]);
      StepTallies(cfg, Run(cfg, start, events[..|events| - 1]), events[|events| - 1]);
    }
  }

  ghost predicate AtRest(s: State) {
    forall id | id in s.tasks :: s.tasks[id].phase.Done?
  }

  /** At rest the counters are the numbers of puts that stored and of puts that found a duplicate, and there are
      as many replies of success as both together: at least as many as new entries. */
  lemma CountersAtRest(cfg: Config, start: State, events: seq<Event>)
    requires Start(start) && AtRest(Run(cfg, start, events))
    ensures var s := Run(cfg, start, events);
            && s.chunksStored == |s.log.stored| && s.duplicates == s.log.duplicates
            && |InPhase(s.tasks, Done(Stored))| == s.chunksStored + s.duplicates
            && |s.db| + |s.log.deleted| == |start.db| + s.chunksStored
            && |s.db| - |start.db| <= |InPhase(s.tasks, Done(Stored))|
  {
    var s := Run(cfg, start, events);
    RunTallies(cfg, start, events);
    RunKeepsSize(cfg, start, events);
    assert InPhase(s.tasks, CountingStored) == {} && InPhase(s.tasks, CountingDuplicate) == {} && InPhase(s.tasks, Recording) == {};
  }

  // Progress.

  /** Steps a request has at most left. */
  function Rank(phase: Phase): nat {
    match phase
    case Arrived => 12
    case Checking => 11
    case Looking => 10
    case Single(_) => 6
    case PoolLooking(_) => 9
    case PoolAsking(_) => 8
    case PoolCaching(_, _) => 7
    case Merkle(_, _) => 6
    case Caching => 5
    case Putting => 4
    case Writing => 3
    case CountingStored => 2
    case CountingDuplicate => 2
    case Recording => 1
    case Done(_) => 0
  }

  lemma EffectProgresses(cfg: Config, s: State, request: Request, phase: Phase, env: Env)
    ensures var next := Effect(cfg, s, request, phase, env).1;
            if phase.Done? then next == phase else Rank(next) < Rank(phase)
  {
  }

  /** Each step of a request brings it nearer to its reply; whatever else happens does not move it. */
  lemma StepProgresses(cfg: Config, s: State, e: Event, id: nat)
    requires id in s.tasks
    ensures var after := Apply(cfg, s, e);
            && id in after.tasks && after.tasks[id].request == s.tasks[id].request
            && (if e.Advance? && e.id == id && !s.tasks[id].phase.Done? then Rank(after.tasks[id].phase) < Rank(s.tasks[id].phase)
                else after.tasks[id].phase == s.tasks[id].phase)
  {
    if e.Advance? && e.id == id {
      EffectProgresses(cfg, s, s.tasks[id].request, s.tasks[id].phase, e.env);
    }
  }

  /** How often a request was given a turn. */
  function Turns(events: seq<Event>, id: nat): nat {
    if events == [] then 0
    else
      var last := events[|events| - 1];
      Turns(events[..|events| - 1], id) + if last.Advance? && last.id == id then 1 else 0
  }

  lemma {:induction false} Progresses(cfg: Config, s: State, events: seq<Event>, id: nat)
    requires id in s.tasks
    ensures var after := Run(cfg, s, events);
            id in after.tasks && (after.tasks[id].phase.Done? || Rank(after.tasks[id].phase) + Turns(events, id) <= Rank(s.tasks[id].phase))
    ensures s.tasks[id].phase.Done? ==> Run(cfg, s, events).tasks[id].phase == s.tasks[id].phase
  {
    if events != [] {
      Progresses(cfg, s, events[..|events| - 1], id);
      StepProgresses(cfg, Run(cfg, s, events[..|events| - 1]), events[|events| - 1], id);
    }
  }

  /** Whatever the others do, a request is answered after at most twelve turns, and its answer never changes. */
  lemma EveryRequestIsAnswered(cfg: Config, s: State, events: seq<Event>, more: seq<Event>, id: nat)
    requires id in s.tasks && Turns(events, id) >= 12
    ensures var after := Run(cfg, s, events);
            && id in after.tasks && after.tasks[id].phase.Done?
            && id in Run(cfg, after, more).tasks && Run(cfg, after, more).tasks[id].phase == after.tasks[id].phase
  {
    Progresses(cfg, s, events, id);
    Progresses(cfg, Run(cfg, s, events), more, id);
  }
}
