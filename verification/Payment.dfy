/** Payment rules and the cache of paid addresses (ant-node/src/payment/{cache,verifier}.rs). */
module Payment {
  import opened Prelude
  import opened Lru

  type Address = Bytes
  type PeerId = Bytes

  datatype Quote = Quote(content: Name, timestamp: nat, pubKey: Bytes, rewardsAddress: Address, signature: Bytes)

  /** A single-node payment: quotes, each with the peer it is claimed to be from. */
  type Quotes = seq<(PeerId, Quote)>

  /** The vault contract's verdict on one quote. */
  datatype VaultResult = VaultResult(amountPaid: nat, isValid: bool)

  datatype Candidate = Candidate(rewardAddress: Address, timestamp: nat, pubKey: Bytes, signature: Bytes)
  datatype Pool = Pool(midpointProof: Bytes, candidates: seq<Candidate>)
  datatype MerkleProof = MerkleProof(address: Name, dataProof: Bytes, winnerPool: Pool)
  datatype PoolInfo = PoolInfo(depth: nat, timestamp: nat, paidNodes: seq<(Address, nat)>)

  /** The libraries the verifier calls. */
  datatype Libraries = Libraries(
    hash: Bytes -> Name,
    decodeSingle: Bytes -> Option<Quotes>,
    decodeMerkle: Bytes -> Option<MerkleProof>,
    peerOf: Bytes -> Option<PeerId>,           // of a public key
    quoteSigned: Quote -> bool,
    candidateSigned: Candidate -> bool,
    poolHash: Pool -> Name,
    provesMembership: (Name, Bytes, Bytes, nat, nat) -> bool  // address, data proof, midpoint proof, depth, timestamp
  )

  const CLOSE_GROUP_SIZE: nat := 5
  const MIN_PAYMENT_PROOF_SIZE: nat := 32
  const MAX_PAYMENT_PROOF_SIZE: nat := 262_144
  const PROOF_TAG_SINGLE_NODE: Byte := 1
  const PROOF_TAG_MERKLE: Byte := 2
  const NANOS: nat := 1_000_000_000
  const QUOTE_MAX_AGE_SECS: nat := 86_400
  const QUOTE_CLOCK_SKEW_TOLERANCE_SECS: nat := 60
  const POOL_CACHE_CAPACITY: nat := 1_000

  // Single-node payments.

  ghost predicate DistinctPeers(quotes: Quotes) {
    forall i, j | 0 <= i < j < |quotes| :: quotes[i].0 != quotes[j].0
  }

  /** Exactly one quote from each of five different peers. */
  method ValidateQuoteStructure(quotes: Quotes) returns (ok: bool)
    ensures ok <==> |quotes| == CLOSE_GROUP_SIZE && DistinctPeers(quotes)
  {
    if quotes == [] { return false; }
    if |quotes| != CLOSE_GROUP_SIZE { return false; }
    var seen: seq<PeerId> := [];
    for i := 0 to |quotes|
      invariant |seen| == i && forall k | 0 <= k < i :: seen[k] == quotes[k].0
      invariant DistinctPeers(quotes[..i])
    {
      if quotes[i].0 in seen { return false; }
      seen := seen + [quotes[i].0];
    }
    ok := true;
  }

  ghost predicate ForAddress(quotes: Quotes, address: Name) {
    forall i | 0 <= i < |quotes| :: quotes[i].1.content == address
  }

  method ValidateQuoteContent(quotes: Quotes, address: Name) returns (ok: bool)
    ensures ok <==> ForAddress(quotes, address)
  {
    for i := 0 to |quotes|
      invariant forall k | 0 <= k < i :: quotes[k].1.content == address
    {
      if quotes[i].1.content != address { return false; }
    }
    ok := true;
  }

  /** Issued less than a day and a second ago, and less than a minute and a second in the future: the code drops
      the fraction of a second before it compares. */
  ghost predicate IssuedAround(timestamp: nat, now: nat) {
    now - (QUOTE_MAX_AGE_SECS + 1) * NANOS < timestamp < now + (QUOTE_CLOCK_SKEW_TOLERANCE_SECS + 1) * NANOS
  }

  ghost predicate Fresh(quotes: Quotes, now: nat) {
    forall i | 0 <= i < |quotes| :: IssuedAround(quotes[i].1.timestamp, now)
  }

  method ValidateQuoteTimestamps(quotes: Quotes, now: nat) returns (ok: bool)
    ensures ok <==> Fresh(quotes, now)
  {
    for i := 0 to |quotes|
      invariant forall k | 0 <= k < i :: IssuedAround(quotes[k].1.timestamp, now)
    {
      var timestamp := quotes[i].1.timestamp;
      if now >= timestamp {
        var age := (now - timestamp) / NANOS;
        if age > QUOTE_MAX_AGE_SECS { assert !IssuedAround(timestamp, now); return false; }
      } else {
        var skew := (timestamp - now) / NANOS;
        if skew > QUOTE_CLOCK_SKEW_TOLERANCE_SECS { assert !IssuedAround(timestamp, now); return false; }
      }
    }
    ok := true;
  }

  ghost predicate BoundToPeers(lib: Libraries, quotes: Quotes) {
    forall i | 0 <= i < |quotes| :: lib.peerOf(quotes[i].1.pubKey) == Some(quotes[i].0)
  }

  method ValidatePeerBindings(lib: Libraries, quotes: Quotes) returns (ok: bool)
    ensures ok <==> BoundToPeers(lib, quotes)
  {
    for i := 0 to |quotes|
      invariant forall k | 0 <= k < i :: lib.peerOf(quotes[k].1.pubKey) == Some(quotes[k].0)
    {
      var expected := lib.peerOf(quotes[i].1.pubKey);
      if expected.None? { return false; }
      if expected.value != quotes[i].0 { return false; }
    }
    ok := true;
  }

  ghost predicate PaysNode(quotes: Quotes, node: Address) {
    exists i :: 0 <= i < |quotes| && quotes[i].1.rewardsAddress == node
  }

  method ValidateLocalRecipient(quotes: Quotes, node: Address) returns (ok: bool)
    ensures ok <==> PaysNode(quotes, node)
  {
    for i := 0 to |quotes|
      invariant forall k | 0 <= k < i :: quotes[k].1.rewardsAddress != node
    {
      if quotes[i].1.rewardsAddress == node { return true; }
    }
    ok := false;
  }

  ghost predicate AllSigned(lib: Libraries, quotes: Quotes) {
    forall i | 0 <= i < |quotes| :: lib.quoteSigned(quotes[i].1)
  }

  /** Something was paid, and whatever was paid is valid; unpaid quotes may be invalid. */
  ghost predicate PaidAndValid(results: seq<VaultResult>) {
    && (exists i :: 0 <= i < |results| && results[i].amountPaid > 0)
    && (forall i | 0 <= i < |results| && results[i].amountPaid > 0 :: results[i].isValid)
  }

  method CheckVaultResults(results: seq<VaultResult>) returns (ok: bool)
    ensures ok <==> PaidAndValid(results)
  {
    var paid: seq<VaultResult> := [];
    for i := 0 to |results|
      invariant forall r :: r in paid <==> r in results[..i] && r.amountPaid > 0
    {
      if results[i].amountPaid > 0 { paid := paid + [results[i]]; }
      assert results[..i + 1] == results[..i] + [results[i]];
    }
    assert results[..|results|] == results;
    if paid == [] { return false; }
    assert paid[0] in results;
    for i := 0 to |paid|
      invariant forall k | 0 <= k < i :: paid[k].isValid
    {
      if !paid[i].isValid { assert paid[i] in results; return false; }
    }
    ok := true;
  }

  /** A single-node payment this node accepts for an address at a time, given the vault's answer. */
  ghost predicate SingleAccepted(lib: Libraries, node: Address, address: Name, quotes: Quotes, now: nat,
        vault: Option<seq<VaultResult>>)
  {
    && |quotes| == CLOSE_GROUP_SIZE && DistinctPeers(quotes) && ForAddress(quotes, address) && Fresh(quotes, now)
    && BoundToPeers(lib, quotes) && PaysNode(quotes, node) && AllSigned(lib, quotes)
    && vault.Some? && PaidAndValid(vault.value)
  }

  /** Spelled out: five quotes from five peers for this address, none older than a day and a second or more than a
      minute and a second early, each signed and from the peer it is claimed to be from, one of them paying this node;
      and the vault answered that something was paid and that whatever was paid is valid. */
  lemma SingleAcceptedMeans(lib: Libraries, node: Address, address: Name, quotes: Quotes, now: nat,
        vault: Option<seq<VaultResult>>)
    ensures SingleAccepted(lib, node, address, quotes, now, vault) <==>
            && |quotes| == 5 && (forall i, j | 0 <= i < j < 5 :: quotes[i].0 != quotes[j].0)
            && (forall i | 0 <= i < 5 ::
                  && quotes[i].1.content == address
                  && now < quotes[i].1.timestamp + 86_401_000_000_000 && quotes[i].1.timestamp < now + 61_000_000_000
                  && lib.peerOf(quotes[i].1.pubKey) == Some(quotes[i].0) && lib.quoteSigned(quotes[i].1))
            && (exists i :: 0 <= i < 5 && quotes[i].1.rewardsAddress == node)
            && vault.Some? && (exists i :: 0 <= i < |vault.value| && vault.value[i].amountPaid > 0)
            && (forall i | 0 <= i < |vault.value| :: vault.value[i].amountPaid > 0 ==> vault.value[i].isValid)
  {
    if |quotes| == 5 {
      forall i | 0 <= i < 5
        ensures IssuedAround(quotes[i].1.timestamp, now) <==>
                now < quotes[i].1.timestamp + 86_401_000_000_000 && quotes[i].1.timestamp < now + 61_000_000_000
      {
      }
    }
  }

  method VerifyEvmPayment(lib: Libraries, node: Address, address: Name, quotes: Quotes, now: nat,
        vault: Option<seq<VaultResult>>)
    returns (ok: bool)
    ensures ok <==> SingleAccepted(lib, node, address, quotes, now, vault)
  {
    ok := ValidateQuoteStructure(quotes);
    if !ok { return; }
    ok := ValidateQuoteContent(quotes, address);
    if !ok { return; }
    ok := ValidateQuoteTimestamps(quotes, now);
    if !ok { return; }
    ok := ValidatePeerBindings(lib, quotes);
    if !ok { return; }
    ok := ValidateLocalRecipient(quotes, node);
    if !ok { return; }
    for i := 0 to |quotes|
      invariant forall k | 0 <= k < i :: lib.quoteSigned(quotes[k].1)
    {
      if !lib.quoteSigned(quotes[i].1) { return false; }
    }
    if vault.None? { return false; }
    ok := CheckVaultResults(vault.value);
  }

  // Merkle batch payments.

  /** What is paid on chain is paid to the winner pool, and the address belongs to the paid tree. */
  ghost predicate MerkleAccepted(lib: Libraries, mp: MerkleProof, info: PoolInfo) {
    var candidates := mp.winnerPool.candidates;
    && (forall i | 0 <= i < |candidates| :: lib.candidateSigned(candidates[i]) && candidates[i].timestamp == info.timestamp)
    && lib.provesMembership(mp.address, mp.dataProof, mp.winnerPool.midpointProof, info.depth, info.timestamp)
    && |info.paidNodes| == info.depth
    && (forall i | 0 <= i < |info.paidNodes| ::
          info.paidNodes[i].1 < |candidates| && candidates[info.paidNodes[i].1].rewardAddress == info.paidNodes[i].0)
  }

  /** Spelled out by what refuses a proof: a candidate of the winner pool that is not signed or not dated as the record
      says, an address outside the paid tree, a number of paid nodes other than the depth, a paid node whose place is
      none of the pool or is another node's. */
  lemma MerkleRefused(lib: Libraries, mp: MerkleProof, info: PoolInfo)
    ensures var pool := mp.winnerPool.candidates;
            !MerkleAccepted(lib, mp, info) <==>
            || (exists i :: 0 <= i < |pool| && !lib.candidateSigned(pool[i]))
            || (exists i :: 0 <= i < |pool| && pool[i].timestamp != info.timestamp)
            || !lib.provesMembership(mp.address, mp.dataProof, mp.winnerPool.midpointProof, info.depth, info.timestamp)
            || |info.paidNodes| != info.depth
            || (exists i :: 0 <= i < |info.paidNodes| && info.paidNodes[i].1 >= |pool|)
            || (exists i :: 0 <= i < |info.paidNodes| && info.paidNodes[i].1 < |pool|
                            && pool[info.paidNodes[i].1].rewardAddress != info.paidNodes[i].0)
  {
  }

  method CheckMerkle(lib: Libraries, mp: MerkleProof, info: PoolInfo) returns (ok: bool)
    ensures ok <==> MerkleAccepted(lib, mp, info)
  {
    var candidates := mp.winnerPool.candidates;
    for i := 0 to |candidates|
      invariant forall k | 0 <= k < i :: lib.candidateSigned(candidates[k]) && candidates[k].timestamp == info.timestamp
    {
      if !lib.candidateSigned(candidates[i]) { return false; }
      if candidates[i].timestamp != info.timestamp { return false; }
    }
    if !lib.provesMembership(mp.address, mp.dataProof, mp.winnerPool.midpointProof, info.depth, info.timestamp) { return false; }
    if |info.paidNodes| != info.depth { return false; }
    for i := 0 to |info.paidNodes|
      invariant forall k | 0 <= k < i ::
        info.paidNodes[k].1 < |candidates| && candidates[info.paidNodes[k].1].rewardAddress == info.paidNodes[k].0
    {
      var (addr, idx) := info.paidNodes[i];
      if idx >= |candidates| { return false; }
      if candidates[idx].rewardAddress != addr { return false; }
    }
    ok := true;
  }

  // The cache of paid addresses.

  class VerifiedCache {
    const capacity: nat
    var inner: Entries<Name, ()>
    var hits: nat
    var misses: nat
    var additions: nat
    /** Hits and insertions since the cache was last empty. */
    ghost var uses: seq<(Name, ())>

    ghost predicate Valid()
      reads this
    {
      capacity >= 1 && inner == Kept(uses, capacity)
    }

    constructor (capacity: nat)
      ensures Valid() && inner == [] && uses == [] && hits == misses == additions == 0
      ensures this.capacity == if capacity == 0 then 1 else capacity
    {
      this.capacity := if capacity >= 1 then capacity else 1;
      inner, hits, misses, additions, uses := [], 0, 0, 0, [];
    }

    method Contains(name: Name) returns (found: bool)
      requires Valid()
      modifies this
      ensures Valid() && additions == old(additions)
      ensures found <==> old(Find(inner, name)).Some?
      ensures found <==> name in KeySet(old(uses)) && |UsedSince(old(uses), name)| < capacity
      ensures inner == Promote(old(inner), name) && uses == old(uses) + if found then [(name, ())] else []
      ensures if found then hits == old(hits) + 1 && misses == old(misses) else hits == old(hits) && misses == old(misses) + 1
    {
      KeptMeans(uses, name, capacity);
      found := Find(inner, name).Some?;
      if found {
        PromoteKeeps(uses, name, capacity);
        assert Find(inner, name).value == ();
        uses := uses + [(name, ())];
      }
      inner := Promote(inner, name);
      if found { hits := hits + 1; } else { misses := misses + 1; }
    }

    method Insert(name: Name)
      requires Valid()
      modifies this
      ensures Valid() && hits == old(hits) && misses == old(misses) && additions == old(additions) + 1
      ensures inner == Put(old(inner), name, (), capacity) && uses == old(uses) + [(name, ())]
    {
      PutKeeps(uses, name, (), capacity);
      inner := Put(inner, name, (), capacity);
      uses := uses + [(name, ())];
      additions := additions + 1;
    }

    method Clear()
      requires Valid()
      modifies this
      ensures Valid() && inner == [] && uses == []
      ensures hits == old(hits) && misses == old(misses) && additions == old(additions)
    {
      inner, uses := [], [];
    }
  }
}
