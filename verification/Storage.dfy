/** The chunk store of a node (ant-node/src/storage/lmdb.rs). */
module Storage {
  import opened Prelude

  type Database = map<Name, Bytes>

  /** The write transaction of a put: existence check, capacity limit (0 for none) and write, all at once. */
  function PutTxn(db: Database, maxChunks: nat, address: Name, content: Bytes): (Database, Result<bool>) {
    if address in db then (db, Success(false))
    else if maxChunks > 0 && |db| >= maxChunks then (db, Failure(CapacityReached))
    else (db[address := content], Success(true))
  }

  /** No entry is overwritten or lost, at most one is added, and never beyond the limit. */
  lemma PutTxnFacts(db: Database, maxChunks: nat, address: Name, content: Bytes)
    ensures var (after, r) := PutTxn(db, maxChunks, address, content);
            && (forall a | a in db :: a in after && after[a] == db[a])
            && (forall a | a in after :: a in db || (a == address && after[a] == content && r == Success(true)))
            && |after| == |db| + (if r == Success(true) then 1 else 0)
            && (r == Success(true) <==> address !in db && address in after)
            && (r == Success(false) <==> address in db)
            && (r == Failure(CapacityReached) <==> address !in db && maxChunks > 0 && |db| >= maxChunks)
            && (maxChunks > 0 && |db| <= maxChunks ==> |after| <= maxChunks)
  {
    if address !in db {
      assert db[address := content].Keys == db.Keys + {address};
      assert |db[address := content]| == |db.Keys + {address}|;
    }
  }

  /** A put of content that is under its hash: a first look at the store, then the transaction. Either may fail and
      then changes nothing. */
  function TryPut(db: Database, maxChunks: nat, address: Name, content: Bytes, lookFails: bool, writeFails: bool)
    : (Database, Result<bool>)
  {
    if lookFails then (db, Failure(StoreFailed))
    else if address in db then (db, Success(false))
    else if writeFails then (db, Failure(StoreFailed))
    else PutTxn(db, maxChunks, address, content)
  }

  /** A put does what its transaction alone would, or fails and changes nothing; it fails exactly if the first look
      does, or if the chunk is not there and the transaction fails or the store is full. */
  lemma TryPutFacts(db: Database, maxChunks: nat, address: Name, content: Bytes, lookFails: bool, writeFails: bool)
    ensures var (after, r) := TryPut(db, maxChunks, address, content, lookFails, writeFails);
            && (if r.Success? then (after, r) == PutTxn(db, maxChunks, address, content) else after == db)
            && (r == Failure(StoreFailed) <==> lookFails || (address !in db && writeFails))
            && (r == Failure(CapacityReached) <==>
                !lookFails && address !in db && !writeFails && maxChunks > 0 && |db| >= maxChunks)
  {
  }

  /** Deleting takes away exactly the one entry. */
  lemma DeleteFacts(db: Database, address: Name)
    ensures |db - {address}| == |db| - (if address in db then 1 else 0)
    ensures forall a :: a in db - {address} <==> a in db && a != address
  {
    assert (db - {address}).Keys == db.Keys - {address};
    assert |db - {address}| == |db.Keys - {address}|;
  }

  /** Every entry is stored under the hash of its content. */
  ghost predicate ContentAddressed(hash: Bytes -> Name, db: Database) {
    forall a | a in db :: hash(db[a]) == a
  }

  class LmdbStorage {
    const hash: Bytes -> Name
    const verifyOnRead: bool
    const maxChunks: nat
    var db: Database
    var chunksStored: nat
    var chunksRetrieved: nat
    var bytesStored: nat
    var bytesRetrieved: nat
    var duplicates: nat
    var verificationFailures: nat

    /** Opens the store on what an earlier run left in it. */
    constructor (hash: Bytes -> Name, verifyOnRead: bool, maxChunks: nat, db: Database)
      ensures this.hash == hash && this.verifyOnRead == verifyOnRead && this.maxChunks == maxChunks && this.db == db
      ensures chunksStored == chunksRetrieved == bytesStored == bytesRetrieved == duplicates == verificationFailures == 0
    {
      this.hash, this.verifyOnRead, this.maxChunks, this.db := hash, verifyOnRead, maxChunks, db;
      chunksStored, chunksRetrieved, bytesStored, bytesRetrieved, duplicates, verificationFailures := 0, 0, 0, 0, 0, 0;
    }

    // Whether the store's own input and output fail comes in as a parameter of each method.

    method Exists(address: Name, fails: bool) returns (r: Result<bool>)
      ensures r == if fails then Failure(StoreFailed) else Success(address in db)
    {
      if fails { return Failure(StoreFailed); }
      r := Success(address in db);
    }

    /** Stores a chunk under the hash of its content, unless it is there or the store is full or fails. */
    method Put(address: Name, content: Bytes, lookFails: bool, writeFails: bool) returns (r: Result<bool>)
      modifies this`db, this`chunksStored, this`bytesStored, this`duplicates
      ensures hash(content) != address ==> r == Failure(AddressMismatch) && db == old(db)
      ensures hash(content) == address ==> (db, r) == TryPut(old(db), maxChunks, address, content, lookFails, writeFails)
      ensures chunksStored == old(chunksStored) + if r == Success(true) then 1 else 0
      ensures bytesStored == old(bytesStored) + if r == Success(true) then |content| else 0
      ensures duplicates == old(duplicates) + if r == Success(false) then 1 else 0
      ensures old(ContentAddressed(hash, db)) ==> ContentAddressed(hash, db)
    {
      var computed := hash(content);
      if computed != address { return Failure(AddressMismatch); }
      var found := Exists(address, lookFails);
      if found.Failure? { return Failure(found.error); }
      if found.value {
        duplicates := duplicates + 1;
        return Success(false);
      }
      var wasNew := WriteTransaction(address, content, writeFails);
      if wasNew.Failure? { return Failure(wasNew.error); }
      if !wasNew.value {
        duplicates := duplicates + 1;
        return Success(false);
      }
      chunksStored := chunksStored + 1;
      bytesStored := bytesStored + |content|;
      r := Success(true);
    }

    /** The transaction. If it fails, wherever in it, it is not committed. */
    method WriteTransaction(address: Name, content: Bytes, fails: bool) returns (r: Result<bool>)
      modifies this`db
      ensures (db, r) == if fails then (old(db), Failure(StoreFailed)) else PutTxn(old(db), maxChunks, address, content)
    {
      if fails { return Failure(StoreFailed); }
      if address in db { return Success(false); }
      if maxChunks > 0 {
        var current := |db|;
        if current >= maxChunks { return Failure(CapacityReached); }
      }
      db := db[address := content];
      r := Success(true);
    }

    /** Reads a chunk. A content-addressed store never fails a verification. */
    method Get(address: Name, fails: bool) returns (r: Result<Option<Bytes>>)
      modifies this`chunksRetrieved, this`bytesRetrieved, this`verificationFailures
      ensures fails <==> r == Failure(StoreFailed)
      ensures !fails && address !in db ==> r == Success(None)
      ensures !fails && address in db ==>
                r == if verifyOnRead && hash(db[address]) != address then Failure(Corrupt) else Success(Some(db[address]))
      ensures verifyOnRead && r.Success? && r.value.Some? ==> hash(r.value.value) == address
      ensures ContentAddressed(hash, db) && !fails ==> r == Success(if address in db then Some(db[address]) else None)
      ensures verificationFailures == old(verificationFailures) + if r == Failure(Corrupt) then 1 else 0
      ensures chunksRetrieved == old(chunksRetrieved) + if r.Success? && r.value.Some? then 1 else 0
      ensures bytesRetrieved == old(bytesRetrieved) + if r.Success? && r.value.Some? then |db[address]| else 0
    {
      if fails { return Failure(StoreFailed); }
      if address !in db { return Success(None); }
      var content := db[address];
      if verifyOnRead {
        var computed := hash(content);
        if computed != address {
          verificationFailures := verificationFailures + 1;
          return Failure(Corrupt);
        }
      }
      chunksRetrieved := chunksRetrieved + 1;
      bytesRetrieved := bytesRetrieved + |content|;
      r := Success(Some(content));
    }

    method Delete(address: Name, fails: bool) returns (r: Result<bool>)
      modifies this`db
      ensures if fails then r == Failure(StoreFailed) && db == old(db)
              else r == Success(old(address in db)) && db == old(db) - {address}
      ensures |db| == |old(db)| - (if r == Success(true) then 1 else 0)
    {
      if fails { return Failure(StoreFailed); }
      DeleteFacts(db, address);
      r := Success(address in db);
      db := db - {address};
    }
  }
}
