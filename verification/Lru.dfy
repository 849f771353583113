/** A map that keeps the most recently used entries (the LruCache behind ant-node/src/payment/cache.rs and the
    pool cache of ant-node/src/payment/verifier.rs). */
module Lru {
  import opened Prelude

  /** Entries, the most recently used first. */
  type Entries<K, V> = seq<(K, V)>

  function Find<K(==), V>(s: Entries<K, V>, key: K): Option<V> {
    if s == [] then None else if s[0].0 == key then Some(s[0].1) else Find(s[1..], key)
  }

  function Without<K(==), V>(s: Entries<K, V>, key: K): Entries<K, V> {
    if s == [] then [] else (if s[0].0 == key then [] else [s[0]]) + Without(s[1..], key)
  }

  /** `get`: a found entry moves to the front. */
  function Promote<K(==), V>(s: Entries<K, V>, key: K): Entries<K, V> {
    var found := Find(s, key);
    if found.None? then s else [(key, found.value)] + Without(s, key)
  }

  /** `put`: the entry goes to the front; if that makes one too many, the last one is evicted. */
  function Put<K(==), V>(s: Entries<K, V>, key: K, value: V, capacity: nat): Entries<K, V>
    requires capacity >= 1
  {
    var updated := [(key, value)] + Without(s, key);
    if |updated| > capacity then updated[..capacity] else updated
  }

  ghost predicate DistinctKeys<K, V>(s: Entries<K, V>) {
    forall i, j | 0 <= i < j < |s| :: s[i].0 != s[j].0
  }

  ghost function KeySet<K, V>(s: Entries<K, V>): set<K> {
    set i | 0 <= i < |s| :: s[i].0
  }

  lemma {:induction false} FindFacts<K, V>(s: Entries<K, V>, key: K)
    ensures Find(s, key).Some? <==> key in KeySet(s)
    ensures Find(s, key).Some? ==> (key, Find(s, key).value) in s
  {
    if s != [] {
      FindFacts(s[1..], key);
      assert s == [s[0]] + s[1..];
      KeySetCons(s[0], s[1..]);
    }
  }

  lemma KeySetSum<K, V>(a: Entries<K, V>, b: Entries<K, V>)
    ensures KeySet(a + b) == KeySet(a) + KeySet(b)
  {
    var whole := a + b;
    forall k | k in KeySet(a) + KeySet(b)
      ensures k in KeySet(whole)
    {
      if k in KeySet(a) {
        var i :| 0 <= i < |a| && a[i].0 == k;
        assert whole[i].0 == k;
      } else {
        var i :| 0 <= i < |b| && b[i].0 == k;
        assert whole[|a| + i].0 == k;
      }
    }
  }

  lemma KeySetCons<K, V>(entry: (K, V), s: Entries<K, V>)
    ensures KeySet([entry] + s) == {entry.0} + KeySet(s)
  {
    KeySetSum([entry], s);
    assert [entry][0] == entry;
  }

  lemma KeySetOfPrefix<K, V>(s: Entries<K, V>, length: nat)
    requires length <= |s|
    ensures KeySet(s[..length]) <= KeySet(s)
  {
  }

  lemma {:induction false} WithoutKeys<K, V>(s: Entries<K, V>, key: K)
    ensures KeySet(Without(s, key)) == KeySet(s) - {key}
  {
    if s != [] {
      assert s == [s[0]] + s[1..];
      WithoutKeys(s[1..], key);
      KeySetCons(s[0], s[1..]);
      KeySetCons(s[0], Without(s[1..], key));
      assert s[0].0 == key ==> Without(s, key) == Without(s[1..], key);
    }
  }

  lemma {:induction false} WithoutEntries<K, V>(s: Entries<K, V>, key: K)
    ensures forall entry | entry in Without(s, key) :: entry in s && entry.0 != key
    ensures |Without(s, key)| <= |s|
  {
    if s != [] {
      WithoutEntries(s[1..], key);
    }
  }

  lemma {:induction false} WithoutDistinct<K, V>(s: Entries<K, V>, key: K)
    requires DistinctKeys(s)
    ensures DistinctKeys(Without(s, key))
  {
    if s != [] {
      WithoutDistinct(s[1..], key);
      WithoutEntries(s[1..], key);
      if s[0].0 == key {
        assert Without(s, key) == Without(s[1..], key);
      } else {
        HeadIsNew(s[0], Without(s[1..], key), s);
      }
    }
  }

  lemma {:induction false} WithoutUnused<K, V>(s: Entries<K, V>, key: K)
    requires key !in KeySet(s)
    ensures Without(s, key) == s
  {
    if s != [] {
      assert s == [s[0]] + s[1..];
      KeySetCons(s[0], s[1..]);
      WithoutUnused(s[1..], key);
    }
  }

  lemma WithoutFacts<K, V>(s: Entries<K, V>, key: K)
    ensures KeySet(Without(s, key)) == KeySet(s) - {key}
    ensures forall entry | entry in Without(s, key) :: entry in s && entry.0 != key
    ensures DistinctKeys(s) ==> DistinctKeys(Without(s, key))
    ensures |Without(s, key)| <= |s|
    ensures key !in KeySet(s) ==> Without(s, key) == s
  {
    WithoutKeys(s, key);
    WithoutEntries(s, key);
    if DistinctKeys(s) { WithoutDistinct(s, key); }
    if key !in KeySet(s) { WithoutUnused(s, key); }
  }

  lemma HeadIsNew<K, V>(head: (K, V), rest: Entries<K, V>, s: Entries<K, V>)
    requires s != [] && s[0] == head && DistinctKeys(s) && DistinctKeys(rest)
    requires forall entry | entry in rest :: entry in s[1..]
    ensures DistinctKeys([head] + rest)
  {
    forall j | 0 <= j < |rest|
      ensures rest[j].0 != head.0
    {
      assert rest[j] in s[1..];
    }
  }

  /** What `put` leaves: the new entry, and of the others none that was not there. */
  lemma PutFacts<K, V>(s: Entries<K, V>, key: K, value: V, capacity: nat)
    requires capacity >= 1
    ensures |Put(s, key, value, capacity)| <= capacity
    ensures Find(Put(s, key, value, capacity), key) == Some(value)
    ensures KeySet(Put(s, key, value, capacity)) <= KeySet(s) + {key}
    ensures forall entry | entry in Put(s, key, value, capacity) :: entry == (key, value) || entry in s
    ensures DistinctKeys(s) ==> DistinctKeys(Put(s, key, value, capacity))
  {
    WithoutFacts(s, key);
    var updated := [(key, value)] + Without(s, key);
    KeySetCons((key, value), Without(s, key));
    if |updated| > capacity { KeySetOfPrefix(updated, capacity); }
    if DistinctKeys(s) {
      forall j | 0 <= j < |Without(s, key)|
        ensures Without(s, key)[j].0 != key
      {
        assert Without(s, key)[j] in Without(s, key);
      }
    }
  }

  lemma PromoteFacts<K, V>(s: Entries<K, V>, key: K)
    ensures KeySet(Promote(s, key)) == KeySet(s)
    ensures forall entry | entry in Promote(s, key) :: entry in s
    ensures Find(Promote(s, key), key) == Find(s, key)
  {
    FindFacts(s, key);
    WithoutFacts(s, key);
    if Find(s, key).Some? {
      var entry := (key, Find(s, key).value);
      KeySetCons(entry, Without(s, key));
    }
  }

  // What a cache holds, in terms of its whole history.

  /** All keys ever used, the last used first, each with the value it was last used with. */
  function Recent<K(==), V>(uses: seq<(K, V)>): Entries<K, V> {
    if uses == [] then []
    else
      var last := uses[|uses| - 1];
      [last] + Without(Recent(uses[..|uses| - 1]), last.0)
  }

  /** The most recently used `capacity` of them. */
  function Kept<K(==), V>(uses: seq<(K, V)>, capacity: nat): Entries<K, V> {
    var recent := Recent(uses);
    if |recent| > capacity then recent[..capacity] else recent
  }

  lemma {:induction false} RecentDistinct<K, V>(uses: seq<(K, V)>)
    ensures DistinctKeys(Recent(uses))
  {
    if uses != [] {
      var most, last := uses[..|uses| - 1], uses[|uses| - 1];
      RecentDistinct(most);
      WithoutFacts(Recent(most), last.0);
      forall j | 0 <= j < |Without(Recent(most), last.0)|
        ensures Without(Recent(most), last.0)[j].0 != last.0
      {
        assert Without(Recent(most), last.0)[j] in Without(Recent(most), last.0);
      }
    }
  }

  /** Removing a key from a prefix, or a prefix of what is left without it. */
  lemma {:induction false} WithoutPrefix<K, V>(s: Entries<K, V>, key: K, length: nat)
    requires length <= |s| && DistinctKeys(s)
    ensures Without(s[..length], key) <= Without(s, key)
    ensures |Without(s[..length], key)| == if key in KeySet(s[..length]) then length - 1 else length
  {
    if length > 0 {
      assert s[..length][1..] == s[1..][..length - 1];
      assert s[..length] == [s[0]] + s[1..][..length - 1];
      KeySetCons(s[0], s[1..][..length - 1]);
      WithoutPrefix(s[1..], key, length - 1);
      if s[0].0 == key {
        assert key !in KeySet(s[1..][..length - 1]);
        WithoutFacts(s[1..][..length - 1], key);
      }
    }
  }

  /** `put` on the kept entries keeps the most recent ones again. */
  lemma PutKeeps<K, V>(uses: seq<(K, V)>, key: K, value: V, capacity: nat)
    requires capacity >= 1
    ensures Put(Kept(uses, capacity), key, value, capacity) == Kept(uses + [(key, value)], capacity)
  {
    var recent := Recent(uses);
    RecentDistinct(uses);
    assert (uses + [(key, value)])[..|uses|] == uses;
    if |recent| > capacity {
      WithoutPrefix(recent, key, capacity);
      WithoutPrefix(recent, key, |recent|);
      assert recent[..|recent|] == recent;
    }
  }

  /** A `get` that finds its key keeps the most recent ones again. */
  lemma PromoteKeeps<K, V>(uses: seq<(K, V)>, key: K, capacity: nat)
    requires Find(Kept(uses, capacity), key).Some?
    ensures Promote(Kept(uses, capacity), key) == Kept(uses + [(key, Find(Kept(uses, capacity), key).value)], capacity)
  {
    var recent, kept := Recent(uses), Kept(uses, capacity);
    var value := Find(kept, key).value;
    RecentDistinct(uses);
    FindFacts(kept, key);
    assert (uses + [(key, value)])[..|uses|] == uses;
    assert recent[..|recent|] == recent;
    WithoutPrefix(recent, key, |kept|);
    WithoutPrefix(recent, key, |recent|);
    KeySetOfPrefix(recent, |kept|);
    assert kept == recent[..|kept|];
  }

  /** The distinct keys used after the last use of a key. */
  function UsedSince<K(==), V>(uses: seq<(K, V)>, key: K): set<K> {
    if uses == [] || uses[|uses| - 1].0 == key then {}
    else UsedSince(uses[..|uses| - 1], key) + {uses[|uses| - 1].0}
  }

  /** How many entries stand before a key. */
  function Place<K(==), V>(s: Entries<K, V>, key: K): nat {
    if s == [] || s[0].0 == key then 0 else 1 + Place(s[1..], key)
  }

  lemma {:induction false} PlaceFacts<K, V>(s: Entries<K, V>, key: K, length: nat)
    requires DistinctKeys(s) && length <= |s|
    ensures Place(s, key) <= |s|
    ensures key in KeySet(s[..length]) <==> key in KeySet(s) && Place(s, key) < length
  {
    if s != [] {
      assert s == [s[0]] + s[1..];
      KeySetCons(s[0], s[1..]);
      if length > 0 {
        assert s[..length] == [s[0]] + s[1..][..length - 1];
        KeySetCons(s[0], s[1..][..length - 1]);
        PlaceFacts(s[1..], key, length - 1);
      } else {
        PlaceFacts(s[1..], key, 0);
      }
    }
  }

  /** The keys that stand before a key. */
  function KeysBefore<K(==), V>(s: Entries<K, V>, key: K): set<K> {
    if s == [] || s[0].0 == key then {} else {s[0].0} + KeysBefore(s[1..], key)
  }

  lemma {:induction false} PlaceCounts<K, V>(s: Entries<K, V>, key: K)
    requires DistinctKeys(s)
    ensures |KeysBefore(s, key)| == Place(s, key) && KeysBefore(s, key) <= KeySet(s)
  {
    if s != [] {
      assert s == [s[0]] + s[1..];
      KeySetCons(s[0], s[1..]);
      if s[0].0 != key {
        PlaceCounts(s[1..], key);
        assert s[0].0 !in KeySet(s[1..]);
      }
    }
  }

  lemma {:induction false} KeysBeforeWithout<K, V>(s: Entries<K, V>, key: K, gone: K)
    requires key != gone
    ensures KeysBefore(Without(s, gone), key) == KeysBefore(s, key) - {gone}
  {
    if s != [] {
      KeysBeforeWithout(s[1..], key, gone);
      if s[0].0 != gone {
        assert Without(s, gone)[1..] == Without(s[1..], gone);
      } else {
        assert Without(s, gone) == Without(s[1..], gone);
      }
    }
  }

  lemma {:induction false} UsedSinceStandBefore<K, V>(uses: seq<(K, V)>, key: K)
    requires key in KeySet(uses)
    ensures KeysBefore(Recent(uses), key) == UsedSince(uses, key)
  {
    var most, last := uses[..|uses| - 1], uses[|uses| - 1];
    if last.0 != key {
      assert key in KeySet(most) by {
        var i :| 0 <= i < |uses| && uses[i].0 == key;
        assert most[i].0 == key;
      }
      UsedSinceStandBefore(most, key);
      KeysBeforeWithout(Recent(most), key, last.0);
      assert Recent(uses)[1..] == Without(Recent(most), last.0);
    }
  }

  lemma {:induction false} RecentKeys<K, V>(uses: seq<(K, V)>)
    ensures KeySet(Recent(uses)) == KeySet(uses)
  {
    if uses != [] {
      var most, last := uses[..|uses| - 1], uses[|uses| - 1];
      RecentKeys(most);
      WithoutFacts(Recent(most), last.0);
      KeySetCons(last, Without(Recent(most), last.0));
      KeySetSum(most, [last]);
      assert uses == most + [last] && [last][0] == last;
    }
  }

  /** An entry is kept exactly while fewer than `capacity` other keys have been used since its own last use. */
  lemma KeptMeans<K, V>(uses: seq<(K, V)>, key: K, capacity: nat)
    ensures Find(Kept(uses, capacity), key).Some? <==> key in KeySet(uses) && |UsedSince(uses, key)| < capacity
  {
    var recent := Recent(uses);
    RecentDistinct(uses);
    RecentKeys(uses);
    FindFacts(Kept(uses, capacity), key);
    PlaceCounts(recent, key);
    if key in KeySet(uses) {
      UsedSinceStandBefore(uses, key);
      PlaceFacts(recent, key, if |recent| > capacity then capacity else |recent|);
      PlaceFacts(recent, key, |recent|);
      assert recent[..|recent|] == recent;
    } else if |recent| > capacity {
      KeySetOfPrefix(recent, capacity);
    }
  }

  lemma {:induction false} FindPrefix<K, V>(s: Entries<K, V>, key: K, length: nat)
    requires length <= |s| && Find(s[..length], key).Some?
    ensures Find(s[..length], key) == Find(s, key)
  {
    if s[0].0 != key {
      assert s[..length][1..] == s[1..][..length - 1];
      FindPrefix(s[1..], key, length - 1);
    }
  }

  lemma {:induction false} FindWithout<K, V>(s: Entries<K, V>, key: K, gone: K)
    ensures Find(Without(s, gone), key) == if key == gone then None else Find(s, key)
  {
    if s != [] {
      FindWithout(s[1..], key, gone);
      if s[0].0 != gone {
        assert Without(s, gone)[1..] == Without(s[1..], gone);
      } else {
        assert Without(s, gone) == Without(s[1..], gone);
      }
    }
  }

  lemma {:induction false} FindRecent<K, V>(uses: seq<(K, V)>, key: K, i: nat)
    requires i < |uses| && uses[i].0 == key && forall j | i < j < |uses| :: uses[j].0 != key
    ensures Find(Recent(uses), key) == Some(uses[i].1)
  {
    var most, last := uses[..|uses| - 1], uses[|uses| - 1];
    var rest := Without(Recent(most), last.0);
    assert ([last] + rest)[1..] == rest;
    if i < |uses| - 1 {
      FindRecent(most, key, i);
      FindWithout(Recent(most), key, last.0);
    }
  }

  /** A kept key has the value it was last used with. */
  lemma KeptValue<K, V>(uses: seq<(K, V)>, key: K, capacity: nat, i: nat)
    requires i < |uses| && uses[i].0 == key && forall j | i < j < |uses| :: uses[j].0 != key
    ensures Find(Kept(uses, capacity), key) == None || Find(Kept(uses, capacity), key) == Some(uses[i].1)
  {
    FindRecent(uses, key, i);
    var recent := Recent(uses);
    if |recent| > capacity && Find(recent[..capacity], key).Some? { FindPrefix(recent, key, capacity); }
  }
}
