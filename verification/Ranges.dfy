/** Offsets of chunks in the file they make up, and byte ranges of the file. */
module Ranges {
  import opened Prelude
  import opened Codec
  import opened Crypto
  import opened Decrypt

  /** The bytes from `start`, at most `len` of them, as far as the data reaches. */
  function Slice(data: Bytes, start: nat, len: nat): Bytes {
    if start >= |data| then [] else data[start..Min(start + len, |data|)]
  }

  lemma {:induction false} OffsetMonotone(infos: seq<ChunkInfo>, i: nat, j: nat)
    requires i <= j <= |infos|
    ensures Offset(infos, i) <= Offset(infos, j)
    decreases j - i
  {
    if i < j {
      OffsetMonotone(infos, i, j - 1);
    }
  }

  /** How chunk content is opened as chunk number `i`. */
  type Opener = (nat, Bytes) -> Result<Bytes>

  function OpensWith(cr: Suite, hashes: seq<Name>, level: nat): Opener {
    (i: nat, content: Bytes) => DecryptChunk(cr, i, content, hashes, level)
  }

  /** The entries open to `plain`, entry by entry, with the chunks the getter has. */
  ghost predicate Readable(open: Opener, infos: seq<ChunkInfo>, get: Getter, plain: seq<Bytes>) {
    && |plain| == |infos| && Consecutive(infos)
    && forall i | 0 <= i < |infos| ::
         && infos[i].srcSize == |plain[i]|
         && get(infos[i].dstHash).Success?
         && open(i, get(infos[i].dstHash).value) == Success(plain[i])
  }

  lemma ReadableLength(open: Opener, infos: seq<ChunkInfo>, get: Getter, plain: seq<Bytes>)
    requires Readable(open, infos, get, plain)
    ensures |Concat(plain)| == Offset(infos, |infos|)
  {
    OffsetIsLength(infos, plain, |infos|);
    assert plain[..|infos|] == plain;
  }

  lemma {:induction false} OffsetIsLength(infos: seq<ChunkInfo>, plain: seq<Bytes>, k: nat)
    requires |plain| == |infos| && k <= |infos|
    requires forall i | 0 <= i < |infos| :: infos[i].srcSize == |plain[i]|
    ensures |Concat(plain[..k])| == Offset(infos, k)
  {
    if k > 0 {
      OffsetIsLength(infos, plain, k - 1);
      ConcatSnoc(plain, k - 1);
    }
  }

  lemma ConcatAt(parts: seq<Bytes>, k: nat)
    requires k <= |parts|
    ensures Concat(parts) == Concat(parts[..k]) + Concat(parts[k..])
  {
    assert parts == parts[..k] + parts[k..];
    ConcatAppend(parts[..k], parts[k..]);
  }

  lemma ConcatSplit(parts: seq<Bytes>, i: nat, j: nat)
    requires i <= j <= |parts|
    ensures Concat(parts[..j]) == Concat(parts[..i]) + Concat(parts[i..j])
    ensures Concat(parts) == Concat(parts[..i]) + Concat(parts[i..j]) + Concat(parts[j..])
  {
    ConcatAt(parts, j);
    ConcatAt(parts[..j], i);
    assert parts[..j][..i] == parts[..i];
    assert parts[..j][i..] == parts[i..j];
  }

  /** A range lies inside the chunks that hold its first and its last byte: cut from those chunks alone, at
      the offset within them, it is the range of the whole file. */
  lemma SliceFromChunks(infos: seq<ChunkInfo>, plain: seq<Bytes>, first: nat, last: nat, start: nat, len: nat)
    requires |plain| == |infos| && forall i | 0 <= i < |infos| :: infos[i].srcSize == |plain[i]|
    requires first <= last < |infos|
    requires Offset(infos, first) <= start
    requires Min(start + len, Offset(infos, |infos|)) <= Offset(infos, last + 1)
    ensures Slice(Concat(plain[first..last + 1]), start - Offset(infos, first), len) == Slice(Concat(plain), start, len)
  {
    var before, inside, behind := Concat(plain[..first]), Concat(plain[first..last + 1]), Concat(plain[last + 1..]);
    assert Concat(plain) == before + inside + behind && Concat(plain[..last + 1]) == before + inside by {
      ConcatSplit(plain, first, last + 1);
    }
    assert |before| == Offset(infos, first) by { OffsetIsLength(infos, plain, first); }
    assert |before| + |inside| == Offset(infos, last + 1) by { OffsetIsLength(infos, plain, last + 1); }
    assert |before| + |inside| + |behind| == Offset(infos, |infos|) by {
      OffsetIsLength(infos, plain, |infos|);
      assert plain[..|infos|] == plain;
    }
    SliceInside(before, inside, behind, start, len);
  }

  lemma SliceInside(before: Bytes, inside: Bytes, behind: Bytes, start: nat, len: nat)
    requires |before| <= start
    requires Min(start + len, |before| + |inside| + |behind|) <= |before| + |inside|
    ensures Slice(inside, start - |before|, len) == Slice(before + inside + behind, start, len)
  {
    var data := before + inside + behind;
    if start < |data| {
      var end := Min(start + len, |data|);
      if start < |before| + |inside| {
        assert data[start..end] == inside[start - |before|..end - |before|];
      }
    }
  }

  /** A length that reaches the file's end may be clipped there. */
  lemma SliceClipped(data: Bytes, start: nat, len: nat)
    requires start < |data|
    ensures Slice(data, start, Min(start + len, |data|) - start) == Slice(data, start, len)
  {
  }

  lemma SliceEmpty(data: Bytes, start: nat, len: nat)
    requires start >= |data| || len == 0
    ensures Slice(data, start, len) == []
  {
  }

  lemma SliceToEnd(data: Bytes, start: nat)
    ensures Slice(data, start, SaturatingSub(|data|, start)) == if start <= |data| then data[start..] else []
    ensures Slice(data, 0, |data|) == data
  {
  }

  // Sorting by key: `sort_by_key(|(index, _)| *index)`, a stable sort.

  function InsertByKey<T>(x: (nat, T), sorted: seq<(nat, T)>): seq<(nat, T)> {
    if sorted == [] || x.0 < sorted[0].0 then [x] + sorted else [sorted[0]] + InsertByKey(x, sorted[1..])
  }

  function SortByKey<T>(s: seq<(nat, T)>): seq<(nat, T)> {
    if s == [] then [] else InsertByKey(s[|s| - 1], SortByKey(s[..|s| - 1]))
  }

  ghost predicate Ordered<T>(s: seq<(nat, T)>) {
    forall i, j | 0 <= i < j < |s| :: s[i].0 <= s[j].0
  }

  ghost predicate StrictlyOrdered<T>(s: seq<(nat, T)>) {
    forall i, j | 0 <= i < j < |s| :: s[i].0 < s[j].0
  }

  lemma {:induction false} InsertKeeps<T>(x: (nat, T), sorted: seq<(nat, T)>)
    ensures multiset(InsertByKey(x, sorted)) == multiset(sorted) + multiset{x}
  {
    if sorted != [] && x.0 >= sorted[0].0 {
      InsertKeeps(x, sorted[1..]);
      assert sorted == [sorted[0]] + sorted[1..];
    }
  }

  lemma {:induction false} InsertOrders<T>(x: (nat, T), sorted: seq<(nat, T)>)
    requires Ordered(sorted)
    ensures Ordered(InsertByKey(x, sorted))
    ensures forall y | y in InsertByKey(x, sorted) :: y == x || y in sorted
  {
    if sorted != [] && x.0 >= sorted[0].0 {
      InsertOrders(x, sorted[1..]);
      var rest := InsertByKey(x, sorted[1..]);
      forall y | y in rest
        ensures sorted[0].0 <= y.0
      {
        assert y == x || y in sorted[1..];
      }
    }
  }

  lemma {:induction false} SortFacts<T>(s: seq<(nat, T)>)
    ensures Ordered(SortByKey(s))
    ensures multiset(SortByKey(s)) == multiset(s)
  {
    if s != [] {
      SortFacts(s[..|s| - 1]);
      InsertKeeps(s[|s| - 1], SortByKey(s[..|s| - 1]));
      InsertOrders(s[|s| - 1], SortByKey(s[..|s| - 1]));
      assert s == s[..|s| - 1] + [s[|s| - 1]];
    }
  }

  /** The pairs with a key, in the order they are in. */
  function WithKey<T>(s: seq<(nat, T)>, key: nat): seq<(nat, T)> {
    if s == [] then [] else (if s[0].0 == key then [s[0]] else []) + WithKey(s[1..], key)
  }

  lemma {:induction false} WithKeyNone<T>(s: seq<(nat, T)>, key: nat)
    requires forall x | x in s :: x.0 != key
    ensures WithKey(s, key) == []
  {
    if s != [] {
      WithKeyNone(s[1..], key);
    }
  }

  lemma {:induction false} WithKeySnoc<T>(s: seq<(nat, T)>, last: (nat, T), key: nat)
    ensures WithKey(s + [last], key) == WithKey(s, key) + if last.0 == key then [last] else []
  {
    if s == [] {
      assert s + [last] == [last];
    } else {
      WithKeySnoc(s[1..], last, key);
      assert (s + [last])[1..] == s[1..] + [last];
    }
  }

  lemma {:induction false} InsertStable<T>(x: (nat, T), sorted: seq<(nat, T)>, key: nat)
    requires Ordered(sorted)
    ensures WithKey(InsertByKey(x, sorted), key) == WithKey(sorted, key) + if x.0 == key then [x] else []
  {
    if sorted == [] || x.0 < sorted[0].0 {
      assert ([x] + sorted)[1..] == sorted;
      if x.0 == key { WithKeyNone(sorted, key); }
    } else {
      var rest := InsertByKey(x, sorted[1..]);
      InsertStable(x, sorted[1..], key);
      assert ([sorted[0]] + rest)[1..] == rest;
    }
  }

  /** Sorting keeps pairs with the same key in their order. */
  lemma {:induction false} SortStable<T>(s: seq<(nat, T)>, key: nat)
    ensures WithKey(SortByKey(s), key) == WithKey(s, key)
  {
    if s != [] {
      var most, last := s[..|s| - 1], s[|s| - 1];
      SortStable(most, key);
      SortFacts(most);
      InsertStable(last, SortByKey(most), key);
      WithKeySnoc(most, last, key);
      assert s == most + [last];
    }
  }

  lemma SameHead<T>(a: seq<(nat, T)>, b: seq<(nat, T)>)
    requires StrictlyOrdered(a) && Ordered(b) && multiset(a) == multiset(b) && a != []
    ensures b != [] && a[0] == b[0]
  {
    assert a[0] in multiset(b);
    var i :| 0 <= i < |b| && b[i] == a[0];
    assert b[0] in multiset(a);
    var j :| 0 <= j < |a| && a[j] == b[0];
  }

  lemma TailMultiset<T>(a: seq<T>)
    requires a != []
    ensures multiset(a[1..]) == multiset(a) - multiset{a[0]}
  {
    assert a == [a[0]] + a[1..];
  }

  /** With distinct keys there is only one sorted order. */
  lemma {:induction false} SortedOrderIsUnique<T>(a: seq<(nat, T)>, b: seq<(nat, T)>)
    requires StrictlyOrdered(a) && Ordered(b) && multiset(a) == multiset(b)
    ensures a == b
  {
    if a == [] {
      assert |multiset(b)| == 0;
    } else {
      SameHead(a, b);
      TailMultiset(a);
      TailMultiset(b);
      SortedOrderIsUnique(a[1..], b[1..]);
      assert a == [a[0]] + a[1..] && b == [b[0]] + b[1..];
    }
  }

  /** Sorting a permuted batch restores its order. */
  lemma SortRestores<T>(ordered: seq<(nat, T)>, permuted: seq<(nat, T)>)
    requires StrictlyOrdered(ordered) && multiset(permuted) == multiset(ordered)
    ensures SortByKey(permuted) == ordered
  {
    SortFacts(permuted);
    SortedOrderIsUnique(ordered, SortByKey(permuted));
  }
}
