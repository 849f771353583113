/** The data map and its binary form (self_encryption/src/data_map.rs, bincode with fixed-width
    integers and trailing bytes allowed). */
module Codec {
  import opened Prelude
  import opened Crypto

  datatype ChunkInfo = ChunkInfo(index: nat, dstHash: Name, srcHash: Name, srcSize: nat)

  datatype DataMap = DataMap(infos: seq<ChunkInfo>, child: Option<nat>) {
    predicate IsChild() {
      child.Some?
    }

    /** The level its chunks were sealed at. */
    function Level(): nat {
      if child.Some? then child.value else 0
    }

    /** Size of the data it describes. */
    function OriginalFileSize(): nat {
      Offset(infos, |infos|)
    }
  }

  /** Where entry `k` begins: the sum of the sizes before it. */
  function Offset(infos: seq<ChunkInfo>, k: nat): nat
    requires k <= |infos|
  {
    if k == 0 then 0 else Offset(infos, k - 1) + infos[k - 1].srcSize
  }

  /** Every number fits a 64-bit usize, as it does in every value of the Rust types. */
  predicate Fits(m: DataMap) {
    && |m.infos| < USIZE_LIMIT
    && (forall info | info in m.infos :: info.index < USIZE_LIMIT && info.srcSize < USIZE_LIMIT)
    && m.Level() < USIZE_LIMIT
  }

  const INFO_SIZE: nat := 80

  function EncodeInfo(info: ChunkInfo): (r: Bytes)
    ensures |r| == INFO_SIZE
  {
    U64(info.index) + info.dstHash + info.srcHash + U64(info.srcSize)
  }

  function EncodeInfos(infos: seq<ChunkInfo>): (r: Bytes)
    ensures |r| == INFO_SIZE * |infos|
  {
    if infos == [] then [] else EncodeInfo(infos[0]) + EncodeInfos(infos[1..])
  }

  function EncodeChild(child: Option<nat>): Bytes {
    match child
    case None => [0]
    case Some(level) => [1] + U64(level)
  }

  /** Version byte 1, entry count, entries, option tag with the level if there is one. */
  function ToBytes(m: DataMap): (r: Bytes)
    ensures |r| == INFO_SIZE * |m.infos| + (if m.IsChild() then 18 else 10)
  {
    [1] + U64(|m.infos|) + EncodeInfos(m.infos) + EncodeChild(m.child)
  }

  function DecodeInfo(bytes: Bytes): ChunkInfo
    requires |bytes| >= INFO_SIZE
  {
    ChunkInfo(FromLittleEndian(bytes[..8]), bytes[8..40], bytes[40..72], FromLittleEndian(bytes[72..80]))
  }

  /** The next `count` entries and the bytes behind them. */
  function DecodeInfos(bytes: Bytes, count: nat): Result<(seq<ChunkInfo>, Bytes)>
    decreases count
  {
    if count == 0 then Success(([], bytes))
    else if |bytes| < INFO_SIZE then Failure(BadMap)
    else
      var (rest, remaining) :- DecodeInfos(bytes[INFO_SIZE..], count - 1);
      Success(([DecodeInfo(bytes)] + rest, remaining))
  }

  function DecodeChild(bytes: Bytes): Result<Option<nat>> {
    if |bytes| < 1 then Failure(BadMap)
    else if bytes[0] == 0 then Success(None)
    else if bytes[0] == 1 && |bytes| >= 9 then Success(Some(FromLittleEndian(bytes[1..9])))
    else Failure(BadMap)
  }

  /** Fields are read before the version is judged; bytes after the option are ignored. */
  function FromBytes(bytes: Bytes): Result<DataMap> {
    if |bytes| < 9 then Failure(BadMap)
    else
      var (infos, remaining) :- DecodeInfos(bytes[9..], FromLittleEndian(bytes[1..9]));
      var child :- DecodeChild(remaining);
      if bytes[0] == 1 then Success(DataMap(infos, child)) else Failure(BadMap)
  }

  lemma InfoRoundTrip(info: ChunkInfo, tail: Bytes)
    requires info.index < USIZE_LIMIT && info.srcSize < USIZE_LIMIT
    ensures DecodeInfo(EncodeInfo(info) + tail) == info
  {
    var bytes := EncodeInfo(info) + tail;
    assert bytes[..8] == U64(info.index);
    assert bytes[8..40] == info.dstHash;
    assert bytes[40..72] == info.srcHash;
    assert bytes[72..80] == U64(info.srcSize);
    U64RoundTrip(info.index);
    U64RoundTrip(info.srcSize);
  }

  lemma DecodeInfosCons(info: ChunkInfo, behind: Bytes, rest: seq<ChunkInfo>, tail: Bytes)
    requires info.index < USIZE_LIMIT && info.srcSize < USIZE_LIMIT
    requires DecodeInfos(behind, |rest|) == Success((rest, tail))
    ensures DecodeInfos(EncodeInfo(info) + behind, |rest| + 1) == Success(([info] + rest, tail))
  {
    InfoRoundTrip(info, behind);
    assert (EncodeInfo(info) + behind)[INFO_SIZE..] == behind;
  }

  lemma {:induction false} InfosRoundTrip(infos: seq<ChunkInfo>, tail: Bytes)
    requires forall info | info in infos :: info.index < USIZE_LIMIT && info.srcSize < USIZE_LIMIT
    ensures DecodeInfos(EncodeInfos(infos) + tail, |infos|) == Success((infos, tail))
  {
    if infos == [] {
      assert EncodeInfos(infos) + tail == tail;
    } else {
      InfosRoundTrip(infos[1..], tail);
      DecodeInfosCons(infos[0], EncodeInfos(infos[1..]) + tail, infos[1..], tail);
      assert EncodeInfos(infos) + tail == EncodeInfo(infos[0]) + (EncodeInfos(infos[1..]) + tail);
      assert [infos[0]] + infos[1..] == infos;
    }
  }

  lemma ChildRoundTrip(child: Option<nat>, tail: Bytes)
    requires child.Some? ==> child.value < USIZE_LIMIT
    ensures DecodeChild(EncodeChild(child) + tail) == Success(child)
  {
    if child.Some? {
      U64RoundTrip(child.value);
      assert (EncodeChild(child) + tail)[1..9] == U64(child.value);
    }
  }

  /** Every map comes back from its bytes, entries in the same order and child level kept, whatever
      follows the bytes. */
  lemma MapRoundTrip(m: DataMap, tail: Bytes)
    requires Fits(m)
    ensures FromBytes(ToBytes(m) + tail) == Success(m)
  {
    var count, entries, child := U64(|m.infos|), EncodeInfos(m.infos), EncodeChild(m.child);
    var bytes := ToBytes(m) + tail;
    HeaderSplit(count, entries, child, tail);
    U64RoundTrip(|m.infos|);
    InfosRoundTrip(m.infos, child + tail);
    ChildRoundTrip(m.child, tail);
  }

  lemma HeaderSplit(count: Bytes, entries: Bytes, child: Bytes, tail: Bytes)
    requires |count| == 8
    ensures var bytes := [1] + count + entries + child + tail;
            |bytes| >= 9 && bytes[0] == 1 && bytes[1..9] == count && bytes[9..] == entries + (child + tail)
  {
  }

  lemma {:induction false} EntryAt(infos: seq<ChunkInfo>, i: nat)
    requires i < |infos|
    ensures EncodeInfos(infos)[80 * i..80 * i + 80] == EncodeInfo(infos[i])
  {
    var rest := EncodeInfos(infos[1..]);
    if i > 0 {
      EntryAt(infos[1..], i - 1);
      assert EncodeInfos(infos)[80 * i..80 * i + 80] == rest[80 * i - 80..80 * i];
    }
  }

  lemma EntryLayout(info: ChunkInfo)
    requires info.index < USIZE_LIMIT && info.srcSize < USIZE_LIMIT
    ensures var b := EncodeInfo(info);
            && FromLittleEndian(b[..8]) == info.index && b[8..40] == info.dstHash && b[40..72] == info.srcHash
            && FromLittleEndian(b[72..]) == info.srcSize
  {
    var b := EncodeInfo(info);
    assert b[..8] == U64(info.index) && b[72..] == U64(info.srcSize);
    U64RoundTrip(info.index);
    U64RoundTrip(info.srcSize);
  }

  /** The binary form, byte by byte: 1; the number of entries; the entries of 80 bytes each; and 0 for a root map, or 1
      and the level. Numbers have 8 bytes. */
  lemma EncodingLayout(m: DataMap)
    requires Fits(m)
    ensures var b, n := ToBytes(m), |m.infos|;
            && b[0] == 1 && FromLittleEndian(b[1..9]) == n
            && (m.child == None ==> |b| == 80 * n + 10 && b[80 * n + 9] == 0)
            && (m.child != None ==>
                  |b| == 80 * n + 18 && b[80 * n + 9] == 1 && FromLittleEndian(b[80 * n + 10..]) == m.child.value)
  {
    hide U64, FromLittleEndian, EncodeInfos;
    var b, n := ToBytes(m), |m.infos|;
    assert b[1..9] == U64(n);
    U64RoundTrip(n);
    if m.child.Some? {
      assert b[80 * n + 10..] == U64(m.child.value);
      U64RoundTrip(m.child.value);
    }
  }

  /** An entry's 80 bytes: index, hash of the sealed content, hash of the content, size. */
  lemma EntriesLayout(m: DataMap, i: nat)
    requires Fits(m) && i < |m.infos|
    ensures var b, at := ToBytes(m), 80 * i + 9;
            && FromLittleEndian(b[at..at + 8]) == m.infos[i].index && b[at + 8..at + 40] == m.infos[i].dstHash
            && b[at + 40..at + 72] == m.infos[i].srcHash && FromLittleEndian(b[at + 72..at + 80]) == m.infos[i].srcSize
  {
    hide U64, FromLittleEndian, EncodeInfos, EncodeInfo;
    var b, at, entries, entry := ToBytes(m), 80 * i + 9, EncodeInfos(m.infos), EncodeInfo(m.infos[i]);
    EntryAt(m.infos, i);
    assert m.infos[i] in m.infos;
    EntryLayout(m.infos[i]);
    assert b == ([1] + U64(|m.infos|)) + entries + EncodeChild(m.child);
    PartStays([1] + U64(|m.infos|), entries, EncodeChild(m.child), 80 * i, entry);
    assert b[at..at + 8] == entry[..8] && b[at + 8..at + 40] == entry[8..40];
    assert b[at + 40..at + 72] == entry[40..72] && b[at + 72..at + 80] == entry[72..];
  }

  lemma PartStays(before: Bytes, middle: Bytes, behind: Bytes, i: nat, part: Bytes)
    requires i + |part| <= |middle| && middle[i..i + |part|] == part
    ensures (before + middle + behind)[|before| + i..|before| + i + |part|] == part
  {
  }

  /** Without anything behind it: the law the tests promise. */
  lemma MapRoundTripExact(m: DataMap)
    requires Fits(m)
    ensures FromBytes(ToBytes(m)) == Success(m)
  {
    MapRoundTrip(m, []);
    assert ToBytes(m) + [] == ToBytes(m);
  }

  lemma InfoCanonical(bytes: Bytes)
    requires |bytes| >= INFO_SIZE
    ensures EncodeInfo(DecodeInfo(bytes)) == bytes[..INFO_SIZE]
    ensures DecodeInfo(bytes).index < USIZE_LIMIT && DecodeInfo(bytes).srcSize < USIZE_LIMIT
  {
    U64Canonical(bytes[..8]);
    U64Canonical(bytes[72..80]);
    assert bytes[..INFO_SIZE] == bytes[..8] + bytes[8..40] + bytes[40..72] + bytes[72..80];
  }

  lemma {:induction false} InfosCanonical(bytes: Bytes, count: nat)
    requires DecodeInfos(bytes, count).Success?
    ensures var (infos, remaining) := DecodeInfos(bytes, count).value;
            && |infos| == count
            && EncodeInfos(infos) + remaining == bytes
            && forall info | info in infos :: info.index < USIZE_LIMIT && info.srcSize < USIZE_LIMIT
    decreases count
  {
    if count == 0 {
      assert EncodeInfos([]) + bytes == bytes;
    } else {
      InfosCanonical(bytes[INFO_SIZE..], count - 1);
      InfoCanonical(bytes);
      var (rest, remaining) := DecodeInfos(bytes[INFO_SIZE..], count - 1).value;
      var infos := [DecodeInfo(bytes)] + rest;
      assert infos[1..] == rest;
      assert EncodeInfos(infos) + remaining == bytes[..INFO_SIZE] + (EncodeInfos(rest) + remaining);
    }
  }

  lemma ChildCanonical(bytes: Bytes)
    requires DecodeChild(bytes).Success?
    ensures var child := DecodeChild(bytes).value;
            EncodeChild(child) <= bytes && (child.Some? ==> child.value < USIZE_LIMIT)
  {
    if bytes[0] == 1 {
      U64Canonical(bytes[1..9]);
      assert bytes[..9] == [1] + bytes[1..9];
    }
  }

  /** The decoder accepts nothing but encodings: what it reads is the encoding of the map it returns. */
  lemma DecodingIsCanonical(bytes: Bytes)
    requires FromBytes(bytes).Success?
    ensures Fits(FromBytes(bytes).value)
    ensures ToBytes(FromBytes(bytes).value) <= bytes
  {
    var count := FromLittleEndian(bytes[1..9]);
    U64Canonical(bytes[1..9]);
    InfosCanonical(bytes[9..], count);
    var (infos, remaining) := DecodeInfos(bytes[9..], count).value;
    ChildCanonical(remaining);
    var m := FromBytes(bytes).value;
    assert m == DataMap(infos, DecodeChild(remaining).value);
    HeaderJoin(bytes, U64(count), EncodeInfos(infos), remaining, EncodeChild(m.child));
  }

  lemma HeaderJoin(bytes: Bytes, count: Bytes, entries: Bytes, remaining: Bytes, child: Bytes)
    requires |bytes| >= 9 && bytes[0] == 1 && bytes[1..9] == count
    requires bytes[9..] == entries + remaining && child <= remaining
    ensures [1] + count + entries + child <= bytes
  {
    assert bytes == [1] + count + (entries + remaining);
    assert remaining == child + remaining[|child|..];
    assert bytes == [1] + count + entries + child + remaining[|child|..];
  }

  /** Different maps have different encodings, and none is a prefix of another. */
  lemma EncodingIsPrefixFree(a: DataMap, b: DataMap)
    requires Fits(a) && Fits(b)
    requires ToBytes(a) <= ToBytes(b)
    ensures a == b
  {
    var tail := ToBytes(b)[|ToBytes(a)|..];
    assert ToBytes(b) == ToBytes(a) + tail;
    MapRoundTrip(a, tail);
    MapRoundTripExact(b);
  }

  /** A truncated encoding is rejected, wherever it was cut. */
  lemma TruncationRejected(m: DataMap, length: nat)
    requires Fits(m) && length < |ToBytes(m)|
    ensures FromBytes(ToBytes(m)[..length]).Failure?
  {
    var cut := ToBytes(m)[..length];
    if FromBytes(cut).Success? {
      DecodingIsCanonical(cut);
      EncodingIsPrefixFree(FromBytes(cut).value, m);
    }
  }

  lemma {:induction false} DecodeInfosFails(bytes: Bytes, count: nat)
    ensures DecodeInfos(bytes, count).Success? <==> |bytes| >= 80 * count
    ensures DecodeInfos(bytes, count).Success? ==> DecodeInfos(bytes, count).value.1 == bytes[80 * count..]
    ensures DecodeInfos(bytes, count).Failure? ==> DecodeInfos(bytes, count) == Failure(BadMap)
    decreases count
  {
    if count > 0 && |bytes| >= INFO_SIZE {
      DecodeInfosFails(bytes[80..], count - 1);
      if |bytes| >= 80 * count { assert bytes[80..][80 * (count - 1)..] == bytes[80 * count..]; }
    }
  }

  /** Bytes are a map exactly if they begin with 1 and are long enough for the entries they announce and for the option
      behind these, which is absent or present; otherwise they are a bad map. */
  lemma DecodesExactly(bytes: Bytes)
    ensures FromBytes(bytes).Failure? ==> FromBytes(bytes) == Failure(BadMap)
    ensures FromBytes(bytes).Success? <==>
            && |bytes| >= 9 && bytes[0] == 1
            && var option := 9 + 80 * FromLittleEndian(bytes[1..9]);
            && |bytes| > option && (bytes[option] == 0 || (bytes[option] == 1 && |bytes| >= option + 9))
  {
    hide FromLittleEndian, DecodeInfos;
    if |bytes| >= 9 {
      DecodeInfosFails(bytes[9..], FromLittleEndian(bytes[1..9]));
    }
  }

  // `keys.sort_by(|a, b| a.index.cmp(&b.index))`: a stable sort, here by insertion.
  function InsertByIndex(info: ChunkInfo, sorted: seq<ChunkInfo>): seq<ChunkInfo> {
    if sorted == [] || info.index < sorted[0].index then [info] + sorted
    else [sorted[0]] + InsertByIndex(info, sorted[1..])
  }

  function SortByIndex(infos: seq<ChunkInfo>): seq<ChunkInfo> {
    if infos == [] then []
    else InsertByIndex(infos[|infos| - 1], SortByIndex(infos[..|infos| - 1]))
  }

  ghost predicate SortedInfos(infos: seq<ChunkInfo>) {
    forall i, j | 0 <= i < j < |infos| :: infos[i].index <= infos[j].index
  }

  lemma {:induction false} InsertSorts(info: ChunkInfo, sorted: seq<ChunkInfo>)
    requires SortedInfos(sorted)
    ensures SortedInfos(InsertByIndex(info, sorted))
    ensures forall x | x in InsertByIndex(info, sorted) :: x == info || x in sorted
  {
    if sorted != [] && info.index >= sorted[0].index {
      InsertSorts(info, sorted[1..]);
      var rest := InsertByIndex(info, sorted[1..]);
      forall x | x in rest
        ensures sorted[0].index <= x.index
      {
        assert x == info || x in sorted[1..];
      }
    }
  }

  /** A map's entries are in index order once it is built. */
  lemma {:induction false} SortByIndexSorts(infos: seq<ChunkInfo>)
    ensures SortedInfos(SortByIndex(infos))
  {
    if infos != [] {
      SortByIndexSorts(infos[..|infos| - 1]);
      InsertSorts(infos[|infos| - 1], SortByIndex(infos[..|infos| - 1]));
    }
  }

  /** The entries with an index, in the order they are in. */
  function WithIndex(infos: seq<ChunkInfo>, index: nat): seq<ChunkInfo> {
    if infos == [] then []
    else (if infos[0].index == index then [infos[0]] else []) + WithIndex(infos[1..], index)
  }

  lemma {:induction false} WithIndexNone(infos: seq<ChunkInfo>, index: nat)
    requires forall x | x in infos :: x.index != index
    ensures WithIndex(infos, index) == []
  {
    if infos != [] {
      WithIndexNone(infos[1..], index);
    }
  }

  lemma {:induction false} WithIndexSnoc(infos: seq<ChunkInfo>, last: ChunkInfo, index: nat)
    ensures WithIndex(infos + [last], index) == WithIndex(infos, index) + if last.index == index then [last] else []
  {
    if infos == [] {
      assert infos + [last] == [last];
    } else {
      WithIndexSnoc(infos[1..], last, index);
      assert (infos + [last])[1..] == infos[1..] + [last];
    }
  }

  lemma {:induction false} InsertKeepsAll(info: ChunkInfo, sorted: seq<ChunkInfo>)
    ensures multiset(InsertByIndex(info, sorted)) == multiset(sorted) + multiset{info}
  {
    if sorted != [] && info.index >= sorted[0].index {
      InsertKeepsAll(info, sorted[1..]);
      assert sorted == [sorted[0]] + sorted[1..];
    }
  }

  lemma {:induction false} InsertIsStable(info: ChunkInfo, sorted: seq<ChunkInfo>, index: nat)
    requires SortedInfos(sorted)
    ensures WithIndex(InsertByIndex(info, sorted), index)
         == WithIndex(sorted, index) + if info.index == index then [info] else []
  {
    if sorted == [] || info.index < sorted[0].index {
      assert ([info] + sorted)[1..] == sorted;
      if info.index == index { WithIndexNone(sorted, index); }
    } else {
      var rest := InsertByIndex(info, sorted[1..]);
      InsertIsStable(info, sorted[1..], index);
      assert ([sorted[0]] + rest)[1..] == rest;
    }
  }

  /** Sorting keeps every entry, and entries with the same index in their order. */
  lemma {:induction false} SortIsStable(infos: seq<ChunkInfo>, index: nat)
    ensures multiset(SortByIndex(infos)) == multiset(infos)
    ensures WithIndex(SortByIndex(infos), index) == WithIndex(infos, index)
  {
    if infos != [] {
      var most, last := infos[..|infos| - 1], infos[|infos| - 1];
      SortIsStable(most, index);
      SortByIndexSorts(most);
      InsertIsStable(last, SortByIndex(most), index);
      InsertKeepsAll(last, SortByIndex(most));
      WithIndexSnoc(most, last, index);
      assert infos == most + [last];
    }
  }

  function NewMap(infos: seq<ChunkInfo>): DataMap {
    DataMap(SortByIndex(infos), None)
  }

  function WithChild(infos: seq<ChunkInfo>, child: nat): DataMap {
    DataMap(SortByIndex(infos), Some(child))
  }

  /** Entry `i` has index `i`. */
  predicate Consecutive(infos: seq<ChunkInfo>) {
    forall i | 0 <= i < |infos| :: infos[i].index == i
  }
}
