/** Sealing and opening one chunk: key schedule, compression, AEAD and XOR pad
    (self_encryption/src/{utils,cipher,encrypt,decrypt}.rs). */
module Crypto {
  import opened Prelude

  const PAD_SIZE: nat := 52
  const KEY_SIZE: nat := 32
  const NONCE_SIZE: nat := 12

  /** What the BLAKE3 key derivation writes: pad, key and nonce in one block. */
  type KdfOutput = s: Bytes | |s| == PAD_SIZE + KEY_SIZE + NONCE_SIZE witness seq(96, _ => 0)

  /** The libraries the crate calls. Each may report an error where the crate handles one. */
  datatype Suite = Suite(
    hash: Bytes -> Name,
    kdf: Bytes -> KdfOutput,
    compress: Bytes -> Option<Bytes>,
    decompress: Bytes -> Option<Bytes>,
    seal: (Bytes, Bytes, Bytes) -> Option<Bytes>,  // key, nonce, plaintext
    open: (Bytes, Bytes, Bytes) -> Option<Bytes>   // key, nonce, ciphertext
  )

  /** The inverse laws, the only facts assumed of the libraries. */
  ghost predicate Lawful(cr: Suite) {
    && (forall x :: cr.compress(x).Some? ==> cr.decompress(cr.compress(x).value) == Some(x))
    && (forall k, n, x :: cr.seal(k, n, x).Some? ==> cr.open(k, n, cr.seal(k, n, x).value) == Some(x))
  }

  datatype Pki = Pki(pad: Bytes, key: Bytes, nonce: Bytes)

  /** Little-endian encoding in `width` bytes; higher bytes are dropped. */
  function LittleEndian(n: nat, width: nat): (r: Bytes)
    ensures |r| == width
    decreases n + width
  {
    if width == 0 then [] else [(n % 256) as Byte] + LittleEndian(n / 256, width - 1)
  }

  function FromLittleEndian(s: Bytes): nat {
    if s == [] then 0 else s[0] as nat + 256 * FromLittleEndian(s[1..])
  }

  function Power256(width: nat): nat {
    if width == 0 then 1 else 256 * Power256(width - 1)
  }

  lemma Power256Of8()
    ensures Power256(8) == USIZE_LIMIT
  {
    assert Power256(4) == 0x1_0000_0000;
    assert Power256(8) == 256 * (256 * (256 * (256 * Power256(4))));
  }

  lemma {:induction false} LittleEndianRoundTrip(n: nat, width: nat)
    requires n < Power256(width)
    ensures FromLittleEndian(LittleEndian(n, width)) == n
    decreases width
  {
    if width > 0 {
      LittleEndianRoundTrip(n / 256, width - 1);
      assert LittleEndian(n, width)[1..] == LittleEndian(n / 256, width - 1);
    }
  }

  lemma {:induction false} LittleEndianCanonical(s: Bytes)
    ensures FromLittleEndian(s) < Power256(|s|)
    ensures LittleEndian(FromLittleEndian(s), |s|) == s
  {
    if s != [] {
      LittleEndianCanonical(s[1..]);
      LowByteFirst(s[0] as nat, FromLittleEndian(s[1..]), |s|);
      assert s == [s[0]] + s[1..];
    }
  }

  /** The lowest byte comes first. */
  lemma LowByteFirst(low: nat, high: nat, width: nat)
    requires low < 256 && width > 0
    ensures LittleEndian(low + 256 * high, width) == [low as Byte] + LittleEndian(high, width - 1)
  {
    assert (low + 256 * high) % 256 == low;
    assert (low + 256 * high) / 256 == high;
  }

  /** A usize as 8 bytes. */
  function U64(n: nat): (r: Bytes)
    ensures |r| == 8
  {
    LittleEndian(n, 8)
  }

  lemma U64RoundTrip(n: nat)
    requires n < USIZE_LIMIT
    ensures FromLittleEndian(U64(n)) == n
  {
    Power256Of8();
    LittleEndianRoundTrip(n, 8);
  }

  lemma U64Canonical(s: Bytes)
    requires |s| == 8
    ensures FromLittleEndian(s) < USIZE_LIMIT && U64(FromLittleEndian(s)) == s
  {
    Power256Of8();
    LittleEndianCanonical(s);
  }

  /** Bitwise exclusive or of two numbers of `width` bits. */
  function XorBits(a: nat, b: nat, width: nat): (r: nat)
    decreases width
  {
    if width == 0 then 0 else (if a % 2 == b % 2 then 0 else 1) + 2 * XorBits(a / 2, b / 2, width - 1)
  }

  function Power2(width: nat): (r: nat)
    ensures r >= 1
  {
    if width == 0 then 1 else 2 * Power2(width - 1)
  }

  lemma {:induction false} XorBitsBound(a: nat, b: nat, width: nat)
    ensures XorBits(a, b, width) < Power2(width)
    decreases width
  {
    if width > 0 { XorBitsBound(a / 2, b / 2, width - 1); }
  }

  lemma {:induction false} XorBitsTwice(a: nat, b: nat, width: nat)
    requires a < Power2(width)
    ensures XorBits(XorBits(a, b, width), b, width) == a
    decreases width
  {
    if width > 0 {
      var low, high := if a % 2 == b % 2 then 0 else 1, XorBits(a / 2, b / 2, width - 1);
      var r := XorBits(a, b, width);
      assert r % 2 == low && r / 2 == high;
      XorBitsTwice(a / 2, b / 2, width - 1);
    }
  }

  /** Bit `k`, the lowest being bit 0. */
  function Bit(n: nat, k: nat): nat {
    if k == 0 then n % 2 else Bit(n / 2, k - 1)
  }

  /** Bit `k` of the result is set exactly when the two bits differ. */
  lemma {:induction false} XorBitsDiffer(a: nat, b: nat, width: nat, k: nat)
    requires k < width
    ensures Bit(XorBits(a, b, width), k) == if Bit(a, k) == Bit(b, k) then 0 else 1
    decreases width
  {
    var low, high := if a % 2 == b % 2 then 0 else 1, XorBits(a / 2, b / 2, width - 1);
    var r := XorBits(a, b, width);
    assert r % 2 == low && r / 2 == high;
    if k > 0 { XorBitsDiffer(a / 2, b / 2, width - 1, k - 1); }
  }

  /** Numbers of `width` bits are equal if all their bits are. */
  lemma {:induction false} SameBits(a: nat, b: nat, width: nat)
    requires a < Power2(width) && b < Power2(width)
    requires forall k: nat | k < width :: Bit(a, k) == Bit(b, k)
    ensures a == b
  {
    if width > 0 {
      assert Bit(a, 0) == Bit(b, 0);
      forall k: nat | k < width - 1
        ensures Bit(a / 2, k) == Bit(b / 2, k)
      {
        assert Bit(a, k + 1) == Bit(b, k + 1);
      }
      SameBits(a / 2, b / 2, width - 1);
    }
  }

  lemma Power2Of8()
    ensures Power2(8) == 256
  {
    assert Power2(4) == 16;
  }

  function XorByte(a: Byte, b: Byte): Byte {
    XorBitsBound(a as nat, b as nat, 8);
    Power2Of8();
    XorBits(a as nat, b as nat, 8) as Byte
  }

  lemma XorByteTwice(a: Byte, b: Byte)
    ensures XorByte(XorByte(a, b), b) == a
  {
    Power2Of8();
    XorBitsTwice(a as nat, b as nat, 8);
  }

  function ByteBit(a: Byte, k: nat): nat {
    Bit(a as nat, k)
  }

  /** Exclusive or, bit by bit. */
  lemma XorByteBits(a: Byte, b: Byte, k: nat)
    requires k < 8
    ensures ByteBit(XorByte(a, b), k) == if ByteBit(a, k) == ByteBit(b, k) then 0 else 1
  {
    XorBitsDiffer(a as nat, b as nat, 8, k);
  }

  lemma SameByte(a: Byte, b: Byte)
    requires forall k: nat | k < 8 :: ByteBit(a, k) == ByteBit(b, k)
    ensures a == b
  {
    var m: nat, n: nat := a as nat, b as nat;
    forall k: nat | k < 8
      ensures Bit(m, k) == Bit(n, k)
    {
      assert ByteBit(a, k) == ByteBit(b, k);
    }
    Power2Of8();
    SameBits(m, n, 8);
  }

  lemma {:induction false} BitIsBinary(n: nat, k: nat)
    ensures Bit(n, k) == 0 || Bit(n, k) == 1
    ensures Bit(0, k) == 0
  {
    if k > 0 { BitIsBinary(n / 2, k - 1); }
  }

  /** Zero changes nothing, a byte cancels itself, and the order does not matter, */
  lemma XorByteLaws(a: Byte, b: Byte)
    ensures XorByte(0, a) == a && XorByte(a, a) == 0 && XorByte(a, b) == XorByte(b, a)
  {
    hide Bit, XorByte;
    forall k: nat | k < 8
      ensures ByteBit(XorByte(0, a), k) == ByteBit(a, k)
      ensures ByteBit(XorByte(a, a), k) == ByteBit(0, k)
      ensures ByteBit(XorByte(a, b), k) == ByteBit(XorByte(b, a), k)
    {
      XorByteBits(0, a, k);
      XorByteBits(a, a, k);
      XorByteBits(a, b, k);
      XorByteBits(b, a, k);
      BitIsBinary(a as nat, k);
    }
    SameByte(XorByte(0, a), a);
    SameByte(XorByte(a, a), 0);
    SameByte(XorByte(a, b), XorByte(b, a));
  }

  /** nor does the grouping. */
  lemma XorByteGroups(a: Byte, b: Byte, c: Byte)
    ensures XorByte(XorByte(a, b), c) == XorByte(a, XorByte(b, c))
  {
    hide Bit, XorByte;
    var left, right := XorByte(XorByte(a, b), c), XorByte(a, XorByte(b, c));
    forall k: nat | k < 8
      ensures ByteBit(left, k) == ByteBit(right, k)
    {
      XorByteBits(a, b, k);
      XorByteBits(XorByte(a, b), c, k);
      XorByteBits(b, c, k);
      XorByteBits(a, XorByte(b, c), k);
      BitIsBinary(a as nat, k);
      BitIsBinary(b as nat, k);
      BitIsBinary(c as nat, k);
    }
    SameByte(left, right);
  }

  /** Different bytes change a byte differently. */
  lemma XorByteTells(a: Byte, b: Byte, c: Byte)
    ensures XorByte(a, b) == XorByte(a, c) <==> b == c
  {
    XorByteLaws(a, b);
    XorByteLaws(a, c);
    XorByteTwice(b, a);
    XorByteTwice(c, a);
  }

  /** XOR with the pad, repeated as often as the data needs. */
  function Xor(data: Bytes, pad: Bytes): (r: Bytes)
    requires |pad| > 0
    ensures |r| == |data|
  {
    seq(|data|, i requires 0 <= i < |data| => XorByte(data[i], pad[i % |pad|]))
  }

  /** Applying the same pad twice gives the data back. */
  lemma XorTwice(data: Bytes, pad: Bytes)
    requires |pad| > 0
    ensures Xor(Xor(data, pad), pad) == data
  {
    forall i | 0 <= i < |data|
      ensures Xor(Xor(data, pad), pad)[i] == data[i]
    {
      XorByteTwice(data[i], pad[i % |pad|]);
    }
  }

  /** What the pad does: each byte is combined with the pad byte at its place modulo the pad's length, so that zeros
      become the pad, repeated. */
  lemma XorCycles(data: Bytes, pad: Bytes, i: nat)
    requires |pad| > 0 && i < |data|
    ensures forall k: nat | k < 8 ::
              ByteBit(Xor(data, pad)[i], k) == if ByteBit(data[i], k) == ByteBit(pad[i % |pad|], k) then 0 else 1
    ensures data[i] == 0 ==> Xor(data, pad)[i] == pad[i % |pad|]
  {
    forall k: nat | k < 8
      ensures ByteBit(Xor(data, pad)[i], k) == if ByteBit(data[i], k) == ByteBit(pad[i % |pad|], k) then 0 else 1
    {
      XorByteBits(data[i], pad[i % |pad|], k);
    }
    XorByteLaws(pad[i % |pad|], 0);
  }

  /** The two chunks whose source hashes go into the key of chunk `index`. */
  function Neighbours(index: nat, total: nat): (r: Result<(nat, nat)>)
    ensures r.Success? <==> index < total && total >= 3
    ensures r.Success? ==> r.value.0 == (index + total - 1) % total && r.value.1 == (index + total - 2) % total
  {
    if total < 3 then Failure(BadIndex)
    else if index >= total then Failure(BadIndex)
    else if index == 0 then
      assert (total - 1) % total == total - 1 && (total - 2) % total == total - 2 by {
        ModSmall(total - 1, total);
        ModSmall(total - 2, total);
      }
      Success((total - 1, total - 2))
    else if index == 1 then
      assert (1 + total - 1) % total == 0 && (1 + total - 2) % total == total - 1 by {
        ModShift(0, total);
        ModSmall(total - 1, total);
      }
      Success((0, total - 1))
    else
      assert (index + total - 1) % total == index - 1 by { ModShift(index - 1, total); }
      assert (index + total - 2) % total == index - 2 by { ModShift(index - 2, total); }
      Success((index - 1, index - 2))
  }

  lemma ModSmall(a: nat, n: nat)
    requires a < n
    ensures a % n == a
  {
  }

  lemma ModShift(a: nat, n: nat)
    requires a < n
    ensures (a + n) % n == a
  {
  }

  function KdfContext(src: Name, n1: Name, n2: Name, index: nat, level: nat): Bytes {
    src + n1 + n2 + U64(index) + U64(level)
  }

  /** The input to the key derivation, byte by byte: three hashes, then index and level, 112 bytes in all. */
  lemma KdfContextLayout(src: Name, n1: Name, n2: Name, index: nat, level: nat)
    requires index < USIZE_LIMIT && level < USIZE_LIMIT
    ensures var context := KdfContext(src, n1, n2, index, level);
            && |context| == 112 && context[..32] == src && context[32..64] == n1 && context[64..96] == n2
            && FromLittleEndian(context[96..104]) == index && FromLittleEndian(context[104..]) == level
  {
    var context := KdfContext(src, n1, n2, index, level);
    assert context[96..104] == U64(index) && context[104..] == U64(level);
    U64RoundTrip(index);
    U64RoundTrip(level);
  }

  /** Different hashes, index or level give a different input to the key derivation. */
  lemma KdfContextInjective(a: Name, a1: Name, a2: Name, i: nat, u: nat, b: Name, b1: Name, b2: Name, j: nat, v: nat)
    requires i < USIZE_LIMIT && j < USIZE_LIMIT && u < USIZE_LIMIT && v < USIZE_LIMIT
    requires KdfContext(a, a1, a2, i, u) == KdfContext(b, b1, b2, j, v)
    ensures a == b && a1 == b1 && a2 == b2 && i == j && u == v
  {
    SplitEqual(a + a1 + a2 + U64(i), U64(u), b + b1 + b2 + U64(j), U64(v));
    SplitEqual(a + a1 + a2, U64(i), b + b1 + b2, U64(j));
    SplitEqual(a + a1, a2, b + b1, b2);
    SplitEqual(a, a1, b, b1);
    U64RoundTrip(i);
    U64RoundTrip(j);
    U64RoundTrip(u);
    U64RoundTrip(v);
  }

  lemma SplitEqual(a: Bytes, b: Bytes, c: Bytes, d: Bytes)
    requires |a| == |c| && a + b == c + d
    ensures a == c && b == d
  {
    assert a == (a + b)[..|a|] && c == (c + d)[..|a|];
    assert b == (a + b)[|a|..] && d == (c + d)[|a|..];
  }

  /** Splits the derived block: pad first, then key, then nonce. */
  function GetPki(cr: Suite, src: Name, n1: Name, n2: Name, index: nat, level: nat): (r: Pki)
    ensures |r.pad| == 52 && |r.key| == 32 && |r.nonce| == 12
    ensures r.pad + r.key + r.nonce == cr.kdf(KdfContext(src, n1, n2, index, level))
  {
    var output: Bytes := cr.kdf(KdfContext(src, n1, n2, index, level));
    Pki(output[..PAD_SIZE], output[PAD_SIZE..PAD_SIZE + KEY_SIZE], output[PAD_SIZE + KEY_SIZE..])
  }

  function GetPadKeyAndNonce(cr: Suite, index: nat, hashes: seq<Name>, level: nat): (r: Result<Pki>)
    ensures r.Success? <==> index < |hashes| && |hashes| >= 3
    ensures r.Success? ==> |r.value.pad| == PAD_SIZE
  {
    var (n1, n2) :- Neighbours(index, |hashes|);
    assert 0 <= n1 < |hashes| && 0 <= n2 < |hashes|;
    Success(GetPki(cr, hashes[index], hashes[n1], hashes[n2], index, level))
  }

  /** Chunk `index` gets its key from its own source hash and those of the two chunks before it, counted in a circle;
      it has none without three hashes or if there is no such chunk. */
  lemma KeyMaterial(cr: Suite, index: nat, hashes: seq<Name>, level: nat)
    ensures GetPadKeyAndNonce(cr, index, hashes, level) ==
            if |hashes| >= 3 && index < |hashes| then
              var n := |hashes|;
              Success(GetPki(cr, hashes[index], hashes[(index + n - 1) % n], hashes[(index + n - 2) % n], index, level))
            else Failure(BadIndex)
  {
  }

  /** From chunk 2 on, only three hashes matter: the chunk's own and the two before it. Any vectors that
      agree there, a prefix or one filled with placeholders, give the same key material. */
  lemma KeyScheduleStable(cr: Suite, index: nat, a: seq<Name>, b: seq<Name>, level: nat)
    requires 2 <= index < |a| && index < |b|
    requires a[index - 2..index + 1] == b[index - 2..index + 1]
    ensures GetPadKeyAndNonce(cr, index, a, level) == GetPadKeyAndNonce(cr, index, b, level)
  {
    var u, v := a[index - 2..index + 1], b[index - 2..index + 1];
    assert a[index] == u[2] && a[index - 1] == u[1] && a[index - 2] == u[0];
    assert b[index] == v[2] && b[index - 1] == v[1] && b[index - 2] == v[0];
  }

  /** Compress, seal, XOR with the pad. */
  function EncryptChunk(cr: Suite, content: Bytes, pki: Pki): Result<Bytes>
    requires |pki.pad| > 0
  {
    var compressed := cr.compress(content);
    if compressed.None? then Failure(Sealing)
    else
      var encrypted := cr.seal(pki.key, pki.nonce, compressed.value);
      if encrypted.None? then Failure(Sealing)
      else Success(Xor(encrypted.value, pki.pad))
  }

  /** XOR with the pad, open, decompress. */
  function DecryptChunk(cr: Suite, index: nat, content: Bytes, hashes: seq<Name>, level: nat): Result<Bytes> {
    var pki :- GetPadKeyAndNonce(cr, index, hashes, level);
    var decrypted := cr.open(pki.key, pki.nonce, Xor(content, pki.pad));
    if decrypted.None? then Failure(Opening)
    else
      var decompressed := cr.decompress(decrypted.value);
      if decompressed.None? then Failure(Decompressing) else Success(decompressed.value)
  }

  /** A chunk is sealed exactly if compression and the AEAD succeed; without the pad, what is left is the AEAD's output
      for the compressed content. */
  lemma ChunkSealsExactly(cr: Suite, content: Bytes, pki: Pki)
    requires |pki.pad| > 0
    ensures var r := EncryptChunk(cr, content, pki);
            && (r.Success? <==> exists x, y :: cr.compress(content) == Some(x) && cr.seal(pki.key, pki.nonce, x) == Some(y))
            && (r.Failure? ==> r.error == Sealing)
            && (r.Success? ==> Some(Xor(r.value, pki.pad)) == cr.seal(pki.key, pki.nonce, cr.compress(content).value))
  {
    if cr.compress(content).Some? && cr.seal(pki.key, pki.nonce, cr.compress(content).value).Some? {
      XorTwice(cr.seal(pki.key, pki.nonce, cr.compress(content).value).value, pki.pad);
    }
  }

  /** Two pads that differ in one byte: the sealed chunk differs at exactly the places of that byte, that is, every
      52nd. */
  lemma PadByteShows(cr: Suite, content: Bytes, a: Pki, b: Pki, j: nat, i: nat)
    requires |a.pad| == |b.pad| == 52 && a.key == b.key && a.nonce == b.nonce
    requires j < 52 && a.pad[j] != b.pad[j] && forall k | 0 <= k < 52 && k != j :: a.pad[k] == b.pad[k]
    requires EncryptChunk(cr, content, a).Success?
    ensures var u, v := EncryptChunk(cr, content, a), EncryptChunk(cr, content, b);
            && v.Success? && |u.value| == |v.value|
            && (i < |u.value| ==> (u.value[i] != v.value[i] <==> i % 52 == j))
  {
    var sealed := cr.seal(a.key, a.nonce, cr.compress(content).value).value;
    if i < |sealed| { XorByteTells(sealed[i], a.pad[i % 52], b.pad[i % 52]); }
  }

  /** A chunk opens exactly if there is a key for it, the AEAD accepts what is left without the pad, and that can be
      decompressed. */
  lemma ChunkOpensExactly(cr: Suite, index: nat, content: Bytes, hashes: seq<Name>, level: nat, plain: Bytes)
    ensures DecryptChunk(cr, index, content, hashes, level) == Success(plain) <==>
            && |hashes| >= 3 && index < |hashes|
            && var pki := GetPadKeyAndNonce(cr, index, hashes, level).value;
               exists sealed, x :: Xor(sealed, pki.pad) == content && cr.open(pki.key, pki.nonce, sealed) == Some(x)
                                   && cr.decompress(x) == Some(plain)
    ensures DecryptChunk(cr, index, content, hashes, level).Failure? && |hashes| >= 3 && index < |hashes| ==>
              DecryptChunk(cr, index, content, hashes, level).error ==
              var pki := GetPadKeyAndNonce(cr, index, hashes, level).value;
              if cr.open(pki.key, pki.nonce, Xor(content, pki.pad)).None? then Opening else Decompressing
  {
    if |hashes| >= 3 && index < |hashes| {
      var pki := GetPadKeyAndNonce(cr, index, hashes, level).value;
      XorTwice(content, pki.pad);
      if sealed, x :| Xor(sealed, pki.pad) == content && cr.open(pki.key, pki.nonce, sealed) == Some(x)
                      && cr.decompress(x) == Some(plain) {
        XorTwice(sealed, pki.pad);
      }
    }
  }

  /** A sealed chunk opens again, with the key material of the same index, hashes and level. */
  lemma OpenInvertsSeal(cr: Suite, index: nat, content: Bytes, hashes: seq<Name>, level: nat)
    requires Lawful(cr)
    requires GetPadKeyAndNonce(cr, index, hashes, level).Success?
    requires EncryptChunk(cr, content, GetPadKeyAndNonce(cr, index, hashes, level).value).Success?
    ensures var pki := GetPadKeyAndNonce(cr, index, hashes, level).value;
            DecryptChunk(cr, index, EncryptChunk(cr, content, pki).value, hashes, level) == Success(content)
  {
    var pki := GetPadKeyAndNonce(cr, index, hashes, level).value;
    var encrypted := cr.seal(pki.key, pki.nonce, cr.compress(content).value).value;
    XorTwice(encrypted, pki.pad);
  }
}
