/** Bytes, results and concatenation, shared by every other module. */
module Prelude {

  newtype Byte = x: int | 0 <= x < 256
  type Bytes = seq<Byte>

  /** A 32-byte content hash (the source's XorName). */
  type Name = s: Bytes | |s| == 32 witness seq(32, _ => 0)

  /** One more than the largest value of a 64-bit usize. */
  const USIZE_LIMIT: nat := 0x1_0000_0000_0000_0000

  datatype Option<+T> = None | Some(value: T)

  datatype Error =
    | TooSmall
    | BadIndex
    | Sealing       // compression or AEAD encryption failed
    | Opening       // AEAD decryption failed
    | Decompressing
    | MissingChunk
    | BadMap
    | TooDeep
    | AddressMismatch
    | CapacityReached
    | Corrupt       // stored content does not have the hash it is stored under
    | StoreFailed   // the store's own input or output failed
    | Unpaid        // no payment, or one that is not accepted

  datatype Result<+T> = Success(value: T) | Failure(error: Error) {
    predicate IsFailure() {
      Failure?
    }

    function PropagateFailure<U>(): Result<U>
      requires Failure?
    {
      Failure(error)
    }

    function Extract(): T
      requires Success?
    {
      value
    }
  }

  function Min(a: int, b: int): int {
    if a <= b then a else b
  }

  /** `a.saturating_sub(b)` on unsigned integers. */
  function SaturatingSub(a: nat, b: nat): nat {
    if a >= b then a - b else 0
  }

  /** `a + b` on unsigned 64-bit integers without overflow checks. */
  function WrapAdd(a: nat, b: nat): (r: nat)
    ensures r < USIZE_LIMIT
    ensures a + b < USIZE_LIMIT ==> r == a + b
    ensures a < USIZE_LIMIT && b < USIZE_LIMIT && a + b >= USIZE_LIMIT ==> r == a + b - USIZE_LIMIT
  {
    (a + b) % USIZE_LIMIT
  }

  /** `a - b`, likewise. */
  function WrapSub(a: nat, b: nat): (r: nat)
    ensures r < USIZE_LIMIT
    ensures b <= a < USIZE_LIMIT ==> r == a - b
    ensures a < b < USIZE_LIMIT ==> r == a + USIZE_LIMIT - b
  {
    (a - b) % USIZE_LIMIT
  }

  /** All parts, one after the other. */
  function Concat(parts: seq<Bytes>): Bytes {
    if parts == [] then [] else Concat(parts[..|parts| - 1]) + parts[|parts| - 1]
  }

  lemma {:induction false} ConcatAppend(a: seq<Bytes>, b: seq<Bytes>)
    ensures Concat(a + b) == Concat(a) + Concat(b)
  {
    if b == [] {
      assert a + b == a;
    } else {
      var most := b[..|b| - 1];
      assert (a + b)[..|a + b| - 1] == a + most;
      ConcatAppend(a, most);
    }
  }

  /** The parts before `k`, then part `k`. */
  lemma ConcatSnoc(parts: seq<Bytes>, k: nat)
    requires k < |parts|
    ensures Concat(parts[..k + 1]) == Concat(parts[..k]) + parts[k]
  {
    assert parts[..k + 1][..k] == parts[..k];
  }

  lemma PrefixSnoc<T>(s: seq<T>, k: nat)
    requires k < |s|
    ensures s[..k + 1] == s[..k] + [s[k]]
  {
  }

  /** No two different byte strings of the list have the same hash. */
  ghost predicate NoCollision(hash: Bytes -> Name, contents: seq<Bytes>) {
    forall x, y | x in contents && y in contents && hash(x) == hash(y) :: x == y
  }
}
