/** Byte strings, the 64-bit big-endian integer encoding, error values, and the two hash
    primitives the scheme is built on. SHA-256 and HMAC-SHA256 are not modelled bit by bit:
    they are carried as a `Hashes` value, so every statement below holds for ANY pair of
    functions returning 32 bytes. */
module Primitives {

  /** A byte: Python's `bytes` elements are the integers 0 to 255. */
  newtype Byte = b: int | 0 <= b < 256
  type Bytes = seq<Byte>

  /** The 32-byte blocks: digests, `bytes(32)` and `os.urandom(32)`. */
  type Bytes32 = s: Bytes | |s| == 32 witness [0, 0, 0, 0, 0, 0, 0, 0, 0, 0, 0, 0, 0, 0, 0, 0, 0, 0, 0, 0, 0, 0, 0, 0, 0, 0, 0, 0, 0, 0, 0, 0]

  /** `bytes(32)`: the zero block standing for the missing X_{-1} and for an absent HKDF salt. */
  const Zero32: Bytes32 := [0, 0, 0, 0, 0, 0, 0, 0, 0, 0, 0, 0, 0, 0, 0, 0, 0, 0, 0, 0, 0, 0, 0, 0, 0, 0, 0, 0, 0, 0, 0, 0]

  /** The hash primitives, supplied by the caller: `hashlib.sha256(data).digest()` and
      `hmac.new(key, msg, hashlib.sha256).digest()`. */
  datatype Hashes = Hashes(sha256: Bytes -> Bytes32, hmacSha256: (Bytes, Bytes) -> Bytes32)

  /** Every way an operation of the core raises `ValueError`. */
  datatype Error =
    | UnequalLengths      // xor_bytes on strings of different length
    | OutputTooLong       // hkdf_expand needing a 256th block: bytes([256]) is invalid
    | InvalidWindow       // derive_public_key_piece on a bad window
    | ServerPassedEnd     // encrypt_for_alice after the server passed t_end
    | TooFarInFuture      // t_end beyond the horizon of MaxFutureTicks
    | InvalidChecksum     // verify with a checksum that is not the window hash
    | WindowExpired       // verify for a t_end the server already reached

  datatype Result<T> = Ok(value: T) | Err(error: Error)

  datatype Option<T> = None | Some(value: T)

  function Pow256(n: nat): (r: nat)
    ensures r >= 1
  {
    if n == 0 then 1 else 256 * Pow256(n - 1)
  }

  /** The last `width` base-256 digits of `k`, most significant first. */
  function BigEndian(k: nat, width: nat): (r: Bytes)
    ensures |r| == width
  {
    if width == 0 then [] else BigEndian(k / 256, width - 1) + [(k % 256) as Byte]
  }

  /** The value of a big-endian byte string. */
  function FromBigEndian(s: Bytes): (n: nat)
    ensures n < Pow256(|s|)
  {
    if s == [] then 0 else FromBigEndian(s[..|s| - 1]) * 256 + s[|s| - 1] as nat
  }

  /** `struct.pack(">Q", k)`: eight bytes, most significant first. */
  function BE64(k: nat): (r: Bytes)
    ensures |r| == 8
  {
    BigEndian(k, 8)
  }

  lemma {:induction false} BigEndianRoundTrip(k: nat, width: nat)
    requires k < Pow256(width)
    ensures FromBigEndian(BigEndian(k, width)) == k
  {
    if width > 0 {
      var s, q, d := BigEndian(k, width), k / 256, k % 256;
      assert s[..|s| - 1] == BigEndian(q, width - 1) && s[|s| - 1] as int == d;
      QuotientBound(k, Pow256(width - 1));
      BigEndianRoundTrip(q, width - 1);
    }
  }

  lemma QuotientBound(k: nat, P: nat)
    requires k < 256 * P
    ensures k / 256 < P
  {
  }

  /** Every step index below 2^64 is encoded faithfully, so distinct indices give distinct
      hash inputs. */
  lemma BE64RoundTrip(k: nat)
    requires k < Pow256(8)
    ensures FromBigEndian(BE64(k)) == k
  {
    BigEndianRoundTrip(k, 8);
  }

  lemma BE64Injective(j: nat, k: nat)
    requires j < Pow256(8) && k < Pow256(8)
    requires BE64(j) == BE64(k)
    ensures j == k
  {
    BE64RoundTrip(j);
    BE64RoundTrip(k);
  }

  function Pow2(n: nat): (r: nat)
    ensures r >= 1
  {
    if n == 0 then 1 else 2 * Pow2(n - 1)
  }

  /** Python's `^` on the low `width` bits of two naturals, one bit at a time from the least
      significant end. */
  function XorBits(a: nat, b: nat, width: nat): (r: nat)
    ensures r < Pow2(width)
  {
    if width == 0 then 0 else 2 * XorBits(a / 2, b / 2, width - 1) + (if a % 2 == b % 2 then 0 else 1)
  }

  lemma {:induction false} XorBitsInvolutive(a: nat, m: nat, width: nat)
    requires a < Pow2(width)
    ensures XorBits(XorBits(a, m, width), m, width) == a
  {
    if width > 0 {
      var x, rest := XorBits(a, m, width), XorBits(a / 2, m / 2, width - 1);
      assert x / 2 == rest && x % 2 == (if a % 2 == m % 2 then 0 else 1);
      XorBitsInvolutive(a / 2, m / 2, width - 1);
    }
  }

  lemma {:induction false} XorBitsCommutes(a: nat, b: nat, width: nat)
    ensures XorBits(a, b, width) == XorBits(b, a, width)
  {
    if width > 0 {
      XorBitsCommutes(a / 2, b / 2, width - 1);
    }
  }

  /** `a ^ b` on two bytes. */
  function Xor(a: Byte, b: Byte): Byte
  {
    assert Pow2(8) == 256;
    XorBits(a as nat, b as nat, 8) as Byte
  }

  lemma XorByteInvolutive(a: Byte, m: Byte)
    ensures Xor(Xor(a, m), m) == a
  {
    assert Pow2(8) == 256;
    XorBitsInvolutive(a as nat, m as nat, 8);
  }

  lemma XorByteCommutes(a: Byte, b: Byte)
    ensures Xor(a, b) == Xor(b, a)
  {
    XorBitsCommutes(a as nat, b as nat, 8);
  }

  /** `b"".join(parts)`. */
  function Flatten(parts: seq<Bytes>): (r: Bytes)
  {
    if parts == [] then [] else parts[0] + Flatten(parts[1..])
  }

  lemma {:induction false} FlattenAppend(a: seq<Bytes>, b: seq<Bytes>)
    ensures Flatten(a + b) == Flatten(a) + Flatten(b)
  {
    if a == [] {
      assert a + b == b;
    } else {
      assert (a + b)[1..] == a[1..] + b;
      FlattenAppend(a[1..], b);
    }
  }

  /** When every part is 32 bytes, the join is 32 bytes per part. */
  lemma {:induction false} FlattenLength(parts: seq<Bytes>)
    requires forall i :: 0 <= i < |parts| ==> |parts[i]| == 32
    ensures |Flatten(parts)| == 32 * |parts|
  {
    if parts != [] {
      FlattenLength(parts[1..]);
    }
  }
}
