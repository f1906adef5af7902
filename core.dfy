/** The chain and key-derivation primitives of src/core.py: the public non-Markovian hash
    chain, the window hash that is the public key piece, length-checked XOR, and HKDF
    (section 2.2 of RFC 5869 for extract, section 2.3 for expand). */
module Core {
  import opened Primitives

  // ---------------------------------------------------------------------------------------
  // The public chain  X_{t+1} = H(X_t || X_{t-1} || salt || BE64(t)),  X_{-1} = bytes(32)
  // ---------------------------------------------------------------------------------------

  /** The element that plays X_{k-1} when X_{k+1} is computed. */
  function Prev(h: seq<Bytes>, k: nat): Bytes
    requires k < |h|
  {
    if k == 0 then Zero32 else h[k - 1]
  }

  /** One step of the chain: X_{k+1} from X_k, X_{k-1} and the step index k. */
  function ChainStep(p: Hashes, current: Bytes, previous: Bytes, salt: Bytes, k: nat): Bytes32
  {
    p.sha256(current + previous + salt + BE64(k))
  }

  /** [X_0, ..., X_steps]. */
  function Chain(p: Hashes, x0: Bytes, salt: Bytes, steps: nat): (h: seq<Bytes>)
    ensures |h| == steps + 1 && h[0] == x0
  {
    if steps == 0 then [x0]
    else
      var h := Chain(p, x0, salt, steps - 1);
      h + [ChainStep(p, h[steps - 1], Prev(h, steps - 1), salt, steps - 1)]
  }

  /** The recurrence read element by element: the independent description of a chain. */
  ghost predicate IsChain(p: Hashes, h: seq<Bytes>, x0: Bytes, salt: Bytes)
  {
    |h| >= 1 && h[0] == x0 &&
    forall i :: 0 <= i < |h| - 1 ==> h[i + 1] == ChainStep(p, h[i], Prev(h, i), salt, i)
  }

  lemma {:induction false} ChainSatisfiesRecurrence(p: Hashes, x0: Bytes, salt: Bytes, steps: nat)
    ensures IsChain(p, Chain(p, x0, salt, steps), x0, salt)
  {
    if steps > 0 {
      ChainSatisfiesRecurrence(p, x0, salt, steps - 1);
      var h, h' := Chain(p, x0, salt, steps - 1), Chain(p, x0, salt, steps);
      assert h'[..steps] == h;
      forall i | 0 <= i < |h'| - 1
        ensures h'[i + 1] == ChainStep(p, h'[i], Prev(h', i), salt, i)
      {
        if i < steps - 1 {
          assert h'[i + 1] == h[i + 1] && h'[i] == h[i] && Prev(h', i) == Prev(h, i);
        }
      }
    }
  }

  /** A sequence that satisfies the recurrence is the chain of its own length: the chain is
      determined by seed and salt alone. */
  lemma {:induction false} RecurrenceDeterminesChain(p: Hashes, h: seq<Bytes>, x0: Bytes, salt: Bytes)
    requires IsChain(p, h, x0, salt)
    ensures h == Chain(p, x0, salt, |h| - 1)
  {
    if |h| > 1 {
      var n := |h| - 1;
      var g := h[..n];
      forall i | 0 <= i < |g| - 1
        ensures g[i + 1] == ChainStep(p, g[i], Prev(g, i), salt, i)
      {
        assert h[i + 1] == ChainStep(p, h[i], Prev(h, i), salt, i);
        assert Prev(g, i) == Prev(h, i);
      }
      RecurrenceDeterminesChain(p, g, x0, salt);
      assert h[n] == ChainStep(p, h[n - 1], Prev(h, n - 1), salt, n - 1);
      assert g[n - 1] == h[n - 1] && Prev(g, n - 1) == Prev(h, n - 1);
      assert h == g + [h[n]];
    }
  }

  /** The chain one step longer is the chain with its next element appended. */
  lemma ChainExtend(p: Hashes, x0: Bytes, salt: Bytes, k: nat)
    ensures Chain(p, x0, salt, k + 1)
         == Chain(p, x0, salt, k) + [ChainStep(p, Chain(p, x0, salt, k)[k], Prev(Chain(p, x0, salt, k), k), salt, k)]
  {
  }

  /** X_i does not depend on how far the chain was evolved. */
  lemma {:induction false} ChainPrefix(p: Hashes, x0: Bytes, salt: Bytes, n: nat, m: nat)
    requires n <= m
    ensures Chain(p, x0, salt, n) == Chain(p, x0, salt, m)[..n + 1]
  {
    if n < m {
      ChainPrefix(p, x0, salt, n, m - 1);
      var h := Chain(p, x0, salt, m - 1);
      assert Chain(p, x0, salt, m)[..m] == h;
      assert Chain(p, x0, salt, m)[..n + 1] == h[..n + 1];
    }
  }

  /** evolve_public_chain: the loop that appends to `history` and rolls `prev_x` forward.
      A negative `steps` gives an empty `range`, hence just [x0]. */
  method EvolvePublicChain(p: Hashes, x0: Bytes, salt: Bytes, steps: int) returns (history: seq<Bytes>)
    ensures history == Chain(p, x0, salt, if steps < 0 then 0 else steps)
  {
    history := [x0];
    var prevX: Bytes := Zero32;
    var t := 0;
    while t < steps
      invariant 0 <= t <= (if steps < 0 then 0 else steps)
      invariant history == Chain(p, x0, salt, t)
      invariant prevX == Prev(history, t)
    {
      var currentX := history[|history| - 1];
      var tBytes := BE64(t);
      var data := currentX + prevX + salt + tBytes;
      var nextX := p.sha256(data);
      history := history + [nextX];
      prevX := currentX;
      t := t + 1;
    }
  }

  // ---------------------------------------------------------------------------------------
  // The public key piece: the hash of an inclusive window of the chain
  // ---------------------------------------------------------------------------------------

  /** derive_public_key_piece: K_public = H(X_{t_start} || ... || X_{t_end}). */
  function DerivePublicKeyPiece(p: Hashes, history: seq<Bytes>, tStart: int, tEnd: int): (r: Result<Bytes32>)
    ensures r.Err? <==> tStart < 0 || tEnd >= |history| || tStart > tEnd
    ensures r.Err? ==> r.error == InvalidWindow
    ensures r.Ok? ==> r.value == p.sha256(Flatten(history[tStart..tEnd + 1]))
  {
    if tStart < 0 || tEnd >= |history| || tStart > tEnd then Err(InvalidWindow)
    else Ok(p.sha256(Flatten(history[tStart..tEnd + 1])))
  }

  /** Both ends of the window are hashed: the data is the window without its last element,
      followed by X_{t_end}. */
  lemma WindowIncludesEnd(history: seq<Bytes>, tStart: nat, tEnd: nat)
    requires tStart <= tEnd < |history|
    ensures Flatten(history[tStart..tEnd + 1]) == Flatten(history[tStart..tEnd]) + history[tEnd]
  {
    assert history[tStart..tEnd + 1] == history[tStart..tEnd] + [history[tEnd]];
    FlattenAppend(history[tStart..tEnd], [history[tEnd]]);
    assert Flatten([history[tEnd]]) == history[tEnd] + Flatten([]);
  }

  /** A window made only of digests (it starts after X_0) hashes 32 bytes per tick. */
  lemma WindowDataLength(history: seq<Bytes>, tStart: nat, tEnd: nat)
    requires 1 <= tStart <= tEnd < |history|
    requires forall i :: 1 <= i < |history| ==> |history[i]| == 32
    ensures |Flatten(history[tStart..tEnd + 1])| == 32 * (tEnd - tStart + 1)
  {
    FlattenLength(history[tStart..tEnd + 1]);
  }

  /** The key piece depends only on the entries up to t_end: two histories that agree there
      give the same answer, error or digest. */
  lemma {:induction false} KeyPieceOnlyReadsWindow(p: Hashes, h1: seq<Bytes>, h2: seq<Bytes>, tStart: int, tEnd: int)
    requires tEnd < |h1| && tEnd < |h2|
    requires 0 <= tEnd ==> h1[..tEnd + 1] == h2[..tEnd + 1]
    ensures DerivePublicKeyPiece(p, h1, tStart, tEnd) == DerivePublicKeyPiece(p, h2, tStart, tEnd)
  {
    if 0 <= tStart <= tEnd {
      assert h1[tStart..tEnd + 1] == h1[..tEnd + 1][tStart..];
      assert h2[tStart..tEnd + 1] == h2[..tEnd + 1][tStart..];
    }
  }

  /** The key piece a party computes over its own chain up to t_end equals the one computed
      over any longer chain from the same seed and salt. */
  lemma ChainKeyPieceAgrees(p: Hashes, x0: Bytes, salt: Bytes, n: nat, tStart: int, tEnd: nat)
    requires tEnd <= n
    ensures DerivePublicKeyPiece(p, Chain(p, x0, salt, tEnd), tStart, tEnd)
         == DerivePublicKeyPiece(p, Chain(p, x0, salt, n), tStart, tEnd)
  {
    ChainPrefix(p, x0, salt, tEnd, n);
    KeyPieceOnlyReadsWindow(p, Chain(p, x0, salt, tEnd), Chain(p, x0, salt, n), tStart, tEnd);
  }

  // ---------------------------------------------------------------------------------------
  // XOR
  // ---------------------------------------------------------------------------------------

  /** xor_bytes: element-wise XOR of two byte strings of equal length. */
  function XorBytes(a: Bytes, b: Bytes): (r: Result<Bytes>)
    ensures r.Err? <==> |a| != |b|
    ensures r.Err? ==> r.error == UnequalLengths
    ensures r.Ok? ==> |r.value| == |a| && forall i :: 0 <= i < |a| ==> r.value[i] == Xor(a[i], b[i])
  {
    if |a| != |b| then Err(UnequalLengths)
    else Ok(seq(|a|, i requires 0 <= i < |a| => Xor(a[i], b[i])))
  }

  /** XOR with the same mask twice gives the input back. */
  lemma XorInvolutive(a: Bytes, b: Bytes)
    requires |a| == |b|
    ensures XorBytes(XorBytes(a, b).value, b) == Ok(a)
  {
    var c := XorBytes(a, b).value;
    var d := XorBytes(c, b).value;
    forall i | 0 <= i < |a|
      ensures d[i] == a[i]
    {
      XorByteInvolutive(a[i], b[i]);
    }
    assert d == a;
  }

  lemma XorCommutes(a: Bytes, b: Bytes)
    ensures XorBytes(a, b) == XorBytes(b, a)
  {
    if |a| == |b| {
      var c, d := XorBytes(a, b).value, XorBytes(b, a).value;
      forall i | 0 <= i < |a|
        ensures c[i] == d[i]
      {
        XorByteCommutes(a[i], b[i]);
      }
      assert c == d;
    }
  }

  // ---------------------------------------------------------------------------------------
  // HKDF with HMAC-SHA256
  // ---------------------------------------------------------------------------------------

  /** 255 blocks of 32 bytes: `bytes([n])` rejects a block counter of 256. */
  const MaxOkmLength: int := 255 * 32

  /** hkdf_extract: PRK = HMAC(salt, IKM), with an absent or empty salt replaced by 32 zero
      bytes (HashLen zeros, section 2.2 of RFC 5869). */
  function HkdfExtract(p: Hashes, salt: Option<Bytes>, ikm: Bytes): (prk: Bytes32)
    ensures salt.Some? && |salt.value| > 0 ==> prk == p.hmacSha256(salt.value, ikm)
    ensures salt.None? || |salt.value| == 0 ==> prk == p.hmacSha256(Zero32, ikm)
  {
    var key := if salt.None? || |salt.value| == 0 then Zero32 else salt.value;
    p.hmacSha256(key, ikm)
  }

  /** An absent salt, an empty salt and an explicit zero block are the same salt. */
  lemma AbsentSaltIsZeroSalt(p: Hashes, ikm: Bytes)
    ensures HkdfExtract(p, None, ikm) == HkdfExtract(p, Some([]), ikm) == HkdfExtract(p, Some(Zero32), ikm)
  {
  }

  /** T(n) of section 2.3 of RFC 5869: T(0) is empty, T(n) = HMAC(PRK, T(n-1) || info || [n]). */
  function Block(p: Hashes, prk: Bytes, info: Bytes, n: nat): (t: Bytes)
    requires n <= 255
    ensures n == 0 ==> t == []
    ensures n > 0 ==> |t| == 32
  {
    if n == 0 then [] else p.hmacSha256(prk, Block(p, prk, info, n - 1) + info + [n as Byte])
  }

  /** T(1) || ... || T(n). */
  function Okm(p: Hashes, prk: Bytes, info: Bytes, n: nat): (okm: Bytes)
    requires n <= 255
    ensures |okm| == 32 * n
  {
    if n == 0 then [] else Okm(p, prk, info, n - 1) + Block(p, prk, info, n)
  }

  lemma {:induction false} OkmPrefix(p: Hashes, prk: Bytes, info: Bytes, m: nat, n: nat)
    requires m <= n <= 255
    ensures Okm(p, prk, info, m) == Okm(p, prk, info, n)[..32 * m]
  {
    if m < n {
      OkmPrefix(p, prk, info, m, n - 1);
      var o := Okm(p, prk, info, n - 1);
      assert Okm(p, prk, info, n)[..32 * (n - 1)] == o;
      assert Okm(p, prk, info, n)[..32 * m] == o[..32 * m];
    }
  }

  /** How many blocks are generated for `length` output bytes: N = ceil(L / 32). */
  function BlockCount(length: int): (n: nat)
    ensures length <= 0 ==> n == 0
    ensures length > 0 ==> 32 * (n - 1) < length <= 32 * n
  {
    if length <= 0 then 0 else (length + 31) / 32
  }

  function Clamp(length: int): nat
  {
    if length < 0 then 0 else length
  }

  /** hkdf_expand as a value: the first `length` bytes of T(1) || ... || T(N); an absent
      `info` is empty; a request beyond 255 blocks fails. */
  function Expand(p: Hashes, prk: Bytes, info: Option<Bytes>, length: int): (r: Result<Bytes>)
    ensures r.Err? <==> length > MaxOkmLength
    ensures r.Err? ==> r.error == OutputTooLong
    ensures r.Ok? ==> |r.value| == Clamp(length)
  {
    if length > MaxOkmLength then Err(OutputTooLong)
    else
      var infoBytes := if info.None? then [] else info.value;
      Ok(Okm(p, prk, infoBytes, BlockCount(length))[..Clamp(length)])
  }

  /** A shorter output is a prefix of a longer one: the blocks do not depend on `length`. */
  lemma ExpandPrefix(p: Hashes, prk: Bytes, info: Option<Bytes>, short: int, long: int)
    requires short <= long <= MaxOkmLength
    ensures Expand(p, prk, info, short).value == Expand(p, prk, info, long).value[..Clamp(short)]
  {
    var infoBytes := if info.None? then [] else info.value;
    OkmPrefix(p, prk, infoBytes, BlockCount(short), BlockCount(long));
  }

  /** hkdf_expand: the while loop that appends T(n) to `okm` until it is long enough. */
  method HkdfExpand(p: Hashes, prk: Bytes, info: Option<Bytes>, length: int) returns (r: Result<Bytes>)
    ensures r == Expand(p, prk, info, length)
  {
    var infoBytes := if info.None? then [] else info.value;
    var t: Bytes := [];
    var okm: Bytes := [];
    var n := 0;
    while |okm| < length
      invariant 0 <= n <= 255 && n <= BlockCount(length)
      invariant okm == Okm(p, prk, infoBytes, n) && t == Block(p, prk, infoBytes, n)
      decreases length - |okm|
    {
      n := n + 1;
      if n > 255 {
        // bytes([256]) raises ValueError
        return Err(OutputTooLong);
      }
      t := p.hmacSha256(prk, t + infoBytes + [n as Byte]);
      okm := okm + t;
    }
    return Ok(okm[..Clamp(length)]);
  }

  /** hkdf: extract, then expand. */
  function Hkdf(p: Hashes, ikm: Bytes, length: int, salt: Option<Bytes>, info: Option<Bytes>): (r: Result<Bytes>)
    ensures r.Ok? <==> length <= MaxOkmLength
    ensures r.Ok? ==> |r.value| == Clamp(length)
  {
    Expand(p, HkdfExtract(p, salt, ikm), info, length)
  }
}
