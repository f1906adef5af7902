/** The server of src/server.py: a cache of the public chain that grows on demand, a clock
    `currentT`, and a private state S that only moves forward along
    S_{t+1} = H(S_t || X_t || server_secret || BE64(t)).
    The server releases H(S_{t_end}) once, when a client proves it recomputed the window
    hash, and then jumps S to t_end so that no earlier key can be released again. */
module TimeServer {
  import opened Primitives
  import opened Core

  /** Server.MAX_FUTURE_TICKS: how far ahead of the clock a window may end. */
  const MaxFutureTicks: int := 100

  /** `b"encryption"`, the HKDF salt of the final key. */
  const EncryptionSalt: Bytes := [0x65, 0x6e, 0x63, 0x72, 0x79, 0x70, 0x74, 0x69, 0x6f, 0x6e]

  /** `b"aes_gcm_key"`, the HKDF info of the final key. */
  const AesGcmKeyInfo: Bytes := [0x61, 0x65, 0x73, 0x5f, 0x67, 0x63, 0x6d, 0x5f, 0x6b, 0x65, 0x79]

  /** The AES-GCM key derived from the two key pieces, as server.py derives it. */
  function FinalKey(p: Hashes, kPublic: Bytes, kPrivate: Bytes): (k: Bytes)
    ensures |k| == 32
  {
    Hkdf(p, kPublic + kPrivate, 32, Some(EncryptionSalt), Some(AesGcmKeyInfo)).value
  }

  /** One step of the private state: S_{t+1} from S_t and X_t. */
  function PrivateStep(p: Hashes, s: Bytes, x: Bytes, secret: Bytes, t: nat): Bytes32
  {
    p.sha256(s + x + secret + BE64(t))
  }

  /** The private state reached from `s` at tick `from` once the clock reaches `to`, reading
      X_t from `history`; no step is taken when `to <= from`. */
  function Advance(p: Hashes, s: Bytes, history: seq<Bytes>, secret: Bytes, from: nat, to: int): (r: Bytes)
    requires to <= |history|
    ensures to <= from ==> r == s
    ensures from < to ==> |r| == 32
    decreases if to <= from then 0 else to - from
  {
    if to <= from then s
    else PrivateStep(p, Advance(p, s, history, secret, from, to - 1), history[to - 1], secret, to - 1)
  }

  /** Advancing in two hops is advancing in one: a run of single ticks reaches the same state
      as one jump. */
  lemma {:induction false} AdvanceCompose(p: Hashes, s: Bytes, history: seq<Bytes>, secret: Bytes, a: nat, b: nat, c: int)
    requires a <= b <= c <= |history|
    ensures Advance(p, Advance(p, s, history, secret, a, b), history, secret, b, c)
         == Advance(p, s, history, secret, a, c)
  {
    if b < c {
      AdvanceCompose(p, s, history, secret, a, b, c - 1);
    }
  }

  /** The private state only reads X_from ... X_{to-1}. */
  lemma {:induction false} AdvanceOnlyReadsPrefix(p: Hashes, s: Bytes, h1: seq<Bytes>, h2: seq<Bytes>, secret: Bytes, from: nat, to: int)
    requires to <= |h1| && to <= |h2|
    requires 0 <= to ==> h1[..to] == h2[..to]
    ensures Advance(p, s, h1, secret, from, to) == Advance(p, s, h2, secret, from, to)
  {
    if from < to {
      assert h1[to - 1] == h1[..to][to - 1] == h2[..to][to - 1] == h2[to - 1];
      assert h1[..to - 1] == h1[..to][..to - 1];
      assert h2[..to - 1] == h2[..to][..to - 1];
      AdvanceOnlyReadsPrefix(p, s, h1, h2, secret, from, to - 1);
    }
  }

  /** One tick of the fold: the state at `to + 1` is one private step from the state at `to`. */
  lemma AdvanceStep(p: Hashes, s: Bytes, history: seq<Bytes>, secret: Bytes, from: nat, to: nat)
    requires from <= to < |history|
    ensures Advance(p, s, history, secret, from, to + 1)
         == PrivateStep(p, Advance(p, s, history, secret, from, to), history[to], secret, to)
  {
  }

  /** The server's invariant on plain values: `history` is the public chain and covers tick
      `t`, and `state` is S_t folded from `s0` over it. */
  ghost predicate Consistent(p: Hashes, seed: Bytes, salt: Bytes, secret: Bytes, s0: Bytes,
                             history: seq<Bytes>, t: nat, state: Bytes)
  {
    |history| > t &&
    history == Chain(p, seed, salt, |history| - 1) &&
    state == Advance(p, s0, history, secret, 0, t)
  }

  /** One tick of advance_private_state_to keeps the invariant. */
  lemma ConsistentStep(p: Hashes, seed: Bytes, salt: Bytes, secret: Bytes, s0: Bytes,
                       history: seq<Bytes>, t: nat, state: Bytes)
    requires Consistent(p, seed, salt, secret, s0, history, t, state) && t + 1 < |history|
    ensures Consistent(p, seed, salt, secret, s0, history, t + 1, PrivateStep(p, state, history[t], secret, t))
  {
    AdvanceStep(p, s0, history, secret, 0, t);
  }

  /** Growing the cache along the chain keeps the invariant. */
  lemma ConsistentExtension(p: Hashes, seed: Bytes, salt: Bytes, secret: Bytes, s0: Bytes,
                            cached: seq<Bytes>, history: seq<Bytes>, t: nat, state: Bytes)
    requires Consistent(p, seed, salt, secret, s0, cached, t, state)
    requires cached <= history && history == Chain(p, seed, salt, |history| - 1)
    ensures Consistent(p, seed, salt, secret, s0, history, t, state)
  {
    assert cached[..t] == history[..t];
    AdvanceOnlyReadsPrefix(p, s0, cached, history, secret, 0, t);
  }

  /** Python's `value or os.urandom(32)`: an absent or empty value is replaced by fresh bytes. */
  function OrRandom(given: Option<Bytes>, random: Bytes32): (v: Bytes)
    ensures |v| > 0
    ensures given.Some? && |given.value| > 0 ==> v == given.value
    ensures !(given.Some? && |given.value| > 0) ==> v == random
  {
    if given.Some? && |given.value| > 0 then given.value else random
  }

  /** The four `os.urandom(32)` draws of Server.__init__, supplied by the caller. */
  datatype Entropy = Entropy(seed: Bytes32, salt: Bytes32, secret: Bytes32, state: Bytes32)

  /** The AES-GCM ciphertext of `plaintext` under `key`, kept as a symbolic term. */
  datatype Ciphertext = AesGcm(key: Bytes, plaintext: Bytes)

  /** What encrypt_for_alice returns. */
  datatype Sealed = Sealed(ciphertext: Ciphertext, tStart: int, tEnd: int, publicSeed: Bytes, publicSalt: Bytes)

  /** What verify_checksum_and_release_private_key_piece returns. */
  datatype Release = Release(kPublic: Bytes32, kPrivate: Bytes32)

  class Server {
    const p: Hashes
    const publicSeed: Bytes
    const publicSalt: Bytes
    const serverSecret: Bytes
    /** S_0, the private state drawn at construction. */
    ghost const initialState: Bytes

    var privateState: Bytes
    var currentT: nat
    var publicHistory: seq<Bytes>

    /** The cache is the public chain and covers the clock; the private state is S_{currentT}. */
    ghost predicate Valid()
      reads this
    {
      Consistent(p, publicSeed, publicSalt, serverSecret, initialState, publicHistory, currentT, privateState)
    }

    /** X_0 ... X_t as anyone recomputes them from the published seed and salt. */
    ghost function ChainUpTo(t: nat): seq<Bytes>
    {
      Chain(p, publicSeed, publicSalt, t)
    }

    /** S_t, the private state of tick t. */
    ghost function StateAt(t: nat): Bytes
    {
      Advance(p, initialState, ChainUpTo(t), serverSecret, 0, t)
    }

    /** K_private = H(S_{t_end}): the private key piece of a window ending at t_end. */
    ghost function PrivateKeyAt(tEnd: nat): Bytes32
    {
      p.sha256(StateAt(tEnd))
    }

    /** K_public of the window [tStart, tEnd] of the public chain. */
    ghost function PublicKeyAt(tStart: nat, tEnd: nat): Bytes32
      requires tStart <= tEnd
    {
      DerivePublicKeyPiece(p, ChainUpTo(tEnd), tStart, tEnd).value
    }

    /** The cache after it has been made to cover tick t. */
    ghost function Extended(t: int): seq<Bytes>
      reads this
    {
      if t < |publicHistory| then publicHistory else ChainUpTo(t)
    }

    /** Server.__init__, with the random draws passed in. */
    constructor (p: Hashes, publicSeed: Option<Bytes>, publicSalt: Option<Bytes>, serverSecret: Option<Bytes>, random: Entropy)
      ensures Valid()
      ensures this.p == p
      ensures this.publicSeed == OrRandom(publicSeed, random.seed)
      ensures this.publicSalt == OrRandom(publicSalt, random.salt)
      ensures this.serverSecret == OrRandom(serverSecret, random.secret)
      ensures initialState == random.state && privateState == random.state
      ensures currentT == 0 && publicHistory == [this.publicSeed]
    {
      this.p := p;
      this.publicSeed := OrRandom(publicSeed, random.seed);
      this.publicSalt := OrRandom(publicSalt, random.salt);
      this.serverSecret := OrRandom(serverSecret, random.secret);
      initialState := random.state;
      privateState := random.state;
      currentT := 0;
      publicHistory := [OrRandom(publicSeed, random.seed)];
    }

    /** The entry of the cache at tick t is X_t of the chain. */
    lemma CacheAgreesWithChain(t: nat)
      requires Valid() && t < |publicHistory|
      ensures publicHistory[..t + 1] == ChainUpTo(t)
    {
      ChainPrefix(p, publicSeed, publicSalt, t, |publicHistory| - 1);
    }

    /** _ensure_public_history_up_to: append X_{len} ... X_t, continuing the chain from the
        last two cached entries; a no-op when X_t is already cached. */
    method EnsurePublicHistoryUpTo(t: int)
      requires Valid()
      modifies this`publicHistory
      ensures Valid()
      ensures publicHistory == old(Extended(t))
      ensures old(publicHistory) <= publicHistory
      ensures t < |publicHistory|
    {
      var currentLen := |publicHistory|;
      if t < currentLen {
        return;
      }
      var xPrev := if currentLen >= 2 then publicHistory[currentLen - 2] else Zero32;
      var xCurr := publicHistory[currentLen - 1];
      ghost var cached := publicHistory;
      for k := currentLen - 1 to t
        invariant publicHistory == ChainUpTo(k)
        invariant xCurr == publicHistory[k] && xPrev == Prev(publicHistory, k)
        invariant cached <= publicHistory
      {
        var tBytes := BE64(k);
        var data := xCurr + xPrev + publicSalt + tBytes;
        var xNext := p.sha256(data);
        ChainExtend(p, publicSeed, publicSalt, k);
        assert xNext == ChainStep(p, xCurr, xPrev, publicSalt, k);
        publicHistory := publicHistory + [xNext];
        xPrev := xCurr;
        xCurr := xNext;
      }
      ConsistentExtension(p, publicSeed, publicSalt, serverSecret, initialState, cached, publicHistory, currentT, privateState);
    }

    /** advance_private_state_to: extend the cache to the target, then step S forward tick by
        tick until the clock reaches it; never moves backwards. */
    method AdvancePrivateStateTo(target: int)
      requires Valid()
      modifies this
      ensures Valid()
      ensures publicHistory == old(Extended(target))
      ensures currentT == if target > old(currentT) then target else old(currentT)
      ensures privateState == if target > old(currentT)
                              then Advance(p, old(privateState), publicHistory, serverSecret, old(currentT), target)
                              else old(privateState)
    {
      EnsurePublicHistoryUpTo(target);
      ghost var extended := publicHistory;
      while currentT < target
        invariant Valid()
        invariant publicHistory == extended && target < |publicHistory|
        invariant old(currentT) <= currentT <= if target > old(currentT) then target else old(currentT)
        invariant privateState == Advance(p, old(privateState), publicHistory, serverSecret, old(currentT), currentT)
      {
        var t := currentT;
        var xT := publicHistory[t];
        var tBytes := BE64(t);
        var data := privateState + xT + serverSecret + tBytes;
        ConsistentStep(p, publicSeed, publicSalt, serverSecret, initialState, publicHistory, t, privateState);
        AdvanceStep(p, old(privateState), publicHistory, serverSecret, old(currentT), t);
        privateState := p.sha256(data);
        currentT := t + 1;
      }
    }

    /** Once the cache covers t, the state S_t computed over the cache is StateAt(t). */
    lemma StateOverCache(t: nat)
      requires Valid() && t < |publicHistory|
      ensures Advance(p, initialState, publicHistory, serverSecret, 0, t) == StateAt(t)
    {
      CacheAgreesWithChain(t);
      AdvanceOnlyReadsPrefix(p, initialState, publicHistory, ChainUpTo(t), serverSecret, 0, t);
    }

    /** Once the cache covers tEnd, the window hash over the cache is PublicKeyAt. */
    lemma KeyPieceOverCache(tStart: int, tEnd: int)
      requires Valid() && tEnd < |publicHistory|
      ensures 0 <= tStart <= tEnd ==> DerivePublicKeyPiece(p, publicHistory, tStart, tEnd) == Ok(PublicKeyAt(tStart, tEnd))
      ensures !(0 <= tStart <= tEnd) ==> DerivePublicKeyPiece(p, publicHistory, tStart, tEnd) == Err(InvalidWindow)
    {
      if 0 <= tStart <= tEnd {
        CacheAgreesWithChain(tEnd);
        KeyPieceOnlyReadsWindow(p, publicHistory, ChainUpTo(tEnd), tStart, tEnd);
      }
    }

    /** encrypt_for_alice: seal `plaintext` under the final key of the window, computing
        S_{t_end} on a copy of the state; the clock and the private state do not move. */
    method EncryptForAlice(plaintext: Bytes, tStart: int, tEnd: int) returns (r: Result<Sealed>)
      requires Valid()
      modifies this`publicHistory
      ensures Valid()
      ensures r == if currentT > tEnd then Err(ServerPassedEnd)
                   else if tEnd > currentT + MaxFutureTicks then Err(TooFarInFuture)
                   else if tStart < 0 || tStart > tEnd then Err(InvalidWindow)
                   else Ok(Sealed(AesGcm(FinalKey(p, PublicKeyAt(tStart, tEnd), PrivateKeyAt(tEnd)), plaintext),
                                  tStart, tEnd, publicSeed, publicSalt))
      ensures publicHistory == if currentT > tEnd || tEnd > currentT + MaxFutureTicks
                               then old(publicHistory) else old(Extended(tEnd))
    {
      if currentT > tEnd {
        return Err(ServerPassedEnd);
      }
      if tEnd > currentT + MaxFutureTicks {
        return Err(TooFarInFuture);
      }
      EnsurePublicHistoryUpTo(tEnd);
      var kPublicOrError := DerivePublicKeyPiece(p, publicHistory, tStart, tEnd);
      KeyPieceOverCache(tStart, tEnd);
      if kPublicOrError.Err? {
        return Err(kPublicOrError.error);
      }
      var kPublic := kPublicOrError.value;

      var tempState := privateState;
      var tempT := currentT;
      while tempT < tEnd
        invariant currentT <= tempT <= tEnd
        invariant tempState == Advance(p, privateState, publicHistory, serverSecret, currentT, tempT)
      {
        var xT := publicHistory[tempT];
        var tBytes := BE64(tempT);
        var data := tempState + xT + serverSecret + tBytes;
        tempState := p.sha256(data);
        tempT := tempT + 1;
      }
      var kPrivate := p.sha256(tempState);
      AdvanceCompose(p, initialState, publicHistory, serverSecret, 0, currentT, tEnd);
      StateOverCache(tEnd);
      assert kPrivate == PrivateKeyAt(tEnd) && kPublic == PublicKeyAt(tStart, tEnd);

      var kFinal := FinalKey(p, kPublic, kPrivate);
      return Ok(Sealed(AesGcm(kFinal, plaintext), tStart, tEnd, publicSeed, publicSalt));
    }

    /** encrypt_for_alice with the expiry gate of verify: a window that ends at the current tick
        is refused, because verify can never release it. */
    method EncryptForAliceStrict(plaintext: Bytes, tStart: int, tEnd: int) returns (r: Result<Sealed>)
      requires Valid()
      modifies this`publicHistory
      ensures Valid()
      ensures r == if currentT >= tEnd then Err(ServerPassedEnd)
                   else if tEnd > currentT + MaxFutureTicks then Err(TooFarInFuture)
                   else if tStart < 0 || tStart > tEnd then Err(InvalidWindow)
                   else Ok(Sealed(AesGcm(FinalKey(p, PublicKeyAt(tStart, tEnd), PrivateKeyAt(tEnd)), plaintext),
                                  tStart, tEnd, publicSeed, publicSalt))
      ensures r.Ok? ==> currentT < tEnd
      ensures publicHistory == if currentT >= tEnd || tEnd > currentT + MaxFutureTicks
                               then old(publicHistory) else old(Extended(tEnd))
    {
      if currentT >= tEnd {
        return Err(ServerPassedEnd);
      }
      r := EncryptForAlice(plaintext, tStart, tEnd);
    }

    /** verify_checksum_and_release_private_key_piece: horizon, then window, then checksum, then expiry;
        on success the state jumps to t_end and H(S_{t_end}) is released. */
    method VerifyChecksumAndReleasePrivateKeyPiece(checksum: Bytes, tStart: int, tEnd: int) returns (r: Result<Release>)
      requires Valid()
      modifies this
      ensures Valid()
      ensures r == if tEnd > old(currentT) + MaxFutureTicks then Err(TooFarInFuture)
                   else if tStart < 0 || tStart > tEnd then Err(InvalidWindow)
                   else if checksum != PublicKeyAt(tStart, tEnd) then Err(InvalidChecksum)
                   else if tEnd <= old(currentT) then Err(WindowExpired)
                   else Ok(Release(PublicKeyAt(tStart, tEnd), PrivateKeyAt(tEnd)))
      ensures publicHistory == if tEnd > old(currentT) + MaxFutureTicks
                               then old(publicHistory) else old(Extended(tEnd))
      ensures r.Ok? ==> currentT == tEnd && privateState == StateAt(tEnd)
      ensures r.Err? ==> currentT == old(currentT) && privateState == old(privateState)
      // one-shot: a window that ends at or before the clock is never released (again)
      ensures tEnd <= old(currentT) ==> r.Err?
    {
      if tEnd > currentT + MaxFutureTicks {
        return Err(TooFarInFuture);
      }
      EnsurePublicHistoryUpTo(tEnd);
      var expectedOrError := DerivePublicKeyPiece(p, publicHistory, tStart, tEnd);
      KeyPieceOverCache(tStart, tEnd);
      if expectedOrError.Err? {
        return Err(expectedOrError.error);
      }
      var expectedKPublic := expectedOrError.value;
      if checksum != expectedKPublic {
        return Err(InvalidChecksum);
      }
      if tEnd <= currentT {
        return Err(WindowExpired);
      }
      AdvancePrivateStateTo(tEnd);
      StateOverCache(tEnd);
      var kPrivate := p.sha256(privateState);
      return Ok(Release(expectedKPublic, kPrivate));
    }
  }
}
