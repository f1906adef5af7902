/** The client side of src/alice.py: the client recomputes the public chain from the published
    seed and salt, hashes the window to obtain the checksum, and derives the final key from the
    two key pieces. Each function delegates to the shared primitives, so the client and the
    server compute the same values. */
module Alice {
  import opened Primitives
  import opened Core
  import TimeServer

  /** alice_compute_public_history. */
  function ComputePublicHistory(p: Hashes, publicSeed: Bytes, publicSalt: Bytes, steps: int): (h: seq<Bytes>)
    ensures |h| == Clamp(steps) + 1
    ensures IsChain(p, h, publicSeed, publicSalt)
  {
    ChainSatisfiesRecurrence(p, publicSeed, publicSalt, Clamp(steps));
    Chain(p, publicSeed, publicSalt, Clamp(steps))
  }

  /** alice_compute_checksum: the key piece of the window, with the same window errors. */
  function ComputeChecksum(p: Hashes, history: seq<Bytes>, tStart: int, tEnd: int): (r: Result<Bytes32>)
    ensures r.Err? <==> tStart < 0 || tEnd >= |history| || tStart > tEnd
    ensures r.Err? ==> r.error == InvalidWindow
  {
    DerivePublicKeyPiece(p, history, tStart, tEnd)
  }

  /** alice_derive_final_key: HKDF over K_public || K_private with the protocol's salt and
      info; `length` defaults to 32, the AES-256 key size. */
  function DeriveFinalKey(p: Hashes, kPublic: Bytes, kPrivate: Bytes, length: int := 32): (r: Result<Bytes>)
    ensures r.Ok? <==> length <= MaxOkmLength
    ensures r.Ok? ==> |r.value| == Clamp(length)
  {
    Hkdf(p, kPublic + kPrivate, length, Some(TimeServer.EncryptionSalt), Some(TimeServer.AesGcmKeyInfo))
  }

  /** With the default length the client key is the 32-byte key the server seals under. */
  lemma DefaultKeyIsServerKey(p: Hashes, kPublic: Bytes, kPrivate: Bytes)
    ensures DeriveFinalKey(p, kPublic, kPrivate) == Ok(TimeServer.FinalKey(p, kPublic, kPrivate))
    ensures |TimeServer.FinalKey(p, kPublic, kPrivate)| == 32
  {
  }

  /** A checksum over the client's own chain up to t_end equals the key piece over any longer
      chain from the same seed and salt, such as the server's cache. */
  lemma ChecksumAgreesWithLongerChain(p: Hashes, publicSeed: Bytes, publicSalt: Bytes, n: nat, tStart: int, tEnd: nat)
    requires tEnd <= n
    ensures ComputeChecksum(p, ComputePublicHistory(p, publicSeed, publicSalt, tEnd), tStart, tEnd)
         == DerivePublicKeyPiece(p, Chain(p, publicSeed, publicSalt, n), tStart, tEnd)
  {
    ChainKeyPieceAgrees(p, publicSeed, publicSalt, n, tStart, tEnd);
  }

  /** The client's checksum for a valid window is the server's K_public for that window. */
  lemma ChecksumIsServerKeyPiece(s: TimeServer.Server, tStart: nat, tEnd: nat)
    requires tStart <= tEnd
    ensures ComputeChecksum(s.p, ComputePublicHistory(s.p, s.publicSeed, s.publicSalt, tEnd), tStart, tEnd)
         == Ok(s.PublicKeyAt(tStart, tEnd))
  {
  }
}
