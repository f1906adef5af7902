/** Client runs of the protocol against one server, in the order tests/test_protocol.py drives
    them: encrypt, the client recomputes the chain and the checksum, the server releases the key
    pieces, the client derives the final key. What each run ensures follows from the
    specifications of the server's methods and the client's functions alone. */
module Protocol {
  import opened Primitives
  import opened Core
  import opened TimeServer
  import Alice

  /** A full round: the key the client derives is the key the ciphertext was sealed under, and
      a second release of the same window fails. */
  method FullFlow(s: Server, plaintext: Bytes, tStart: nat, tEnd: nat)
    returns (sealed: Result<Sealed>, keys: Result<Release>, finalKey: Result<Bytes>, again: Result<Release>)
    requires s.Valid()
    requires tStart <= tEnd && s.currentT < tEnd <= s.currentT + MaxFutureTicks
    modifies s
    ensures s.Valid()
    ensures sealed.Ok? && sealed.value.ciphertext.plaintext == plaintext
    ensures keys.Ok? && finalKey == Ok(sealed.value.ciphertext.key)
    ensures s.currentT == tEnd
    ensures again == Err(WindowExpired)
  {
    sealed := s.EncryptForAlice(plaintext, tStart, tEnd);
    var history := Alice.ComputePublicHistory(s.p, sealed.value.publicSeed, sealed.value.publicSalt, tEnd);
    var checksum := Alice.ComputeChecksum(s.p, history, tStart, tEnd);
    Alice.ChecksumIsServerKeyPiece(s, tStart, tEnd);
    keys := s.VerifyChecksumAndReleasePrivateKeyPiece(checksum.value, tStart, tEnd);
    finalKey := Alice.DeriveFinalKey(s.p, keys.value.kPublic, keys.value.kPrivate, 32);
    again := s.VerifyChecksumAndReleasePrivateKeyPiece(checksum.value, tStart, tEnd);
  }

  /** The clock moves on by itself (src/ticker.py calls advance_private_state_to(current_t + 1)
      once per tick) between encryption and release; as long as it has not reached t_end the
      released pieces still give the sealing key, because encrypt simulated the same fold. */
  method ReleaseAfterTicks(s: Server, plaintext: Bytes, tStart: nat, tEnd: nat, ticks: nat)
    returns (sealed: Result<Sealed>, keys: Result<Release>)
    requires s.Valid()
    requires tStart <= tEnd && s.currentT + ticks < tEnd <= s.currentT + MaxFutureTicks
    modifies s
    ensures s.Valid() && s.currentT == tEnd
    ensures sealed.Ok? && keys.Ok?
    ensures sealed.value.ciphertext.key == FinalKey(s.p, keys.value.kPublic, keys.value.kPrivate)
  {
    sealed := s.EncryptForAlice(plaintext, tStart, tEnd);
    var i := 0;
    while i < ticks
      invariant s.Valid() && 0 <= i <= ticks
      invariant s.currentT == old(s.currentT) + i
    {
      s.AdvancePrivateStateTo(s.currentT + 1);
      i := i + 1;
    }
    var history := Alice.ComputePublicHistory(s.p, s.publicSeed, s.publicSalt, tEnd);
    var checksum := Alice.ComputeChecksum(s.p, history, tStart, tEnd);
    Alice.ChecksumIsServerKeyPiece(s, tStart, tEnd);
    keys := s.VerifyChecksumAndReleasePrivateKeyPiece(checksum.value, tStart, tEnd);
  }

  /** Releasing a later window locks out every earlier one (test_decrypt_now_or_never). */
  method LaterReleaseExpiresEarlierWindow(s: Server, tStart: nat, tEnd: nat, laterStart: nat, laterEnd: nat)
    returns (later: Result<Release>, earlier: Result<Release>)
    requires s.Valid()
    requires laterStart <= laterEnd && tStart <= tEnd <= laterEnd
    requires s.currentT < laterEnd <= s.currentT + MaxFutureTicks
    modifies s
    ensures later.Ok? && s.currentT == laterEnd
    ensures earlier == Err(WindowExpired)
  {
    Alice.ChecksumIsServerKeyPiece(s, laterStart, laterEnd);
    Alice.ChecksumIsServerKeyPiece(s, tStart, tEnd);
    var laterHistory := Alice.ComputePublicHistory(s.p, s.publicSeed, s.publicSalt, laterEnd);
    var laterChecksum := Alice.ComputeChecksum(s.p, laterHistory, laterStart, laterEnd);
    later := s.VerifyChecksumAndReleasePrivateKeyPiece(laterChecksum.value, laterStart, laterEnd);
    var history := Alice.ComputePublicHistory(s.p, s.publicSeed, s.publicSalt, tEnd);
    var checksum := Alice.ComputeChecksum(s.p, history, tStart, tEnd);
    earlier := s.VerifyChecksumAndReleasePrivateKeyPiece(checksum.value, tStart, tEnd);
  }

  /** tests/test_crypto.py test_late_arrival: once the clock has reached t_end by other means,
      the window is refused as expired (the test expects keys; server.py raises). */
  method LateArrivalIsRejected(s: Server, plaintext: Bytes, tStart: nat, tEnd: nat, later: nat)
    returns (sealed: Result<Sealed>, keys: Result<Release>)
    requires s.Valid()
    requires tStart <= tEnd && s.currentT <= tEnd <= s.currentT + MaxFutureTicks && tEnd <= later
    modifies s
    ensures sealed.Ok? && s.currentT == later
    ensures keys == Err(WindowExpired)
  {
    sealed := s.EncryptForAlice(plaintext, tStart, tEnd);
    s.AdvancePrivateStateTo(later);
    var history := Alice.ComputePublicHistory(s.p, s.publicSeed, s.publicSalt, tEnd);
    var checksum := Alice.ComputeChecksum(s.p, history, tStart, tEnd);
    Alice.ChecksumIsServerKeyPiece(s, tStart, tEnd);
    keys := s.VerifyChecksumAndReleasePrivateKeyPiece(checksum.value, tStart, tEnd);
  }

  /** As written, encrypt_for_alice seals a window that ends at the current tick, and verify
      refuses that window with the correct checksum, now and at every later tick: whatever the
      clock does in between (an advance to any `k`, a verify of any other window), the clock
      never falls back below t_end. */
  method CurrentTickSealIsUnreleasable(s: Server, plaintext: Bytes, tStart: nat, k: int,
                                       otherChecksum: Bytes, otherStart: int, otherEnd: int)
    returns (sealed: Result<Sealed>, keys: Result<Release>)
    requires s.Valid() && tStart <= s.currentT
    modifies s
    ensures sealed.Ok? && sealed.value.tEnd <= s.currentT
    ensures keys == Err(WindowExpired)
  {
    var tEnd := s.currentT;
    sealed := s.EncryptForAlice(plaintext, tStart, tEnd);
    s.AdvancePrivateStateTo(k);
    var other := s.VerifyChecksumAndReleasePrivateKeyPiece(otherChecksum, otherStart, otherEnd);
    var history := Alice.ComputePublicHistory(s.p, s.publicSeed, s.publicSalt, tEnd);
    var checksum := Alice.ComputeChecksum(s.p, history, tStart, tEnd);
    Alice.ChecksumIsServerKeyPiece(s, tStart, tEnd);
    keys := s.VerifyChecksumAndReleasePrivateKeyPiece(checksum.value, tStart, tEnd);
  }

  /** With the strict gate every sealed window is releasable: the correct checksum is accepted
      and the released pieces give the sealing key. */
  method StrictSealIsReleasable(s: Server, plaintext: Bytes, tStart: int, tEnd: int)
    returns (sealed: Result<Sealed>, keys: Result<Release>)
    requires s.Valid()
    modifies s
    ensures sealed.Ok? ==> keys.Ok?
    ensures sealed.Ok? ==> sealed.value.ciphertext.key == FinalKey(s.p, keys.value.kPublic, keys.value.kPrivate)
  {
    sealed := s.EncryptForAliceStrict(plaintext, tStart, tEnd);
    if sealed.Ok? {
      var history := Alice.ComputePublicHistory(s.p, s.publicSeed, s.publicSalt, tEnd);
      var checksum := Alice.ComputeChecksum(s.p, history, tStart, tEnd);
      Alice.ChecksumIsServerKeyPiece(s, tStart, tEnd);
      keys := s.VerifyChecksumAndReleasePrivateKeyPiece(checksum.value, tStart, tEnd);
    } else {
      keys := Err(sealed.error);
    }
  }
}
