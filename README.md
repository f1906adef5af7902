# Time-lock key release over a public hash chain — a Dafny model

This project models the core of a "commit now, reveal later" scheme written in Python.

- The server publishes a seed and a salt. Anyone can recompute the public chain
  `X_{t+1} = SHA256(X_t ‖ X_{t-1} ‖ salt ‖ BE64(t))` from them, with 32 zero bytes standing in for `X_{-1}`.
- A message is sealed for a window `[t_start, t_end]`. Its AES-GCM key is
  `HKDF(K_public ‖ K_private, 32, salt="encryption", info="aes_gcm_key")`.
  - `K_public` is the SHA-256 of the window's chain elements.
  - `K_private = SHA256(S_{t_end})`, where `S` is a private state that only moves forward:
    `S_{t+1} = SHA256(S_t ‖ X_t ‖ server_secret ‖ BE64(t))`.
- The server releases `K_private` once, when the client presents the correct `K_public` for a window that has not
  expired. It then jumps `S` to `t_end`, so no key of that window or of an earlier one is released again.

Files:

- `primitives.dfy` (module `Primitives`): byte strings, `struct.pack(">Q", ·)`, `b"".join`, the error kinds.
  SHA-256 and HMAC-SHA256 are passed in as a `Hashes` value: two functions that return 32 bytes and are
  otherwise unconstrained.
- `core.dfy` (module `Core`): `src/core.py`. The chain as a function (`Chain`) and as the source's loop
  (`EvolvePublicChain`), the key piece of a window, `xor_bytes`, and HKDF. Extract follows section 2.2 of
  RFC 5869 and expand follows section 2.3. Expand is a function (`Expand`) and also the source's loop (`HkdfExpand`).
- `server.dfy` (module `TimeServer`): `src/server.py`. The class `Server` has the fields `public_history`,
  `current_t` and `private_state`, and its invariant `Valid()` says:
  - the cache is exactly the public chain;
  - the cache covers the clock;
  - the private state is `S_{current_t}`.
- `alice.dfy` (module `Alice`): `src/alice.py`, the client's wrappers.
- `protocol.dfy` (module `Protocol`): client runs of the protocol. Each run's contract follows from the
  server's and the client's specifications alone.

## Model

| member | source | states |
|---|---|---|
| `Primitives.BE64RoundTrip` | src/core.py:66 | below 2^64 the 8-byte big-endian encoding of a step index decodes back to the index |
| `Primitives.BE64Injective` | src/server.py:39 | distinct step indices below 2^64 give distinct encodings, hence distinct hash inputs |
| `Primitives.FlattenAppend` | src/core.py:95 | `b"".join` of a concatenation is the concatenation of the joins |
| `Primitives.FlattenLength` | src/core.py:95 | joining 32-byte parts gives 32 bytes per part |
| `Core.Chain` | src/core.py:54-75 | the chain evolved for `steps` steps has exactly `steps + 1` elements and starts with `x0` |
| `Core.ChainSatisfiesRecurrence` | src/core.py:57-73 | every element `i+1` is `SHA256(X_i ‖ (i = 0 ? zeros(32) : X_{i-1}) ‖ salt ‖ BE64(i))` |
| `Core.RecurrenceDeterminesChain` | src/core.py:44-53 | any sequence that starts at `x0` and follows the recurrence is the chain: seed and salt fix the history |
| `Core.ChainPrefix` | src/core.py:59-73 | `X_i` does not depend on `steps`: a shorter evolution is a prefix of a longer one |
| `Core.EvolvePublicChain` | src/core.py:40-75 | the loop that appends to `history` and rolls `prev_x` computes exactly the chain; a negative `steps` gives `[x0]` |
| `Core.ChainExtend` | src/server.py:36-44 | the chain one step longer is the chain with the next recurrence element appended |
| `Core.DerivePublicKeyPiece` | src/core.py:77-96 | raises exactly when `t_start < 0`, `t_end >= len(history)` or `t_start > t_end` (`t_start == t_end` is allowed); otherwise the SHA-256 of the inclusive window's join |
| `Core.WindowIncludesEnd` | src/core.py:94-95 | the hashed data ends with `X_{t_end}`: the window is inclusive at both ends |
| `Core.WindowDataLength` | src/core.py:94-96 | a window of digests hashes `32·(t_end − t_start + 1)` bytes |
| `Core.KeyPieceOnlyReadsWindow` | src/core.py:91-96 | the key piece, error or digest, depends only on the entries up to `t_end` |
| `Core.ChainKeyPieceAgrees` | src/core.py:54-96 | the key piece over the chain up to `t_end` equals the one over any longer chain from the same seed and salt |
| `Core.XorBytes` | src/core.py:9-13 | raises exactly when the lengths differ; otherwise same length and `r[i] == a[i] ^ b[i]` |
| `Core.XorInvolutive` | src/core.py:13 | XOR with the same mask twice gives the input back |
| `Core.XorCommutes` | src/core.py:13 | the operands of `xor_bytes` commute, the length error included |
| `Core.HkdfExtract` | src/core.py:15-18 | PRK = HMAC(salt, IKM) for a non-empty salt; an absent or empty salt is replaced by 32 zero bytes |
| `Core.AbsentSaltIsZeroSalt` | src/core.py:15-18 | an absent salt, an empty salt and 32 zero bytes give the same PRK |
| `Core.Block` | src/core.py:28 | `T(0)` is empty, and each later block is one 32-byte HMAC output |
| `Core.Okm` | src/core.py:26-29 | the output accumulated after `n` blocks (`okm += t`) has exactly `32·n` bytes |
| `Core.OkmPrefix` | src/core.py:26-29 | the output after fewer blocks is a prefix of the output after more blocks |
| `Core.Expand` | src/core.py:20-30 | fails exactly when more than 255·32 bytes are asked for (`bytes([256])`); otherwise returns exactly `max(length, 0)` bytes of `T(1) ‖ T(2) ‖ …` |
| `Core.ExpandPrefix` | src/core.py:26-30 | a shorter output is a prefix of a longer one for the same PRK and info |
| `Core.HkdfExpand` | src/core.py:20-30 | the source's while loop over `t`, `okm` and `n` computes exactly `Expand`, the error included |
| `Core.Hkdf` | src/core.py:32-38 | extract, then expand: succeeds exactly when `length ≤ 255·32`, and then has `max(length, 0)` bytes |
| `TimeServer.FinalKey` | src/server.py:104 | the AES-GCM key derived from `K_public ‖ K_private` is 32 bytes |
| `TimeServer.Advance` | src/server.py:53-64 | the private state folded from `S_from` by `S_{t+1} = SHA256(S_t ‖ X_t ‖ secret ‖ BE64(t))`: no step when `to <= from`, otherwise a 32-byte digest |
| `TimeServer.AdvanceCompose` | src/server.py:46-64 | advancing the private state from `a` to `b` and then to `c` equals advancing from `a` to `c` |
| `TimeServer.AdvanceOnlyReadsPrefix` | src/server.py:53-64 | the private fold to tick `to` reads only `X_0 … X_{to-1}` |
| `TimeServer.OrRandom` | src/server.py:10-12 | `value or os.urandom(32)`: a given non-empty value is kept, an absent or empty value gives the random draw, and the result is never empty |
| `TimeServer.Server.constructor` | src/server.py:9-18 | after construction `public_history == [public_seed]`, `current_t == 0`, `private_state == S_0`, and the invariant holds |
| `TimeServer.Server.CacheAgreesWithChain` | src/server.py:27-44 | the cached entries up to `t` are the chain a client computes up to `t` |
| `TimeServer.Server.EnsurePublicHistoryUpTo` | src/server.py:20-44 | afterwards `len(public_history) > t`; a no-op when `t < len`; otherwise the cache becomes the chain up to `t` and only grows; the invariant is kept |
| `TimeServer.Server.AdvancePrivateStateTo` | src/server.py:46-64 | `current_t == max(old, target)`; `private_state` is the fold from the old state, and is unchanged when `target <= current_t` |
| `TimeServer.Server.StateOverCache` | src/server.py:53-64 | the private state folded over the cache up to `t` equals `S_t` folded over the public chain |
| `TimeServer.Server.KeyPieceOverCache` | src/server.py:126-127 | the key piece over the cache is the window's `K_public`, or the window error |
| `TimeServer.Server.EncryptForAlice` | src/server.py:66-116 | raises if `current_t > t_end`, then if `t_end > current_t + 100`, then on a bad window. Otherwise it seals under `HKDF(K_public ‖ SHA256(S_{t_end}))`. `current_t` and `private_state` never change; only the cache may grow |
| `TimeServer.Server.EncryptForAliceStrict` | src/server.py:71-72 | the corrected encrypt: also refuses `t_end == current_t`, so every sealed window ends after the clock |
| `TimeServer.Server.VerifyChecksumAndReleasePrivateKeyPiece` | src/server.py:118-147 | checks in order: horizon, then window, then checksum, then expiry (`t_end <= current_t`). Failure leaves clock and state unchanged. Success sets `current_t == t_end`, returns the recomputed `K_public` and `SHA256(S_{t_end})`, and is one-shot |
| `Alice.ComputePublicHistory` | src/alice.py:3-7 | the client's history has `steps + 1` elements and satisfies the chain recurrence from the published seed and salt |
| `Alice.ComputeChecksum` | src/alice.py:9-13 | errors exactly as the server's key piece does, for the same bad windows |
| `Alice.DeriveFinalKey` | src/alice.py:15-20 | succeeds exactly when `length ≤ 255·32`, with exactly `max(length, 0)` bytes |
| `Alice.DefaultKeyIsServerKey` | src/alice.py:15 | with the default length, the client's key is the 32-byte key the server seals under |
| `Alice.ChecksumAgreesWithLongerChain` | src/alice.py:3-13 | a client checksum over its own chain up to `t_end` equals the key piece over any longer chain, such as the server's cache |
| `Alice.ChecksumIsServerKeyPiece` | src/alice.py:9-13 | for a valid window the client checksum is the window's `K_public` over the public chain (`PublicKeyAt`); that it equals the `expected_k_public` verify computes over the cache is `TimeServer.Server.KeyPieceOverCache` |
| `Protocol.FullFlow` | tests/test_protocol.py:6-32 | encrypt, client checksum, release, client key: the key equals the sealing key; a second release fails |
| `Protocol.ReleaseAfterTicks` | src/ticker.py:27-30 | ticks between encrypt and release do not change the released pieces, which still give the sealing key |
| `Protocol.LaterReleaseExpiresEarlierWindow` | tests/test_protocol.py:34-65 | after a later window is released, an earlier window fails as expired |
| `Protocol.LateArrivalIsRejected` | tests/test_crypto.py:71-113 | once the clock has been advanced to or past `t_end`, the correct checksum is refused as expired |
| `Protocol.CurrentTickSealIsUnreleasable` | src/server.py:71-72 | as written, a window ending at the current tick is sealed, and after any advance of the clock and any other release the correct checksum is still refused as expired |
| `Protocol.StrictSealIsReleasable` | src/server.py:133-134 | with the strict gate, every sealed window is released for the correct checksum, with the sealing key |

Where the tests and the code disagree, the model follows `src/server.py`, for two tests.

- `tests/test_crypto.py:94` expects keys when the clock is already past `t_end`.
- `tests/test_v3_api.py:39-55` expects keys after the clock has been advanced to `t_end`.

In both cases verify raises on its expiry check (`src/server.py:133`). `Protocol.LateArrivalIsRejected` states this
outcome.

## Findings

| source | as written | input that shows it | evidently intended | confidence | as-written member | corrected member |
|---|---|---|---|---|---|---|
| src/server.py:71-72 | encrypt rejects only `current_t > t_end`, while verify rejects `t_end <= current_t` (src/server.py:133) | a fresh server (`current_t == 0`), `encrypt_for_alice(m, 0, 0)`: it succeeds, but `verify(checksum, 0, 0)` raises "Window expired" now and at every later tick | encrypt refuses `t_end <= current_t`, so that every sealed window can be released | medium, not executed | `Protocol.CurrentTickSealIsUnreleasable` | `TimeServer.Server.EncryptForAliceStrict` (its releasability is `Protocol.StrictSealIsReleasable`) |

## Left out

- SHA-256 and HMAC-SHA256 internals: they are the two fields of `Hashes`, functions returning 32 bytes.
  Everything proved holds for any such pair, so no collision resistance is assumed. The `sha256` wrapper
  (src/core.py:5-7) is that field itself.
- `hmac.compare_digest` (src/server.py:129) is modelled as sequence equality. Its constant-time behaviour is not modelled.
- AES-GCM (`encrypt_aes_gcm`, `decrypt_aes_gcm`, `alice_decrypt`): the cipher is foreign code.
  - A ciphertext is the symbolic term `AesGcm(key, plaintext)`, and its random nonce is not modelled.
  - Decryption is not modelled. The protocol runs state instead that the client's key equals the sealing key.
- `os.urandom` in `Server.__init__`: the four random draws are the constructor's `Entropy` parameter.
- `BE64`: does not model the `struct.error` that `struct.pack(">Q", k)` raises for `k >= 2^64`. The model encodes
  the low 64 bits instead. That many ticks cannot be reached, and the encoding is exact below 2^64
  (`Primitives.BE64RoundTrip`).
- `TimeServer.Server.EncryptForAlice`: the ciphertext is symbolic, so the contract says only which key and plaintext
  it binds, not the AES-GCM output.
- src/app.py: Flask routing, hex conversion and JSON. Its `not all([...])` check (src/app.py:19, 45) also rejects
  `t_start == 0`. That is a quirk of the glue, not of the core.
- src/ticker.py and src/time_keeper.py: threads and sleep loops.
  - Their only core logic is `advance_private_state_to(current_t + 1)`, which `Protocol.ReleaseAfterTicks` uses.
  - The time keeper's local clock and drift are client-side display logic.
- src/static/script.js, src/demo.py, src/file_demo.py, src/client_demo.py and the debug scripts: UI, printing,
  file and HTTP I/O.
- Concurrency: the single global `Server` of src/app.py:10 has no locking. Every operation is modelled as one
  sequential step.
- Nonce ledger, burned-record store, reset and status: no code in `src/` implements them, so they are not modelled.
  The `request_nonce` field that tests send is ignored by src/app.py.
