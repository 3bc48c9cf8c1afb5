# Kamune: a Dafny model of its state machines

Kamune is an encrypted messaging library with a relay server. This project models the parts of it that
hold protocol state, rewrite stored data or do wire arithmetic, and proves properties of every input,
every run or every reachable state of the model.

Run `dafny verify dfyconfig.toml` to check all modules.

## What is modelled

**Encrypted store and key rotation** (`Paths`, `Buckets`, `Rotation`, `Store`, `StoreRuns`). A bbolt file is
a tree of nested buckets. Trees are compared by what can be observed at each path, and `View` is the tree
of decrypted values. `RotateDataKey` is two phases: flatten the tree to (slash-joined path, key, ciphertext)
triples, then re-encrypt each value in the bucket its path resolves to. The write phase keeps the view if and
only if every bucket that holds a value that opens is found again by its path, and a path finds its bucket exactly
when it is a root path, or has no slash in a name and spells no root bucket's name. Over every run of transactions, both rotations and reopenings the store refines
a plain nested map.

**Handshake, transport, resumption** (`Transcript`, `HandshakeProtocol`, `Transport`, `TokenList`,
`Resumption`). Any number of initiators and responders step over a network that loses, repeats and reorders.
`acceptChallenge` echoes what it decrypts without comparing it with its own transcript, so agreement is
proved through key derivation. `Send` is two steps, allocation and write. Token pools are
started from the lists two agreeing endpoints derive.

**Wire arithmetic** (`Encoding`, `Serde`, `Framing`). Big-endian integers, base-128 varints, the padding
iteration, the 16-bit frame and short writes.

**Relay** (`RelaySessions`, `Broker`, `BrokerCodec`, `RateLimit`). The session table and the hub that looks up a recipient
and later writes to it; the matchmaking registry and its packets; the sliding-window limiter over an expiring cache.

**Relay client** (`RelayConn`, `RelayListener`). Every locked section and every channel operation is one
step, and all interleavings are runs.

**Chat history** (`ChatHistory`). Entries keyed by receive time, shown by sender time.

## Conventions

- Cryptography is symbolic (`Crypto`): `Kdf`, `Seal` and `Shared` are injective constructors, and decryption
  succeeds only under the sealing key. Signatures are the sender's identity carried in the message.
  SHA-256 is an arbitrary function of bytes.
- Clock readings, random numbers, nonces, the order in which a map is iterated and every scheduler choice
  are parameters or events, so results hold for all of them.
- 64-bit wrap-around, 32-bit counts and signed/unsigned conversions are written out.
- Where the code changes state in place the model is a class whose methods are proved against a
  specification function; the run-level results are about the same function.
- A bbolt transaction is atomic and a cursor lists keys in byte order.

Where a stated purpose of the code holds only under a condition, the condition is proved to be exact:

- Rotation preserves a given tree if and only if every bucket holding a value that opens is found again by its path
  (`PreservesIffRouted`, and `RotateDataKeyCorrect` for the whole operation), failing on the tree of
  `SlashedNamesAreUnsafe`. A bucket structure is safe whatever it holds if and only if all its paths lead home
  (`SafeIffAllHome`, `HomeIff`).
- A successful namespace call leaves the store's passphrase working if and only if it does not write one of the
  four metadata entries (`ApplySound`, failing in `MetaWriteLocksOut`). A call keeps store and plain map in step if
  and only if it neither writes such an entry nor asks for a namespace of that name (`CallRefinesIff`).
- Sequence numbers identify messages below 2^64 sends; at 2^64 a redelivered message is accepted again
  (`AcceptedExactlyInOrder`, `WrapAcceptsDuplicate`).
- The relay connection's wakeup is never lost if and only if at most one goroutine reads
  (`NoLostWakeupIffOneReader`).
- Closing a relay connection is harmless if and only if no other connection waits to be accepted
  (`CloseIsSafeIff`); callers that close each connection once always satisfy that
  (`ClosedOnceDeliversEverything`), a second close of the same connection does not (`DoubleCloseDrops`).
- The first and last chat keys give the earliest and latest receive time if and only if all times lie on one
  side of the Unix epoch (`EndsAreMinMaxIff`, failing in `EpochExample`), and the history holds every message if
  and only if no two got the same key (`HistoryIsEverythingIff`, failing in `RepeatedKeyExample`).
- Packets round-trip if and only if their byte fields have their wire sizes (`RegisterRoundTripIff`,
  `PayloadRoundTripIff`, `NotifyRoundTripIff`).

The comment above `valueMagic` speaks of older entries without an envelope. `GetChatHistory` does not look
at the magic, so the model follows the code and decodes every value as an envelope.

## Model

| member | source | states |
|---|---|---|
| `Encoding.BigEndianDecodes` | handshake.go:331-343 | reading a big-endian integer back gives the number modulo 256^width, for every number and width |
| `Encoding.UvarintPrefixFree` | serde.go:98-109 | no varint is a prefix of another, so a varint and what follows it are determined by the bytes |
| `Paths.SplitJoin` | internal/engine/bolt_store.go:206-216 | splitting a joined path gives the path back if and only if no name holds a slash |
| `Paths.JoinSplit` | internal/engine/bolt_store.go:206-216 | joining the segments of any string gives the string back, so no path resolves to a bucket other than its own |
| `Buckets.TreeExtensionality` | internal/engine/bolt_namespace.go:30-52 | two trees of any depth with the same buckets and values at every path are equal |
| `Buckets.PutOutcome` | internal/engine/bolt_namespace.go:201-217 | a put succeeds exactly in an existing bucket below the root under a non-empty key that names no sub-bucket, with the error for each other case |
| `Buckets.DeleteOutcome` | internal/engine/bolt_namespace.go:219-227 | a delete succeeds exactly in an existing bucket below the root for a key that names no sub-bucket, present or not |
| `Buckets.DeleteBucketOutcome` | internal/engine/bolt_namespace.go:229-245 | a namespace is deleted exactly if it exists below the root, whatever it holds, with the error for each other case |
| `Buckets.EnsureOutcome` | internal/engine/bolt_namespace.go:58-100 | a namespace can be ensured exactly if it exists, or its parent does and no value has its name |
| `Buckets.PutObserved` | internal/engine/bolt_namespace.go:201-217 | a successful put changes that one value and nothing else in a tree of any depth |
| `Buckets.DeleteObserved` | internal/engine/bolt_namespace.go:219-227 | a successful delete removes that one value and nothing else |
| `Buckets.DeleteBucketObserved` | internal/engine/bolt_namespace.go:229-245 | deleting a namespace removes exactly the buckets and values at or below it |
| `Buckets.EnsureObserved` | internal/engine/bolt_namespace.go:58-100 | ensuring a namespace adds that bucket if missing and changes no value |
| `Buckets.ViewObserved` | internal/engine/bolt_namespace.go:115-125 | the view has the same buckets, and at each path exactly the values that open, decrypted |
| `Rotation.Collect` | internal/engine/bolt_store.go:329-348 | the recursive collector lists every value below a bucket, each with its joined path, and nothing else |
| `Rotation.CollectAll` | internal/engine/bolt_store.go:350-354 | the read phase enumerates exactly the values of the whole tree |
| `Rotation.NavigateBucket` | internal/engine/bolt_store.go:206-216 | walking the segments of a path finds the bucket that the split path denotes, or none |
| `Rotation.HomeIff` | internal/engine/bolt_store.go:206-216 | a collected path resolves to the bucket it came from if and only if it is a root path, or has no slash in a name and is no root bucket's name |
| `Rotation.SlashFreeIsHome` | internal/engine/bolt_store.go:361-370 | in a tree of slash-free names every collected path leads home |
| `Rotation.WriteAllRekeys` | internal/engine/bolt_store.go:361-381 | after any prefix of the write loop the listed values are re-sealed with the same plaintext and all others are as before, and no bucket changed, on every tree whose values that open are found again by their paths |
| `Rotation.RotationPreservesView` | internal/engine/bolt_store.go:326-381 | on such a tree re-encryption leaves buckets, keys and every plaintext as they were, for any order and nonces, and does not touch values that did not open |
| `Rotation.StrayUntouched` | internal/engine/bolt_store.go:361-381 | no write of the loop ever reaches a bucket whose path does not lead home |
| `Rotation.PreservesIffRouted` | internal/engine/bolt_store.go:326-381 | for every tree, order and nonces and a fresh key, rotation preserves the tree if and only if every bucket holding a value that opens is found again by its path |
| `Rotation.StrayValueIsLost` | internal/engine/bolt_store.go:361-381 | for any bucket whose path does not lead home there is a filling whose value the rotation loses |
| `Rotation.SlashedNamesAreUnsafe` | internal/engine/bolt_store.go:361-381 | a concrete loss: with root buckets "a/b" and "a" holding "b", a value in the nested bucket is written to "a/b" and its own copy stays under the old key; the rotated tree is shown |
| `Rotation.SafeIffAllHome` | internal/engine/bolt_store.go:326-381 | a bucket structure is safe to rotate whatever it holds if and only if all its paths lead home |
| `Store.MetaNeverOpens` | internal/engine/bolt_store.go:110-152 | the four metadata entries never open under a data key, so rotation leaves them for the final rewrite |
| `Store.OnlyPassphraseOpens` | internal/engine/bolt_store.go:110-152 | the cipher can be extracted with the current passphrase and with no other |
| `Store.MetaRewrite` | internal/engine/bolt_store.go:259-273 | rewriting metadata entries in one transaction is invisible in the view and touches no other value |
| `Store.RotatePassphraseCorrect` | internal/engine/bolt_store.go:220-285 | succeeds exactly for the current passphrase, otherwise changes nothing; keeps the data key and every other entry; afterwards only the new passphrase opens |
| `Store.ValuesReencrypted` | internal/engine/bolt_store.go:361-381 | between value loop and metadata write, on a tree whose data is found again by its paths, every data value is sealed under the new key and the view is the old one |
| `Store.DataKeyMetaSound` | internal/engine/bolt_store.go:385-395 | writing the four metadata entries re-establishes the store's invariant for the new passphrase and key |
| `Store.RotateDataKeyCorrect` | internal/engine/bolt_store.go:290-406 | a wrong passphrase or a failure changes nothing; it succeeds with the old view under the fresh key if and only if the passphrase is the current one and every bucket holding data is found again by its path, and then only the new passphrase opens |
| `Store.RotatedPassphraseOpens` | internal/engine/bolt_store.go:220-285 | whatever tree is found, a passphrase rotation that reports success leaves one the new passphrase opens to the cipher in memory, after the old one opened it; a failure keeps the cipher |
| `Store.RotatedDataKeyOpens` | internal/engine/bolt_store.go:290-406 | the same for a data-key rotation, which changes nothing when it fails |
| `StoreRuns.GetRefines` | internal/engine/bolt_namespace.go:115-125 | a read of the encrypted store answers as a read of the plain map, errors included |
| `StoreRuns.GetOutcome` | internal/engine/bolt_namespace.go:103-125 | when a read answers and with what, and which of the three errors it gives otherwise |
| `StoreRuns.ReadsAfterCall` | internal/engine/bolt_namespace.go:58-245 | after a successful call a put is read back, a deleted key is missing, a new namespace is empty, a deleted one is gone, and every other read answers as before |
| `StoreRuns.OutcomesAgree` | internal/engine/bolt_namespace.go:58-245 | a namespace call ends on the encrypted store as on the plain map, errors included, if and only if it names no namespace after a metadata entry |
| `StoreRuns.ApplyRefines` | internal/engine/bolt_namespace.go:58-245 | every successful namespace call, whatever it names, changes the view as the same call changes the plain map |
| `StoreRuns.ApplySound` | internal/engine/bolt_namespace.go:58-245 | a successful namespace call keeps the store's invariant, and the passphrase working, if and only if it writes none of the four metadata entries |
| `StoreRuns.CallRefinesIff` | internal/engine/bolt_namespace.go:58-245 | one call, failing or not, keeps the invariant and the agreement with the plain map if and only if it neither writes a metadata entry nor asks for a namespace of that name |
| `StoreRuns.MetaWriteLocksOut` | internal/engine/bolt_namespace.go:201-217 | in a new store writing the wrapped key succeeds, and afterwards no passphrase opens the file |
| `StoreRuns.ExecuteInOrder` | internal/engine/bolt_store.go:96-100 | a transaction runs its calls in order, each failing call changing nothing |
| `StoreRuns.ExecuteRefines` | internal/engine/bolt_store.go:96-100 | a whole transaction of calls keeps the invariant and changes the view as it changes the plain map |
| `StoreRuns.OpenCreates` | internal/engine/bolt_store.go:30-84 | opening an empty file creates a sound store with an empty view for any passphrase |
| `StoreRuns.OpenedMeansOpen` | internal/engine/bolt_store.go:30-84 | whatever is in the file, an opening that succeeds leaves a tree the passphrase opens to the cipher in memory |
| `StoreRuns.ReopenIff` | internal/engine/bolt_store.go:30-84 | reopening succeeds exactly with the most recent passphrase and finds the same tree and data key |
| `StoreRuns.RunRefines` | internal/engine/bolt_store.go:220-406 | every run of transactions, both rotations and reopenings in any order refines the plain nested map, where a data-key rotation with the right passphrase finds its data by its paths |
| `StoreRuns.SlashFreeRunIsValid` | internal/engine/bolt_store.go:290-406 | in a run that creates no bucket with a slash in its name every data-key rotation finds that, so the refinement needs no condition on the tree |
| `StoreRuns.ReopenedRunReadsTheSame` | internal/engine/bolt_store.go:30-84 | after any run from a new file, reopening yields the plain map's tree and the same answer to every read |
| `StoreRuns.SlashFreeRunReadsTheSame` | internal/engine/bolt_store.go:30-84 | the same with no condition on the tree for every run from a new file that names no bucket with a slash |
| `StoreRuns.BoltStore.Command` | internal/engine/bolt_store.go:96-100 | a committed transaction changes the view as the plain map changes, an aborted one changes nothing |
| `StoreRuns.BoltStore.RotatePassphrase` | internal/engine/bolt_store.go:220-285 | in-place form of the result above, with what stays unchanged |
| `StoreRuns.BoltStore.RotateDataKey` | internal/engine/bolt_store.go:290-406 | in-place form, reading with the collector and writing with the loop; failure changes nothing, and it succeeds with the view kept if and only if passphrase and paths are right |
| `StoreRuns.WritePhase` | internal/engine/bolt_store.go:361-381 | the write loop computes the specified re-encryption, and stops with the first error |
| `Transcript.TranscriptInjective` | handshake.go:320-358 | the hashed bytes determine all six handshake fields |
| `Transcript.ChallengeInfoInjective` | handshake.go:363-375 | challenge info determines session ID, direction and hash, so the two directions never collide |
| `Transcript.InfoInjective` | handshake.go:102-110 | a direction label followed by a session ID splits in one way, so equal key inputs mean equal sessions |
| `HandshakeProtocol.KeysDetermineSession` | handshake.go:102-110 | two direction keys are equal if and only if secret, their sender's salt, session ID and direction are |
| `HandshakeProtocol.ChallengeDetermines` | handshake.go:247-257 | two challenges are equal if and only if secret, session ID, direction and transcript hash are |
| `HandshakeProtocol.TokenDetermines` | transport.go:155-192 | two resumption tokens are equal if and only if secret, session ID and place in the list are |
| `HandshakeProtocol.InitiatorAdvancesIff` | handshake.go:32-134 | exactly which message moves an initiator on at each stage, field sizes and echo included, what it then sends, and that anything else ends it silently |
| `HandshakeProtocol.ResponderStartsIff` | handshake.go:144-170 | a responder answers exactly a request from its peer with well-sized fields |
| `HandshakeProtocol.ResponderAdvancesIff` | handshake.go:144-243 | exactly which message moves a responder on at each stage, what it then sends, and that anything else ends it silently |
| `HandshakeProtocol.UnfinishedCanAbort` | handshake.go:32-243 | an endpoint that has not finished can give up at any time |
| `HandshakeProtocol.FailedStaysFailed` | handshake.go:32-243 | over every run an endpoint that gave up or was failed never moves again |
| `HandshakeProtocol.NextKeepsInv` | handshake.go:32-243 | every step of every endpoint, and every loss, repetition and reordering, keeps the protocol invariant |
| `HandshakeProtocol.ResponderAgreement` | handshake.go:144-243 | if a responder completes, exactly one initiator has sent its final echo with the same identities, fields, secret, session ID, salts, tokens and crossed keys, each key made of the secret, its sender's salt, the session ID and the direction, and all four counters are 2 |
| `HandshakeProtocol.InitiatorAgreement` | handshake.go:32-134 | if an initiator completes, exactly one responder has sent its challenge with the same values, the keys made of the same parts |
| `HandshakeProtocol.TokensDistinct` | transport.go:173-192 | the 20 derived resumption tokens are pairwise different |
| `HandshakeProtocol.HonestRunCompletes` | handshake.go:32-243 | cold or resumed, for any keys and salts, there is a run in which both ends complete with the secret, salts, session ID and keys these inputs determine |
| `Transport.Endpoint.Allocate` | transport.go:117-126 | takes the next 64-bit number, wrapping, and leaves the receive counter |
| `Transport.Endpoint.Receive` | transport.go:61-114 | accepts exactly the next number on a non-close route and moves the counter to it; every error leaves the counter |
| `Transport.JudgedIff` | transport.go:84-109 | a close frame is reported whatever its number, any other frame is refused exactly if it is not the next number modulo 2^64 |
| `Transport.AcceptedExactlyInOrder` | transport.go:61-137 | for every interleaving of two-step sends and every network behaviour below 2^64 sends, the accepted messages are sends 1..recvSequence, each once and in order, and no number never written is passed |
| `Transport.DeliveredIsAcceptedIff` | transport.go:61-114 | in every reachable state below 2^64 sends a delivered send is accepted exactly if it is the next and no close frame, and otherwise nothing changes |
| `Transport.GarbageChangesNothing` | transport.go:73-81 | what does not decrypt or verify can arrive at any time and changes nothing |
| `Transport.FailedSendBlocksForever` | transport.go:117-137 | after a send that took a number and put no whole frame on the wire, no continuation gets past that number |
| `Transport.WrapAcceptsDuplicate` | transport.go:94-111 | at 2^64 sends a run accepts one message twice, so the bound is exact |
| `TokenList.SerializeList` | pkg/storage/session.go:234-242 | the buffer-filling loop packs as specified |
| `TokenList.DeserializeList` | pkg/storage/session.go:248-262 | the decoding loop unpacks as specified, short and malformed data included |
| `TokenList.RoundTrip` | pkg/storage/session.go:234-262 | unpacking undoes packing if and only if all elements have 32 bytes and the count fits 32 bits |
| `TokenList.UnpackThenPack` | pkg/storage/session.go:234-262 | packing what was unpacked gives the bytes back, unless they were too short for a count and read as the empty list |
| `TokenList.UnpackedIsPackable` | pkg/storage/session.go:248-262 | whatever unpacks is a list that packs again without loss |
| `TokenList.SwapRemoveOne` | pkg/storage/session.go:214-222 | removal takes away exactly one occurrence as a multiset and fails exactly when there is none |
| `TokenList.RemoveFirst` | pkg/storage/session.go:214-222 | the scanning loop removes the first equal element by moving the last into its place |
| `TokenList.StoredList.SetList` | pkg/storage/session.go:112-121 | writes nothing unless the session record exists; afterwards a reader finds the list |
| `TokenList.StoredList.PopList` | pkg/storage/session.go:173-199 | returns the head and stores the rest, or changes nothing |
| `TokenList.StoredList.RemoveListItem` | pkg/storage/session.go:203-231 | succeeds exactly for a stored entry and takes away one occurrence, or changes nothing |
| `Resumption.ClientPoolInsideServerPool` | dial.go:154-180 | from equal lists and until either side refreshes, the client's tokens are a sub-multiset of the server's whatever is lost or repeated, and a popped token not yet looked up is never unknown |
| `Resumption.HandledIff` | server.go:253-310 | a request is accepted exactly if its token is in the pool and the later checks pass, and the token leaves the pool either way |
| `Resumption.FirstLookupAcceptedIff` | server.go:250-310 | over every run from equal pools the first lookup of a request is accepted if and only if the later checks pass; a token popped and sent can be looked up, one popped and not sent cannot |
| `Resumption.RefreshRestarts` | dial.go:180-198 | after both sides refresh with the same new tokens the pools agree again through every run up to the next refresh, whatever came before |
| `Resumption.EachTokenAcceptedOnce` | server.go:238-323 | over every run each token is accepted at most once and at most 20 attempts succeed between refreshes |
| `Resumption.AgreedPoolsAreSound` | transport.go:155-192 | two endpoints that agreed in a handshake start with equal, duplicate-free pools of 20 |
| `Resumption.RefreshIsFresh` | server.go:296-323 | refreshing with tokens of a handshake whose ciphertext is new is always an allowed step: none of them was ever in the pool |
| `Resumption.HandshakePoolsAcceptOnce` | server.go:238-323 | from the pools of one handshake through any run refreshed by handshakes with new ciphertexts, with nothing assumed about the tokens: each token is accepted at most once and at most 20 attempts succeed between refreshes |
| `Serde.SigningInputInjective` | serde.go:98-109 | the signed bytes determine metadata and data |
| `Serde.SignedIsNotTranscript` | serde.go:98-109 | signed bytes carry their own label, so they are never the bytes hashed for a handshake |
| `Serde.ComputeVarintSize` | serde.go:163-170 | the shift loop returns the length of the varint |
| `Serde.MarshalledSize` | internal/box/box.proto:8-13 | the size padding works with is the length of the four marshalled fields, empty ones omitted |
| `Serde.MarshalledMetadataSize` | internal/box/box.proto:15-20 | the metadata size is the length of the marshalled metadata |
| `Serde.NaturalBucketIndex` | serde.go:175-182 | the smallest bucket that fits, or the last |
| `Serde.SelectBump` | serde.go:186-199 | the bump ranges are 80, 15, 4 and 1 of 100 |
| `Serde.SelectBucketSize` | serde.go:203-210 | the smallest bucket that fits for a draw below 80, and one, two or three above it for the other ranges, capped at the last |
| `Serde.PaddingLength` | serde.go:140-159 | the loop computes the bounded fixpoint iteration |
| `Serde.PaddingIsOptimal` | serde.go:140-159 | for every gap the four rounds end at the largest encodable size not above the bucket, exact except for gaps 1, 2, 130 and 16387, at most 2 bytes short and never above, also where the iteration oscillates |
| `Serde.PadSignedTransport` | serde.go:140-159 | the padded message is the largest that fits the bucket drawn for it, at most 2 bytes below it; above the last bucket nothing is added |
| `Serde.MetadataBound` | serde.go:30-67 | metadata takes at most 60 bytes for every 64-bit time and sequence number |
| `Serde.Serialize` | serde.go:30-67 | a message is accepted exactly up to the cap, and after padding and 40 bytes of encryption overhead always fits the 16-bit frame |
| `Framing.StreamReadsBack` | conn.go:71-85 | any sequence of frames followed by part of another is read back as exactly the whole frames |
| `Framing.FrameConn.WriteFull` | conn.go:102-130 | under every pattern of short writes the loop writes all the bytes or a prefix and reports failure |
| `Framing.FrameConn.WriteBytes` | conn.go:102-176 | success puts exactly the frame on the wire; a closed or oversized write puts nothing; a close between prefix and payload leaves exactly the prefix; other failures put a prefix of the frame |
| `Framing.FrameConn.SendAll` | conn.go:71-176 | whatever the underlying writes do and whenever the connection is closed, the reader gets the frames that succeeded in order, and at most the one that was whole on the wire when its writer got an error |
| `RelaySessions.SessionManager.PurgeExpired` | cmd/relay/internal/services/session.go:209-240 | the purge loop removes exactly the expired sessions and closes exactly their channels |
| `RelaySessions.SessionManager.Create` | cmd/relay/internal/services/session.go:51-72 | purges, then adds a session unless the table is full; the table never grows beyond the capacity |
| `RelaySessions.SessionManager.CreateWith` | cmd/relay/internal/services/session.go:79-105 | the same for a chosen token, refusing a token in use |
| `RelaySessions.SessionManager.Join` | cmd/relay/internal/services/session.go:107-131 | succeeds exactly for a waiting session up to its expiry, and then each end finds the other for the session's lifetime; tests expiry before pairing, so a late join removes even a paired session; no other session changes |
| `RelaySessions.SessionManager.PeerToClose` | cmd/relay/internal/services/session.go:160-181 | the channel closed when a peer leaves is exactly the one a lookup from it would find |
| `RelaySessions.PurgeKeepsIff` | cmd/relay/internal/services/session.go:209-240 | a purge keeps a waiting session up to its token's expiry and a paired one up to its own, if it has one, unchanged |
| `RelaySessions.CreatedIff` | cmd/relay/internal/services/session.go:51-105 | a session is created exactly below capacity, with a chosen token only if it is free; it then has no recipient, can be joined and is kept by purges exactly up to its expiry |
| `RelaySessions.JoinedIff` | cmd/relay/internal/services/session.go:107-131 | which of the four outcomes a join has, in terms of the table, and what each does to it |
| `RelaySessions.NextKeepsInv` | cmd/relay/internal/services/hub.go:73-142 | every relay step keeps the table and pairing invariant |
| `RelaySessions.RecipientIsPartner` | cmd/relay/internal/services/session.go:133-155 | in every reachable state a lookup by token finds the sender's own partner, also when the token was reused |
| `RelaySessions.OnePartnerForLife` | cmd/relay/internal/services/session.go:51-240 | in every run a channel is in at most one pairing for life, in the role it registered for, with one partner; frames and closes reach only the partner, and the table stays within capacity |
| `RelaySessions.RecipientIff` | cmd/relay/internal/services/session.go:133-155 | a lookup finds exactly the other end of a pair, and which error it gives otherwise |
| `RelaySessions.CreateThenJoin` | cmd/relay/internal/services/hub.go:60-142 | in every reachable state a session created and joined up to its expiry adds exactly that pairing and opens both directions until its lifetime ends or it is unregistered; joined later it adds none and is gone |
| `RelaySessions.RecipientSymmetric` | cmd/relay/internal/services/session.go:133-155 | in every table each end of a session finds exactly the other |
| `Broker.BrokerServer.HandleRegister` | cmd/relay/internal/broker/broker.go:148-233 | random, refreshing, first and matching registrations change the registry and notify as specified; unacceptable ones do nothing |
| `Broker.BrokerServer.PurgeExpired` | cmd/relay/internal/broker/broker.go:321-330 | the purge loop keeps exactly the unexpired entries |
| `Broker.UnusableIsIgnored` | cmd/relay/internal/broker/broker.go:148-169 | a registration over the limit, or without source, claimed address, port or key, changes nothing |
| `Broker.AssignedTokenIsHeld` | cmd/relay/internal/broker/broker.go:179-197 | an empty token is answered, to the source and under its key, with the very token held for that peer up to its expiry |
| `Broker.HeldAndRefreshed` | cmd/relay/internal/broker/broker.go:201-224 | a first registration is held without a notice up to its expiry, and repeating it only moves the expiry |
| `Broker.SecondPeerIsMatched` | cmd/relay/internal/broker/broker.go:225-269 | a second peer under a held token is matched with the holder, expired or not, and both are introduced |
| `Broker.MatchmakingIsSound` | cmd/relay/internal/broker/broker.go:148-269 | over every run a held entry keeps the address and key it was created with, no entry is matched twice or with its own key, and the match notices are exactly two per match in order, each side told the other's key and address under its own key |
| `Broker.RegistrationsConserved` | cmd/relay/internal/broker/broker.go:148-330 | over every run entries created = matched + purged + overwritten + live |
| `BrokerCodec.RegisterParses` | pkg/relayconn/broker/codec.go:134-180 | a built REGISTER parses, whatever follows it, to its fields cut or padded to size and its IPv4 address or zero |
| `BrokerCodec.RegisterRoundTripIff` | pkg/relayconn/broker/codec.go:134-180 | parsing inverts building for every port if and only if token, key and address have 16, 32 and 4 bytes |
| `BrokerCodec.AddressForms` | pkg/relayconn/broker/codec.go:162-180 | both forms of an IPv4 address build the same packet, any other address the one for 0.0.0.0 |
| `BrokerCodec.RegisterRebuilds` | pkg/relayconn/broker/codec.go:134-180 | rebuilding any accepted packet gives its first 60 bytes |
| `BrokerCodec.HeaderErrors` | pkg/relayconn/broker/codec.go:134-150 | which of the four errors a packet gets, in the order size, magic, version, opcode |
| `BrokerCodec.PayloadRoundTripIff` | pkg/relayconn/broker/codec.go:215-278 | both NOTIFY payloads come back, for every port and lifetime, if and only if their byte fields have their wire sizes |
| `BrokerCodec.PayloadRebuilds` | pkg/relayconn/broker/codec.go:215-278 | any accepted payload starts with the bytes its fields build |
| `BrokerCodec.PayloadErrors` | pkg/relayconn/broker/codec.go:245-278 | which error a payload gets |
| `BrokerCodec.NotifyRoundTripIff` | pkg/relayconn/broker/codec.go:195-213 | the envelope comes back, for any sealed part, if and only if key and nonce have 32 and 24 bytes |
| `BrokerCodec.NotifyRebuilds` | pkg/relayconn/broker/codec.go:195-213 | an accepted NOTIFY is rebuilt from its three parts, every byte |
| `RateLimit.SpacedNeverExceeds` | cmd/relay/internal/ratelimit/ratelimit.go:25-50 | accepts `quota` apart that are a window apart put at most `quota` into any window, wherever it is placed |
| `RateLimit.Decision` | cmd/relay/internal/ratelimit/ratelimit.go:25-50 | the pruned cache entry holds exactly the window's accepts, expired or not, and accepting keeps the key's invariant |
| `RateLimit.EntryLifetime` | cmd/relay/internal/ratelimit/ratelimit.go:17-23 | an entry lives for two windows after the accept that stored it |
| `RateLimit.RateLimiter.Prune` | cmd/relay/internal/ratelimit/ratelimit.go:37-41 | the loop drops exactly the stamps at or before the cutoff |
| `RateLimit.RateLimiter.Allow` | cmd/relay/internal/ratelimit/ratelimit.go:25-50 | true exactly when fewer than `quota` earlier accepts of the key lie in (now-window, now] |
| `RateLimit.RateLimiter.NoWindowExceedsQuota` | cmd/relay/internal/ratelimit/ratelimit.go:17-50 | at every moment no window of that length holds more than `quota` accepts of any key |
| `RelayConn.RunConserves` | pkg/relayconn/conn.go:51-129 | in every run data pushed equals data returned followed by data buffered |
| `RelayConn.CloseReleasesReaders` | pkg/relayconn/conn.go:84-119 | a parked reader can leave with an end of file exactly once the connection is closed, and what is buffered is returned by the next call |
| `RelayConn.OneReaderRun` | pkg/relayconn/conn.go:51-129 | with one reader, in every run a parked reader with data has a signal or a pusher about to signal |
| `RelayConn.NoLostWakeupIffOneReader` | pkg/relayconn/conn.go:51-129 | no wakeup is lost in any reachable state if and only if at most one goroutine reads |
| `RelayConn.InternalRunsEnd` | pkg/relayconn/conn.go:51-129 | running goroutines, any number of readers among them, come to rest after a bounded number of steps |
| `RelayConn.BufferedDataIsReturned` | pkg/relayconn/conn.go:51-129 | with any number of readers and however they are scheduled, when the running goroutines rest the oldest buffered datum has been returned if and only if a reader was about to look or had a wakeup coming |
| `RelayConn.OneReaderAwake` | pkg/relayconn/conn.go:51-129 | for one reader inside ReadBytes that condition is the absence of a lost wakeup, which every run has |
| `RelayConn.Conn.Append` | pkg/relayconn/conn.go:121-124 | the locked half of pushData is the machine's append step |
| `RelayConn.Conn.Signal` | pkg/relayconn/conn.go:125-128 | the non-blocking send is the signal step |
| `RelayConn.Conn.Check` | pkg/relayconn/conn.go:51-75 | the locked check returns the oldest datum before any deadline or close is looked at |
| `RelayConn.Conn.Select` | pkg/relayconn/conn.go:77-92 | the select wakes, times out or ends as the machine does, and never touches the buffer |
| `RelayConn.Conn.PushData` | pkg/relayconn/conn.go:121-129 | undisturbed, the two halves are two steps of the machine, append the datum and leave a signal |
| `RelayConn.Conn.ReadBytes` | pkg/relayconn/conn.go:51-93 | undisturbed, the loop returns the oldest datum and no other, or an error after at most one stale signal, and loses nothing |
| `RelayListener.GuardedRunKeepsInv` | pkg/relayconn/listener.go:253-298 | without a close while a connection waits, every run keeps slot = current connection, drops no session and partitions the arrivals |
| `RelayListener.NewConnectionNeedsClose` | pkg/relayconn/listener.go:253-298 | in every run each connection after the first takes a close or a dropped session, so an open connection gets every frame |
| `RelayListener.CloseIsSafeIff` | pkg/relayconn/listener.go:272-285 | a close can lead to a dropped session if and only if a connection waits to be accepted when it runs |
| `RelayListener.StrayCloseDrops` | pkg/relayconn/listener.go:272-298 | from every such state one more frame makes deliver drop a session and forget it, while the waiting connection stays in the slot |
| `RelayListener.ClosedOnceDeliversEverything` | pkg/relayconn/listener.go:186-298 | with each connection closed at most once, an occupied slot holds the current connection, no session is dropped and arrivals are contiguous in-order runs, one per connection, accepted in order |
| `RelayListener.DoubleCloseDrops` | pkg/relayconn/listener.go:272-298 | a run of nine steps that closes one connection twice and drops the third session |
| `RelayListener.Listener.DeliverLocked` | pkg/relayconn/listener.go:253-288 | the locked half of deliver pushes to the current connection or creates one |
| `RelayListener.Listener.OfferCreated` | pkg/relayconn/listener.go:290-297 | the non-blocking send hands over, or drops and forgets the connection |
| `RelayListener.Listener.DeliverFrame` | pkg/relayconn/listener.go:253-298 | undisturbed, deliver keeps the listener's invariant and so drops no session |
| `RelayListener.Listener.TakeAccepted` | pkg/relayconn/listener.go:186-196 | Accept returns the connection in the slot and empties it |
| `RelayListener.Listener.ConnClosed` | pkg/relayconn/listener.go:272-275 | closeFn forgets the current connection, whichever it is |
| `ChatHistory.EntryRoundTrip` | pkg/storage/storage.go:488-514 | every 64-bit sender time, payload and sender comes back as added |
| `ChatHistory.BigEndianOrdered` | pkg/storage/storage.go:491-495 | big-endian encoding keeps order under byte comparison, whatever follows the number |
| `ChatHistory.HistoryIsEverythingIff` | pkg/storage/storage.go:213-235 | what is decoded is a permutation of everything added if and only if no key was used twice |
| `ChatHistory.RepeatedKeyHidesMessage` | pkg/storage/storage.go:213-235 | of two messages with equal receive time, sender and suffix the history shows only the second |
| `ChatHistory.RepeatedKeyExample` | pkg/storage/storage.go:213-235 | a concrete pair of messages for which the history is not what was added |
| `ChatHistory.EndsAreMinMaxIff` | pkg/storage/storage.go:296-313 | first and last key give the minimum and maximum receive time if and only if all times lie on one side of the epoch |
| `ChatHistory.EpochSwapsEnds` | pkg/storage/storage.go:296-313 | of a message received before the epoch and one received at or after it the cursor lists the later first |
| `ChatHistory.EpochExample` | pkg/storage/storage.go:296-313 | receive times -1 and 0: the first key gives 0, which is not the minimum, and the last gives -1 |
| `ChatHistory.ChatNamespace.AddChatEntry` | pkg/storage/storage.go:488-514 | stores the message, or reports the missing namespace and changes nothing |
| `ChatHistory.ChatNamespace.GetChatHistory` | pkg/storage/storage.go:213-247 | panics exactly on a value short of its envelope; otherwise sorted by (sender time, sender) and a permutation of what the bucket decodes to, whoever wrote it; with AddChatEntry alone, a permutation of everything added if and only if keys are distinct |
| `ChatHistory.ChatNamespace.SessionTimestamps` | pkg/storage/storage.go:296-313 | ends and count of the receive times, with the exact condition under which they are minimum, maximum and number of messages |

## Left out

- Cryptographic internals: key schedules, AEAD, HPKE, ML-KEM and signatures are the symbolic interfaces described above.
- StoreRuns.ExecuteRefines: transactions with a call that `CallRefinesIff` rules out.
- StoreRuns.BoltStore.Command: the same transactions.
- StoreRuns.RunRefines: runs with such a call, and data-key rotations that `RotateDataKeyCorrect` proves not to keep the view.
- StoreRuns.ReopenedRunReadsTheSame: the same runs.
- A fresh data key is one under which nothing stored opens (`Unused`); the model does not give the probability of a clash.
- Transactions of other goroutines between `RotateDataKey`'s read and write phases.
- bbolt's key and value size limits, paging and file locking.
- Transcript fields are shorter than 2^32 bytes, as every field of a 16-bit frame is.
- Resumption: the grace period and the peer-key test are one outcome of the later checks.
- Transport.Endpoint.Receive: deadlines and `Close`'s effect on the socket are not modelled.
- Framing.FrameConn.WriteBytes: deadlines.
- Framing: the read side's partial reads, which `io.ReadFull` hides.
- RelaySessions: the WebSocket and TCP pumps of a channel, and the purge timer; any step may come at any time.
- Broker: UDP transport, the echo request and NOTIFY sealing.
- RateLimit: capacity eviction of the cache and a clock that goes back.
- RelayListener: what happens after `Stop` or `Close`, and a connection's own buffer, which is `RelayConn`.
- RelayConn: real deadlines; a timer may fire in any parked state.
- ChatHistory.Sort: insertion in place of `slices.SortFunc`; among entries with equal time and sender any order is allowed.
- User interface, daemon, bus, configuration, discovery of addresses and reconnect loops.
