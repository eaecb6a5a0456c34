# Columbia: verified models of its protocols and codecs

Columbia lets an iOS client fetch content without linking the fetch to the person. A token issuer
checks Apple's App Attest and hands out blind signatures under a per-device quota. A relay admits
requests that spend one such token and forwards ciphertext to a gateway. A commons cache shares
public feeds. This project models the parts of the repository whose correctness is hard to see in
the code, and proves what they promise. `dafny verify dfyconfig.toml` checks everything.

| files | component |
|---|---|
| `DeviceRecord`, `ReservationProtocol`, `ReservationAnswers`, `DeviceBackend` | the issuer's reservation of counters and quota (token-issuer/state-store.js) |
| `PayloadBinding`, `Issuance` | the binding hash and `handleIssue` (token-issuer/server.js) |
| `Redemption` | spend-once redemption (ohttp-relay/redemption-store.js) |
| `Relay`, `RelayInvariant`, `RelayTheorems`, `RelayAnswers`, `RelayServer` | admission, flights, draining (ohttp-relay/server.js) |
| `EpochWindow`, `KeyCache`, `EpochKeys` | epoch windows on both sides (ohttp-relay/issuer-key-cache.js, token-issuer/epoch-keys.js) |
| `Bytes`, `Cbor`, `CborGrammar`, `AuthData`, `Der`, `Oid` | the parsers of token-issuer/appattest.js against the writers of token-issuer/appattest-fixtures.js |
| `RecencyOrder`, `CommonsCache`, `FeedAnswers`, `FeedCache` | the feed cache (commons-cache/server.js) |
| `RateLimiter` | the token bucket (ohttp-gateway/ratelimit.go) |

**How protocols are modelled.** A protocol is a step system: a state, events with an enabling
condition, and a run as any sequence of enabled events, so a theorem about runs covers every
interleaving. Safety theorems say what an answer implies; the modules named `...Answers` and the
lemmas named `...Exactly` say when each answer is given. Stateful objects are also classes
(`DeviceBackend`, `RelayServer`, `KeyCache`, `EpochKeys`, `Redemption`, `FeedCache`, `Cbor.Reader`,
`Der.Finder`, `RateLimiter`), whose methods are proved to take exactly the step the system describes, or to compute exactly the specification
function the theorems are about. A class has the source's counters, maps and loops; closures and
promises under way are entries of a map or a list, and what is only there to state theorems (logs,
answers given, documents fetched) is ghost.

**Assumptions**, each made once:

- Clocks are monotone, in whole milliseconds (reals in the rate limiter), and epoch division is exact.
- UUIDs and ETags are fresh. A hash does not collide between the two inputs compared.
- Conditional writes are linearizable. A 409 or 412 means the write was not applied, because SDK
  retries are off; every other storage error says nothing about the write, which may still land.
- Node: a response is marked destroyed no later than its 'close' event, 'finish' follows `end()`, and
  a request emits 'aborted' only before its body has ended.

**Properties that hold only under a condition**, each with its exact condition:

- The comment at token-issuer/server.js:134-135 says the separators make the binding preimage
  unambiguous. They do so for the epoch (`EpochIsDetermined`) but not for the batch: one shares its
  preimage with another exactly when it has two messages or more, or a 0x00 in a message
  (`AmbiguousExactlyWhenDivisible`). The check that every message has 256 bytes, made before the hash
  is compared, is what excludes this (`PreimageInjective`).
- The quota is per device and epoch of reservation. Per signing key the bound is the quota when payload
  binding is off and twice the quota when it is on (`SignaturesPerEpochBounded`). The latter is reached
  for every quota, batch size, key and choice of messages, by a device that attests once and then
  asserts, as long as its 32-bit counter can count the batches (`TwiceQuotaIsReached`).
- The cache label MISS marks the request that led a fetch only if that fetch succeeded. Every request that
  waited for a failed fetch is told MISS (`MissIsSharedExactlyOnFailure`, `FollowerOfFailureIsToldMiss`).
- `encodeOid` is not injective. An identifier can be read back from its bytes exactly when its first two
  arcs are what their one byte says (first arc at most 2, 40 * first + second below 256, and second
  below 40 under the first arcs 0 and 1) and its other arcs are below 2^31; any other identifier is
  written like one of these, and no two of these are written alike (`ReadsBackExactlyWritable`,
  `OidIsInjective`, `UnwritableCollide`). The program only encodes the constant at
  token-issuer/appattest.js:61, which meets both conditions (`AppleNonceIsUnambiguous`).

## Model

| member | source | states |
|---|---|---|
| DeviceRecord.WriteEffect | token-issuer/state-store.js:123-141 | a write adds exactly its count to its epoch, leaves the other live epoch alone, never lowers counter or newest epoch, never changes the key, and stores a value that passes `checked` |
| DeviceRecord.ChainChecked | token-issuer/state-store.js:99-109 | every value stored along a chain of decisions passes `checked` and carries the commit id of its writer |
| DeviceRecord.Conservation | token-issuer/state-store.js:130-140 | the usage stored for a live epoch is the initial usage plus everything committed to it, whatever was pruned on the way |
| DeviceRecord.QuotaBound | token-issuer/state-store.js:128-139 | the tokens ever committed to one epoch never exceed a positive quota, along any chain |
| DeviceRecord.Monotone | token-issuer/state-store.js:126-140 | counter and newest epoch never go back and the key never changes, across any stretch of a chain |
| DeviceRecord.CountersIncrease | token-issuer/state-store.js:126-127 | an assertion's counter is strictly above that of every earlier commit, so one value is accepted at most once |
| DeviceRecord.RefusalIsFinal | token-issuer/state-store.js:125-134 | a request refused on one value of the row (other than for an unknown device) could write on no later value |
| DeviceRecord.RowSummarizesLog | token-issuer/state-store.js:123-141 | the row is there exactly when the device is known; its counter, newest epoch and key are exactly the greatest counter, the latest epoch and the one key of all commits |
| DeviceRecord.DecidedByLog | token-issuer/state-store.js:124-140 | a valid request is written if and only if it has the key of all commits, as an assertion a counter above all of them, an epoch no commit exceeds by more than one, and fits what all commits to its epoch left of the quota; each refusal reason and the thrown case has its own condition on the commits |
| ReservationProtocol.RunKeepsInv | token-issuer/state-store.js:43-93 | the protocol invariant holds in every state of every run with stale reads, conflicts, lost acknowledgements and late writes |
| ReservationProtocol.Linearizable | token-issuer/state-store.js:76-91 | in every run, the row's values are the fold of single decisions over the committed requests in commit order, and all pass `checked` |
| ReservationProtocol.QuotaNeverExceeded | token-issuer/state-store.js:118-144 | per epoch, the tokens committed by all replicas in any run stay within a positive quota |
| ReservationProtocol.NoCounterReplay | token-issuer/state-store.js:111-127 | in any run, committed assertion counters strictly increase in commit order for one unchanging key |
| ReservationProtocol.ExactlyOnce | token-issuer/state-store.js:80-90 | a call that answers ok has committed exactly once, a refused or exhausted one never, any call at most once, in every later state |
| ReservationProtocol.ExhaustedWasOvertaken | token-issuer/state-store.js:123-143 | a call that used up its four attempts saw at least four commits of others since it began, and none of its own |
| ReservationAnswers.ReadDecides | token-issuer/state-store.js:124-134 | in any run, a read goes on to write, is refused for a reason, or throws exactly as the requests committed so far by all replicas say |
| ReservationAnswers.CorruptRowIsStuck | token-issuer/state-store.js:99-109 | on a row that fails `checked` nothing is ever committed and every read is unavailable |
| ReservationAnswers.ReadBackAnswers | token-issuer/state-store.js:84-90 | a read-back is ok exactly when the call's own commit is the last one; otherwise a 409 or 412 goes round again or ends the fourth attempt, and anything else is unavailable |
| ReservationAnswers.AnsweredExactlyThen | token-issuer/state-store.js:118-144 | the turn in which a call becomes ok, and the turn in which it becomes unavailable, as if-and-only-if conditions; only a read refuses |
| ReservationAnswers.AnswersStay | token-issuer/state-store.js:116-117 | an answer once given stays |
| ReservationAnswers.ReservesOnceUndisturbed | token-issuer/state-store.js:82-91 | after any run, a fresh request that the commits leave room for is answered ok once its write lands, with its acknowledgement or with it lost, and has committed once |
| DeviceBackend.MemoryDeviceBackend.Get | token-issuer/state-store.js:30-30 | the row stored under the key, if any |
| DeviceBackend.MemoryDeviceBackend.Put | token-issuer/state-store.js:31-36 | stores exactly when the ETag is current and there is room, under a fresh ETag; otherwise nothing changes |
| DeviceBackend.Plan | token-issuer/state-store.js:124-140 | one pass of the loop body computes the single decision |
| DeviceBackend.KeepWindow | token-issuer/state-store.js:135-138 | the loop over the two epochs keeps exactly their non-zero counts |
| DeviceBackend.IssuerState.RunPeer | token-issuer/state-store.js:118-144 | a peer that meets no other commits its decision under a fresh ETag exactly when it may, and otherwise changes nothing |
| DeviceBackend.IssuerState.RunPeers | token-issuer/state-store.js:118-144 | peers that complete meanwhile move the row by single decisions, and change its ETag exactly when they commit |
| DeviceBackend.IssuerState.Attempt | token-issuer/state-store.js:124-141 | one attempt commits once or not at all, goes round again only after a peer's commit, and otherwise answers what the row it read decides |
| DeviceBackend.IssuerState.Reserve | token-issuer/state-store.js:118-144 | the four-attempt loop, with peers committing between read and write: the row moves by single decisions, ok means exactly one commit, giving up means four peer commits, unavailable means a malformed request, a value that throws or a full store, no other row moves; undisturbed, the answer is that of the row it found |
| PayloadBinding.FeedHash | token-issuer/server.js:136-144 | the bytes fed to the hash are the preimage of epoch and batch |
| PayloadBinding.PreimageInjective | token-issuer/server.js:136-144 | two (epoch, batch) pairs of full-size messages with the same preimage are equal |
| PayloadBinding.EpochIsDetermined | token-issuer/server.js:136-144 | whatever the messages, equal preimages have equal epochs |
| PayloadBinding.AmbiguousWithoutLengthCheck | token-issuer/server.js:133-135 | two batches of different lengths with the same preimage |
| PayloadBinding.AmbiguousExactlyWhenDivisible | token-issuer/server.js:133-144 | without the length check a batch shares its preimage with another if and only if it has at least two messages or a message with a 0x00 in it |
| PayloadBinding.BoundEpochIsExact | token-issuer/server.js:149-158 | a client is matched exactly when its batch is the one presented and its epoch is current or previous, and then with that epoch |
| Issuance.Decode | token-issuer/server.js:229-246 | the loop returns all messages in order, or the complaint about the first malformed one |
| Issuance.LabelIsRecent | token-issuer/server.js:262-272 | an admitted batch is signed for the current epoch or, with binding, the previous |
| Issuance.AdmitsExactly | token-issuer/server.js:222-272 | a batch is admitted if and only if it has 1 to the limit entries, all of 256 bytes, and with binding the hash presented is that of this batch in the current or previous epoch, and then as it is and for that epoch; each of the four rejections has its own condition |
| Issuance.ResponseAnswersBatch | token-issuer/server.js:310-347 | in any run, a response answers one submitted batch and no other does: one signature per message, under the key of the epoch the batch was admitted to, never more than the limit |
| Issuance.IssuedWithinCharged | token-issuer/server.js:310-344 | the signatures handed out under one signing epoch are covered by the charges to that epoch and, with binding, the next |
| Issuance.SignaturesPerEpochBounded | token-issuer/server.js:262-344 | in any run, one device receives at most twice the quota of signatures under one epoch's key with binding, at most the quota without |
| Issuance.Served | token-issuer/server.js:310-345 | after any run, a fresh admitted request that the row would let write is answered with its signatures once left undisturbed |
| Issuance.UsesRoom | token-issuer/server.js:262-345 | from any reachable row, also one that has already seen the next epoch, a device with room for some messages gets all of them signed, in batches of any allowed size bound to the epoch or the one before, as long as its 32-bit counter lasts |
| Issuance.TwiceQuotaIsReached | token-issuer/server.js:264-277 | for every positive quota, allowed batch size, key and 2 * quota messages, a fault-free run with one attestation and then assertions presents exactly these messages and gets a signature for each under one epoch's key |
| Redemption.SpendOnce | ohttp-relay/redemption-store.js:28-47 | in any run of any number of replicas, at most one call for a spend answers true, and then the row carries its claim |
| Redemption.FalseMeansTaken | ohttp-relay/redemption-store.js:39-46 | the answer false means a row with another claim exists |
| Redemption.NothingIsUnsaid | ohttp-relay/redemption-store.js:40-44 | rows once created and answers once given never change |
| Redemption.ReadBackAnswers | ohttp-relay/redemption-store.js:39-45 | a read-back answers true exactly when the call's own create has landed, false exactly when another claim holds the row, and is unavailable exactly when there is no row |
| Redemption.AnsweredExactlyThen | ohttp-relay/redemption-store.js:31-46 | the turn in which a call is honoured, turned away or unavailable, as if-and-only-if conditions in any run |
| Redemption.FreshSpendIsHonoured | ohttp-relay/redemption-store.js:38-45 | after any run, a fresh call for a well-formed spend, once undisturbed, answers whether the spend was free, with its acknowledgement or with it lost |
| Redemption.MemoryRedemptionStore.Redeem | ohttp-relay/redemption-store.js:21-26 | unavailable exactly for a key not held while full; an answer says whether this very spend was presented before |
| Redemption.JoinKeyInjective | ohttp-relay/redemption-store.js:22-22 | the joined key tells spends apart when fingerprints have no colon |
| Redemption.BoundedAcceptsFirst | ohttp-relay/redemption-store.js:23-25 | a store of capacity n has accepted exactly the first n distinct keys |
| Redemption.BoundedAnswers | ohttp-relay/redemption-store.js:21-26 | call by call the bounded store answers as the unbounded one, except that it is unavailable for a key it has not accepted once full; it accepts a key at most once |
| Redemption.BoundedAnswersOnSpends | ohttp-relay/redemption-store.js:21-26 | the same for (fingerprint, nullifier) pairs with colon-free fingerprints: an answer says whether that pair was presented before |
| Redemption.AgreesExactlyWithinCapacity | ohttp-relay/redemption-store.js:18-27 | the bounded store agrees with an unbounded one on a run if and only if the run has at most `maxKeys` distinct keys |
| RelayInvariant.RunKeepsInv | ohttp-relay/server.js:331-600 | the relay invariant holds in every state of every run |
| RelayTheorems.CountersAreExact | ohttp-relay/server.js:431-450 | `inflight` and `clientInflight` are the exact counts of held slots, without zero entries and within their caps |
| RelayTheorems.ReleasedAtMostOnce | ohttp-relay/server.js:439-470 | a slot is released at most once and never while authorization is pending |
| RelayTheorems.PostHoldsSlot | ohttp-relay/server.js:494-497 | the slot of a request is held while its gateway POST is incomplete |
| RelayTheorems.OneConfigFetch | ohttp-relay/server.js:349-362 | at most one config fetch is incomplete, even when one completes while it is being built |
| RelayTheorems.SocketBudget | ohttp-relay/server.js:143-145 | one client's incomplete POSTs and all incomplete config fetches use at most 127 of the 128 sockets |
| RelayTheorems.ExactlyOneOutcome | ohttp-relay/server.js:525-600 | a caller has no outcome while it waits and exactly one afterwards, and nobody waits on a completed flight |
| RelayTheorems.OnlyLastCallerCancels | ohttp-relay/server.js:546-556 | a flight completes only by its exchange or because its last caller left |
| RelayTheorems.NothingAdmittedWhileDraining | ohttp-relay/server.js:164-169 | draining never ends and no request is admitted after it began |
| RelayTheorems.ExitsExactlyWhenDrained | ohttp-relay/server.js:160-163 | short of the hard deadline, the process has exited with 0 exactly when HTTP is closed and no slot is held while draining |
| RelayTheorems.ClosingReleases | ohttp-relay/server.js:451-470 | when a response closes its slot is given back in that turn, or in the turn in which pending authorization settles |
| RelayTheorems.NothingLeaks | ohttp-relay/server.js:440-470 | in any run, once every admitted request's response has closed and no authorization is pending, no slot is held and the counters are empty, so a draining process with HTTP closed has exited with 0 |
| RelayAnswers.AdmittedExactly | ohttp-relay/server.js:366-439 | a request is admitted if and only if the relay is not draining, it is not rate limited and both caps have room; any other is told 503 or 429 and changes nothing else |
| RelayAnswers.PostIsAuthorized | ohttp-relay/server.js:456-497 | in any run, a gateway POST was opened by the end of a body whose request had been authorized once, alive, with a yes; no request gets two |
| RelayAnswers.ForwardedExactly | ohttp-relay/server.js:470-497 | the end of a body opens exactly one POST if the response is alive and the body was not aborted or too large since authorization, and none otherwise |
| RelayAnswers.ForwardedStays | ohttp-relay/server.js:494-497 | a body once forwarded has exactly that one POST in every later state |
| RelayAnswers.RefusedIsNeverForwarded | ohttp-relay/server.js:456-469 | a request whose authorization is denied or throws is told 401 or 503 in that turn unless its socket is gone, and never gets a POST |
| RelayAnswers.PassedIsRead | ohttp-relay/server.js:456-474 | a request authorized while alive keeps its slot, with nothing sent to it yet |
| RelayAnswers.GivenBackExactly | ohttp-relay/server.js:440-491 | a held slot is given back in a turn if and only if authorization settles for a request that is gone, or after it the body is aborted or too large or the response is flushed or closes |
| RelayAnswers.WaitingCallerIsTold | ohttp-relay/server.js:529-562 | a waiting caller is sent the status of its exchange, skipped if its socket is gone, logged as disconnected if it closes, and goes on waiting in every other turn |
| RelayAnswers.SentExactly | ohttp-relay/server.js:456-541 | on a response that has arrived, a turn sends 401 or 503 when authorization fails, 413 when the body is too large, the gateway's status when the exchange ends, and nothing otherwise |
| RelayAnswers.ConfigRequestWaits | ohttp-relay/server.js:336-363 | a config request is told 503, 200 or 502 at once, or waits for the one incomplete config fetch, opened exactly if there was none; one whose socket is gone leaves others' fetch running and cancels its own |
| RelayAnswers.FlagsAreExact | ohttp-relay/server.js:160-169 | the relay drains exactly from the shutdown signal on, HTTP is closed exactly after its callback, and exit 1 means the hard deadline |
| RelayServer.Server.FinishDrain | ohttp-relay/server.js:161-163 | exits exactly when draining, HTTP is closed and nothing is in flight |
| RelayServer.Server.ReleaseSlot | ohttp-relay/server.js:440-450 | the closure performs the release turn |
| RelayServer.Server.SettleCallers | ohttp-relay/server.js:533-541 | the loop answers every caller that can still be answered, in joining order, and gives each one outcome |
| RelayServer.Server.Finish | ohttp-relay/server.js:529-543 | completes a flight once and answers its callers in joining order |
| RelayServer.Server.OnCallerClosed | ohttp-relay/server.js:546-556 | removes the caller and cancels only when none is left |
| RelayServer.Server.Add | ohttp-relay/server.js:544-562 | joins unless the flight has completed, and leaves at once when already destroyed |
| RelayServer.Server.Proxy | ohttp-relay/server.js:525-600 | starts a flight whose first caller may complete it before it is returned |
| RelayServer.Server.OnRelayRequest | ohttp-relay/server.js:366-439 | admission performs its turn, whose outcome `AdmittedExactly` states, and keeps the invariant |
| RelayServer.Server.OnConfigRequest | ohttp-relay/server.js:336-363 | serves, joins or starts the config flight, and keeps the invariant |
| RelayServer.Server.OnAuthorized | ohttp-relay/server.js:456-470 | the settled authorization performs its turn, whose outcomes `RefusedIsNeverForwarded` and `PassedIsRead` state, and keeps the invariant |
| RelayServer.Server.OnAborted | ohttp-relay/server.js:475-479 | an aborted body gives its slot back and keeps the invariant |
| RelayServer.Server.OnBodyTooLarge | ohttp-relay/server.js:483-491 | an oversized body is refused once, gives its slot back and keeps the invariant |
| RelayServer.Server.OnBodyEnd | ohttp-relay/server.js:494-497 | forwards unless aborted or destroyed, and keeps the invariant |
| RelayServer.Server.OnResponseClosed | ohttp-relay/server.js:452-452 | both close listeners in their order, keeping the invariant |
| RelayServer.Server.RunCloseListeners | ohttp-relay/server.js:558-560 | the flight's listener runs before the slot is given back |
| RelayServer.Server.OnResponseFinished | ohttp-relay/server.js:451-451 | a flushed response gives its slot back and keeps the invariant |
| RelayServer.Server.OnGatewayExchangeDone | ohttp-relay/server.js:579-596 | the end of the exchange completes the flight and keeps the invariant |
| RelayServer.Server.BeginShutdown | ohttp-relay/server.js:164-169 | draining starts once and keeps the invariant |
| RelayServer.Server.OnHttpClosed | ohttp-relay/server.js:161-168 | the close callback performs its turn and exits when nothing is held |
| EpochWindow.ExpiryIsNextEpoch | ohttp-relay/issuer-key-cache.js:37-37 | the expiry in milliseconds means exactly "at most one epoch later" |
| KeyCache.ParseDocument | ohttp-relay/issuer-key-cache.js:24-43 | the validation loop accepts exactly the documents the specification accepts and builds their entries |
| KeyCache.ParsesExactly | ohttp-relay/issuer-key-cache.js:24-43 | a document is accepted if and only if schema, suite, epoch length, number of keys and epoch are right, every key is for the current or previous epoch, imports and has the identifier of its fingerprint, no epoch repeats and the current one is there; what is held are its identifiers, each with the fingerprint of its key |
| KeyCache.KeyUsableExactlyWhileDeclared | ohttp-relay/issuer-key-cache.js:30-42 | a parsed key is unexpired at a later time if and only if it is declared for an epoch e with e <= epoch(t) <= e+1 |
| KeyCache.ParsedEpochs | ohttp-relay/issuer-key-cache.js:28-41 | a parsed document has one key per epoch, current or previous only |
| KeyCache.RelayAcceptsExactlyLiveEpochs | token-issuer/epoch-keys.js:74-77 | the relay accepts an epoch's key exactly while the issuer's `isLive` holds of that epoch |
| KeyCache.IssuerKeyCache.Refresh | ohttp-relay/issuer-key-cache.js:44-52 | fetches never overlap and start at least the back-off apart; keys do not change |
| KeyCache.IssuerKeyCache.FetchSettled | ohttp-relay/issuer-key-cache.js:48-50 | only a valid document replaces the keys; a failed fetch extends no expiry |
| KeyCache.IssuerKeyCache.Answer | ohttp-relay/issuer-key-cache.js:57-60 | hands out a key exactly when the document held declares it for an epoch covering the reading; unavailable exactly when it hands out none and nothing is unexpired |
| KeyCache.IssuerKeyCache.AwaitRefresh | ohttp-relay/issuer-key-cache.js:44-52 | a fetch is started exactly when none is under way, there is a URL and the back-off is over; a valid document that was awaited is held afterwards, unless another call fetched a later one; otherwise the cache holds what it had |
| KeyCache.IssuerKeyCache.Get | ohttp-relay/issuer-key-cache.js:54-61 | the whole lookup, with other calls running while it waits: a key is handed out if and only if it is declared for an epoch covering the return; a fresh key starts no fetch and is handed out unless it expires between the two readings; any other lookup starts a fetch if it may and answers from the document awaited; without a valid new document nothing outlives its old expiry |
| EpochKeys.ValidateManifest | token-issuer/epoch-keys.js:82-97 | the validation that collects epochs accepts exactly the valid manifests |
| EpochKeys.ImportAll | token-issuer/epoch-keys.js:103-106 | all keys import and no two share a fingerprint |
| EpochKeys.BuildTable | token-issuer/epoch-keys.js:107-107 | the table has exactly the manifest's epochs, each with its own key |
| EpochKeys.Load | token-issuer/epoch-keys.js:102-110 | all keys import with distinct fingerprints and give the table, or none is usable |
| EpochKeys.EpochsHaveDistinctKeys | token-issuer/epoch-keys.js:105-107 | two epochs of a loaded table never share a key |
| EpochKeys.EpochKeyProvider.KeysForEpoch | token-issuer/epoch-keys.js:114-121 | a key is returned exactly for a configured epoch that is live both before and after the await |
| Bytes.BigEndianReads | token-issuer/appattest.js:150-175 | a number written big-endian in enough bytes is read back |
| Cbor.Reader.ReadLen | token-issuer/appattest.js:150-175 | the five length forms advance the position as the specification says |
| Cbor.Reader.Item | token-issuer/appattest.js:103-148 | the position-moving reader computes the decoding function and stops at its end position |
| Cbor.Reader.Body | token-issuer/appattest.js:110-147 | the switch on the major type reads what follows a head |
| Cbor.Reader.ReadArray | token-issuer/appattest.js:129-134 | the array loop reads the items in order |
| Cbor.Reader.ReadMap | token-issuer/appattest.js:135-144 | the map loop leaves what setting each pair in turn leaves |
| Cbor.HeadReads | token-issuer/appattest-fixtures.js:166-196 | every head the encoders write is read back as its major type and number |
| Cbor.RoundTrip | token-issuer/appattest.js:95-175 | decoding an encoding followed by any bytes returns the value and the exact length if it nests at most 16 deep, and fails for its depth otherwise |
| Cbor.EncodingIsPrefixFree | token-issuer/appattest-fixtures.js:166-196 | at any depth, no encoding is a prefix of another and different values encode differently |
| Cbor.ReadAdvances | token-issuer/appattest.js:103-148 | every successful read of any bytes consumes at least one byte and stays in bounds |
| Cbor.ItemIgnoresSuffix | token-issuer/appattest.js:103-175 | appended bytes change no successful read |
| CborGrammar.ReadsExactlySpelled | token-issuer/appattest.js:95-175 | for all bytes, a read gives a value and its end if and only if the bytes between spell that value in the accepted grammar |
| CborGrammar.SpellingIsUnique | token-issuer/appattest.js:95-175 | bytes spell at most one value, and no proper prefix of a spelling is one |
| CborGrammar.MapHoldsLast | token-issuer/appattest.js:135-144 | of the pairs with one integer or text as key a decoded map holds the last, of all others every one, and no such key twice |
| CborGrammar.EncodingSpells | token-issuer/appattest-fixtures.js:166-196 | the encoders produce spellings of what they encode |
| AuthData.ParseAuthenticatorData | token-issuer/appattest.js:297-322 | the offset-moving parser computes the parsing function, error cases included |
| AuthData.CoseRoundTrip | token-issuer/appattest.js:327-348 | a written COSE key followed by anything is parsed to its point, or refused exactly when off the curve |
| AuthData.AttestationRoundTrip | token-issuer/appattest-fixtures.js:225-234 | attestation data are parsed back field by field, whatever follows, for every flags byte and both options |
| AuthData.AttestationIsInjective | token-issuer/appattest-fixtures.js:225-234 | two attestations with equal bytes have equal fields |
| AuthData.AssertionRoundTrip | token-issuer/appattest-fixtures.js:238-244 | an assertion is parsed back whatever its flags and whatever follows |
| AuthData.AssertionNeedsTheOption | token-issuer/appattest.js:306-310 | with the credential expected, an assertion is refused exactly when its AT bit is set |
| AuthData.KeyParsesExactly | token-issuer/appattest.js:315-348 | bytes parse to a point if and only if a prefix spells a map with the five bindings of that EC2 key, on the curve |
| AuthData.ParsedFieldsRebuildInput | token-issuer/appattest.js:297-322 | for arbitrary input, printing what was parsed gives back the input up to the key, and what follows begins with a spelling of the key |
| Der.DerReadTLV | token-issuer/appattest.js:185-201 | the shifting loop computes the header, with the length as a signed 32-bit number |
| Der.LengthReadsExactly | token-issuer/appattest.js:189-197 | a length is read if and only if it is one byte below 0x80 or one to four announced bytes, as a big-endian signed 32-bit number |
| Der.Finder.TestExtension | token-issuer/appattest.js:237-254 | the OID test and sibling scan of one SEQUENCE; an error inside only ends the test |
| Der.Finder.WalkFrom | token-issuer/appattest.js:226-263 | the recursive walk keeps the first result of the walk function |
| Der.FindExtensionValue | token-issuer/appattest.js:222-267 | the whole search over a certificate |
| Der.DerLen | token-issuer/appattest-fixtures.js:32-38 | the prepending loop writes the length octets |
| Der.WalkRefines | token-issuer/appattest.js:226-263 | over any bytes that spell a forest, the walk equals the first extension in its pre-order down to the depth limit |
| Der.FirstExtensionIsFirst | token-issuer/appattest.js:236-254 | what is returned is the value of the first node that is such an extension |
| Der.NoExtension | token-issuer/appattest.js:222-267 | nothing is returned exactly when no node is such an extension |
| Der.WritingSpells | token-issuer/appattest-fixtures.js:40-51 | written nodes with lengths below 2^31 spell themselves, for any readable form of headers |
| Der.FindsFirstExtension | token-issuer/appattest.js:222-267 | on the bytes of every well-formed forest the search returns the first extension no deeper than 24 |
| Der.LimitHidesNothing | token-issuer/appattest.js:227-227 | the depth limit hides a node if and only if there are more than 25 levels |
| Der.FindsFirstOfAll | token-issuer/appattest.js:222-267 | with at most 25 levels the search is over the whole tree |
| Der.NonceRoundTrip | token-issuer/appattest.js:271-283 | the nonce parser reads back exactly the nonces of 32 bytes, whatever follows |
| Der.NonceIsExtracted | token-issuer/appattest-fixtures.js:104-110 | finding and parsing give the nonce of the certificate's first nonce extension |
| Oid.EncodeOid | token-issuer/appattest.js:205-217 | the nested loops compute the base-128 form |
| Oid.EncodeArc | token-issuer/appattest.js:210-213 | the digit loop computes one arc |
| Oid.ReadsBackExactlyWritable | token-issuer/appattest.js:205-217 | an independent reader gives every encoding back as a writable identifier with the same encoding, and as the one written if and only if that one is writable |
| Oid.OidIsInjective | token-issuer/appattest.js:240-241 | equal bytes of two writable identifiers mean the same identifier |
| Oid.UnwritableCollide | token-issuer/appattest.js:208-213 | 2.999 is written like 1.15, and an arc of 2^31 like the arc 0 |
| Oid.AppleNonceIsUnambiguous | token-issuer/appattest.js:61-61 | the bytes the search looks for belong to no other writable identifier |
| RecencyOrder.LastWritesMeaning | commons-cache/server.js:181-187 | the recency order has exactly the written keys, each once, sorted by last write |
| RecencyOrder.PutIsRecency | commons-cache/server.js:183-187 | writing into the bounded order gives the end of the full recency order |
| CommonsCache.KeysAreInjective | commons-cache/server.js:278-278 | different kinds, ids and sorts never share a cache key |
| CommonsCache.RunKeepsInv | commons-cache/server.js:276-325 | the cache invariant holds in every state of every run |
| CommonsCache.OrderIsRecency | commons-cache/server.js:183-187 | after any run the key order is the last MAX_ENTRIES distinct keys of the write log in last-write order |
| CommonsCache.OneColdFetchPerKey | commons-cache/server.js:309-314 | no two unsettled cold fetches share a key, and each is the one that callers join |
| CommonsCache.OneRefreshPerEntry | commons-cache/server.js:288-300 | an entry's flag is set exactly while one fetch refreshes it, never two |
| CommonsCache.ServedFromOwnFetch | commons-cache/server.js:283-324 | every body served came from a settled 200 fetch for the same kind, id and sort, with an age inside the window of its cache state |
| CommonsCache.EachFetchStoredOnce | commons-cache/server.js:310-319 | every write stores a different settled 200 fetch, however many calls waited for it |
| CommonsCache.MissIsSharedExactlyOnFailure | commons-cache/server.js:310-324 | two different answers from one fetch are both labelled MISS if and only if the fetch failed |
| CommonsCache.FollowerOfFailureIsToldMiss | commons-cache/server.js:323-324 | for every request and failure there is a run in which leader and follower of one fetch are both told MISS |
| FeedAnswers.WrittenThen | commons-cache/server.js:290-319 | every write happens in the turn in which a good refresh settles or the leader of a good fetch resumes, and its entry has that fetch's body and that turn's time |
| FeedAnswers.GoodFetchIsStoredOnce | commons-cache/server.js:292-319 | in any run, a 200 is stored exactly once: that of a refresh when it settles, that of a cold fetch when its leader has returned, not before |
| FeedAnswers.RequestIsAnswered | commons-cache/server.js:276-314 | a request for one of the last MAX_ENTRIES keys is answered from its latest write, HIT within the TTL without a fetch and STALE within the stale window with one refresh under way; any other waits for the one cold fetch of its key, started exactly if there was none |
| FeedAnswers.WaiterIsAnswered | commons-cache/server.js:315-324 | a call that waited returns its fetch's outcome as MISS or COALESCED, and the leader of a 200 leaves it as the latest write of its key |
| FeedAnswers.AnsweredOnce | commons-cache/server.js:276-324 | in any run, every request has been answered exactly once or is still waiting |
| FeedCache.Cache.SetKey | commons-cache/server.js:184-186 | delete, set and the eviction loop on the insertion-ordered map: keys in bounded recency order, the new value under the key, the others as before |
| FeedCache.Cache.CacheSet | commons-cache/server.js:183-187 | delete, set and evict perform the store turn |
| FeedCache.Cache.GoCold | commons-cache/server.js:309-314 | joins the fetch of the key or leads a new one |
| FeedCache.Cache.LookUp | commons-cache/server.js:281-303 | the hit, stale and cold branches perform their turn |
| FeedCache.Cache.GetCachedFeed | commons-cache/server.js:276-314 | the part before the await performs its turn and keeps the invariant |
| FeedCache.Cache.FetchSettled | commons-cache/server.js:290-299 | what runs when a fetch settles performs its turn and keeps the invariant |
| FeedCache.Cache.RefreshFinished | commons-cache/server.js:299-299 | the flag is reset and the invariant kept |
| FeedCache.Cache.CallResumed | commons-cache/server.js:315-324 | the part after the await returns its answer with its label, performs its turn, whose outcome `WaiterIsAnswered` states, and keeps the invariant |
| RateLimiter.NewGlobalRateLimiter | ohttp-gateway/ratelimit.go:33-44 | no limiter exactly for a rate that is not positive, else a full bucket |
| RateLimiter.GlobalRateLimiter.Allow | ohttp-gateway/ratelimit.go:49-68 | the verdict and the new bucket are those of the refill-and-take step |
| RateLimiter.AllowAny | ohttp-gateway/ratelimit.go:46-52 | a missing limiter allows everything |
| RateLimiter.RetryAfterSeconds | ohttp-gateway/ratelimit.go:73-82 | the hint of the bucket, or 1 without a limiter |
| RateLimiter.FoundIsLeastLeft | ohttp-gateway/ratelimit.go:57-62 | the tokens a call finds are the least budget left over all windows ending at it |
| RateLimiter.AllowsExactlyWithinBudget | ohttp-gateway/ratelimit.go:49-68 | a call is allowed if and only if with it no window ending there exceeds what the rate permits |
| RateLimiter.RateBound | ohttp-gateway/ratelimit.go:30-44 | in any run at most qpm + qpm*T/60 calls are allowed over a span of T seconds |
| RateLimiter.HintIsCeiling | ohttp-gateway/ratelimit.go:73-82 | the hint is the ceiling of 60/qpm for every positive rate |
| RateLimiter.WaitingHelps | ohttp-gateway/ratelimit.go:70-82 | a call that comes the hinted time after the last one, in any run, is allowed |

## Left out

- Cryptography (blind RSA, RSA-PSS, ECDSA, X.509 chains, HPKE): foreign code. Hashes, key import and the curve test are parameters.
- App Attest validation inside `handleIssue`: which verified request reaches the reservation is left open, so the bounds hold whatever it decides. The run of `TwiceQuotaIsReached` uses only requests of the kind it hands on: an attestation with counter 0 from a device without a row, and assertions by the registered key with the next counter.
- Azure SDK, sockets, HTTP parsing, timers, deadlines and `bounded`: only their outcomes appear, as events that may happen or not.
- `azureDeviceBackend.initialize` and the salt fingerprint: a failed initialisation is the failure event of a call.
- Devices other than one in `ReservationProtocol`: rows are independent; `Reserve` proves that no other row moves.
- UTF-8 decoding of CBOR texts, which are kept as bytes; map keys in the round trip are integers and texts.
- AuthData.CoseRoundTrip: whether a point is on P-256 is a parameter, because node's key import decides it.
- Der.Finder.TestExtension: a sibling length of 2^31 or more reads as negative and sends the scan back; the outcome is then `Backwards`, which stands for behaviour that is not modelled.
- Der.Finder.WalkFrom: the same for the length of any node the walk meets.
- Der.FindExtensionValue: the same; on certificates whose lengths are below 2^31 `Backwards` does not occur (`Der.FindsFirstExtension`).
- Der.NonceRoundTrip: bounds the nonce so that the three nested lengths stay below 2^31.
- Der.DerLen: lengths below 2^31 only, because the writer's 32-bit shift cuts larger ones.
- Non-numeric OID parts, for which `parseInt` yields NaN.
- Legacy single-key mode of `createEpochKeyProvider`, which has no epoch table.
- Rate-limit buckets and the config cache lifetime of the relay: whether a request is rate limited or the config is cached is an input of the turn.
- The imgur resolvers, which repeat `getCachedFeed`; their keys can coincide with a feed key, so cache claims are about the two kinds of `getCachedFeed`.
- A bound of one upstream fetch per key over cold fetches and refreshes together, which the code does not keep.
- A negative `COMMONS_MAX_ENTRIES`, with which the eviction loop would not end.
- Floating point in the rate limiter: tokens and seconds are reals.
- Header, content-type and environment checks and logging: each is one comparison with a constant.
- `setForTest`: a hook that production code does not call.
- `proto_codec.go`: its two directions are not inverses, since the request encoder writes no path and only six methods.
- `handler.go`, `gateway.go` and `main.go`: wiring around the OHTTP library, without state of their own.
