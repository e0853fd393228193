# Vox Desktop: a verified model of its message ratchet, secret store and local tables

This project models the stateful parts of the Vox desktop messenger in Dafny and proves what
holds over every run of them.

- **The ratchet** (`Labels`, `Hkdf`, `RatchetMessage`, `RatchetSteps`, `DoubleRatchet`,
  `RatchetKeys`, `RatchetProtocol`, `RatchetOverflow`). The session object and its catch-up loop are proved against a
  step function; the delivery guarantees are proved for any run of a sender and any run of a receiver
  that share a secret, the receiver being handed arbitrary byte strings. That covers every way in which
  a channel can lose, repeat, reorder or replace frames, and calls that fail.
- **Durable secrets** (`Base64`, `Base64Text`, `JsonDocs`, `JsonWitness`, `DurableMap`, `Vaults`,
  `PrekeyQueue`, `Prekeys`, `SenderKeys`, `Accounts`, `AuthSteps`, `AuthServices`, `AuthOutcomes`,
  `AuthRuns`, `AuthTokens`). The vault
  object, with its sealed JSON file, refines a plain durable map; the one-time prekeys are a queue
  encoded inside it; the sign-in service keeps session, bearer token, stored token and accounts table
  in step, and what failing saves do to tokens and logouts is settled case by case.
- **Local tables** (`SyncTable`, `Syncing`, `Transport`, `MessageTable`, `Envelopes`, `Merging`,
  `Polling`, `Search`, `Jobs`, `Outbox`, `Attachments`). Repeated pulls, repeated envelopes and the
  search index converge to what one clean pass gives, with the exact conditions where flags are stale
  or writes fail; outbox rows and jobs stay matched but for messages that come back as envelopes; the
  attachment cache stays true to the server.

`Runs` holds the induction principles for runs of a state machine that all of these use.

## How things are represented

- Text is its UTF-8 bytes; a 32-bit `int` is `int32`. `++` on a counter that holds 2^31 - 1 is
  undefined in C++; the model wraps it, and a run is `Defined` when no call does it.
- Cryptographic primitives are unknown functions with the guarantees of `Primitives.Functions.Lawful`:
  output sizes, and that an AEAD ciphertext opens again. Neither secrecy nor unforgeability is assumed.
  Only the vault's treatment of a wrong password needs more: that the file at hand does not open under
  the password at hand (`Vaults.ToldApart`).
- UTF-8 decoding is an unknown function. `Transport.IsText` says that it leaves a text alone, which it
  does not when it repairs the bytes or skips a byte order mark.
- JSON is a datatype with a printer and a parser that are inverse on arrays and objects
  (`JsonWitness` has such a pair). Random draws, clocks, server answers, and whether a write or commit
  works are parameters.
- SQL tables are maps or sequences of rows with the columns and conditions of the statements. A file
  commit is one step that works or does not.
- Each object the source updates in place is a class. Its methods are proved equal to a step function
  on values (for the vault: on the abstract map), and the theorems are about runs of those functions.
- What a step leaves behind is also stated without the functions it is made of: which bytes are hashed
  or sealed under which (`RatchetKeys`, `FileLayout`, `QueueLayout`), which characters an encoding has
  (`Base64Text`), which token is sent (`AuthOutcomes`), and what each column of a row holds.

## Where the code does less than one might expect

Each of these has an exact condition in the table below, and a lemma showing the other side.

- HKDF stops at 254 blocks, one short of the 255 of section 2.3 of RFC 5869 (`AgreesWithRfc5869`).
- Accepting a frame under counter 2^31 - 1 takes the receive counter back, and nothing else does
  (`CounterFallsIff`). Whether the same frame is then accepted again depends on the primitives
  (`RedeliveryAfterOverflow`; both happen: `OverflowCanAcceptTwice`, `OverflowCanRejectRedelivery`).
- Reopening the vault between a change of the prekey queue that was not saved and the next save takes
  the queue back: keys are handed out twice or lost (`UnsavedStretchForgotten`, `UnsavedConsumeRepeats`).
  With working saves nothing is (`SavedKeysConserved`). Unsaved secrets are lost on reopening
  (`ReopenRestoresIff`).
- A repeated pull that stops part-way can take rows back to older versions until the next complete
  pull (`RepullCanRegress`, `PartialRepullHarmlessIff`).
- The self-conversation flag remembered for the open conversation is that of the last conversation
  whose summary was fetched (`FlagIsLastFetched`, `FlagsStayRightIff`). When it is stale, the same
  envelope pushed and loaded gives different rows exactly if the two rules for the outgoing side, by
  device and by user, differ on it (`PushAgreesIff`, `StaleFlagDivergesIff`).
- The empty text does not survive the transport wrapping, nor does one that the UTF-8 decoder changes,
  such as one that starts with a byte order mark where that is skipped (`TransportRoundTrip`,
  `ByteOrderMarkLost`).
- An outbox message that comes back as an envelope is Queued no longer, while its job stays
  (`EchoUnqueuesIff`).
- A logout leaves the poll cursor where it is, so the next user's polls pass over what lies before it
  in that user's log (`NextUserSkips`); from the cursor on, `PollsCoverLogIff` holds as before.
- A rotation from the largest epoch wraps below every stored one (`RotationIsFreshIff`).
- A message whose row could not be written is lost to all later polls that do not start over, because
  the poll cursor has moved on (`FailedWriteLosesEnvelope`); the table covers the log exactly when each
  envelope was written at some delivery, the last time on its right side (`PollsCoverLogIff`).
- A logout of which nothing could be stored is undone by a restart (`UnstoredLogoutUndone`,
  `RestartUndoesLogoutIff`).
- A logout goes by the active account, which need not be the session's after a login whose account
  row could not be stored (`LogoutForgetsOwnTokenIff`, `LogoutForgetsWrongToken`).

## Model

| member | source | states |
|---|---|---|
| Labels.LabelsUnambiguous | src/crypto/DoubleRatchetSession.cpp:13-18 | message and chain labels never coincide and distinct integers, negative ones included, give distinct labels |
| Labels.DigitsValue | src/crypto/DoubleRatchetSession.cpp:16 | decimal printing can be read back |
| Labels.LabelText | src/crypto/DoubleRatchetSession.cpp:13-18 | a label is "msg:" or "chain:" and the number |
| Hkdf.HkdfSha256 | src/crypto/HkdfSha256.cpp:8-50 | the expand loop with its wrapping 8-bit counter returns the standard's output truncated, or nothing for an empty key, a non-positive length or more than 8128 bytes |
| Hkdf.AgreesWithRfc5869 | src/crypto/HkdfSha256.cpp:29-46 | over the lengths RFC 5869 allows, the output is the standard's exactly up to 8128 bytes |
| Hkdf.ShorterIsPrefix | src/crypto/HkdfSha256.cpp:48-49 | a shorter output is a prefix of a longer one |
| Hkdf.BlockAt | src/crypto/HkdfSha256.cpp:30-41 | block i of the output is T(i) |
| Hkdf.BlocksChain | src/crypto/HkdfSha256.cpp:18-49 | by its own bytes, each block of 32 of an output is the HMAC, under the HMAC of the input key under the salt, of the block before it, the info and the block's number |
| RatchetMessage.DeserializeSerialize | src/crypto/DoubleRatchetSession.cpp:22-46 | any 32-bit counter, 12-byte nonce and ciphertext of at least 16 bytes survive serialization |
| RatchetMessage.SerializeDeserialize | src/crypto/DoubleRatchetSession.cpp:22-46 | every byte string of at least 32 bytes is the frame of the message it parses to |
| RatchetMessage.DeserializeInjective | src/crypto/DoubleRatchetSession.cpp:33-46 | two different frames never parse to the same message |
| RatchetMessage.FrameLayout | src/crypto/DoubleRatchetSession.cpp:22-31 | the counter comes first with its highest byte first, negative ones in two's complement, then nonce and ciphertext |
| DoubleRatchet.DoubleRatchetSession.FromSharedSecret | src/crypto/DoubleRatchetSession.cpp:48-57 | both chains start from the HKDF output for the secret, both counters at zero |
| DoubleRatchet.DoubleRatchetSession.AdvanceChain | src/crypto/DoubleRatchetSession.cpp:123-126 | advances one chain and leaves the other alone |
| DoubleRatchet.DoubleRatchetSession.EncryptMessage | src/crypto/DoubleRatchetSession.cpp:59-78 | state and frame after a call are those of EncryptStep, in any state |
| DoubleRatchet.DoubleRatchetSession.DecryptMessage | src/crypto/DoubleRatchetSession.cpp:80-103 | state and answer after a call, with the catch-up loop run before authentication, are those of DecryptStep, in any state |
| RatchetKeys.BaseKeyBytes | src/crypto/DoubleRatchetSession.cpp:48-57 | both chains begin with HMAC(HMAC("vox-ratchet-chain", secret), "vox-e2ee-v1/chain" and a byte 1) |
| RatchetKeys.ChainKeyBytes | src/crypto/DoubleRatchetSession.cpp:123-126 | a chain key is the HMAC of "chain:" and its number under the one before it |
| RatchetKeys.SentFrame | src/crypto/DoubleRatchetSession.cpp:59-78 | in a reachable state the frame carries the send counter, the first 12 bytes of HMAC(key, "nonce") and the plaintext sealed under the key HMAC(chain key, "msg:" and the counter), that nonce and both parts of the associated data, and that key opens it |
| RatchetKeys.ReceivedFrame | src/crypto/DoubleRatchetSession.cpp:80-103 | in a reachable state a frame that is not behind is answered by opening its box under the key of its number, its nonce and both parts of the associated data |
| RatchetProtocol.SkippingIsStepping | src/crypto/DoubleRatchetSession.cpp:86-89 | catching up in one call equals advancing one message at a time |
| RatchetProtocol.DecryptEffect | src/crypto/DoubleRatchetSession.cpp:80-103 | in a reachable state: a short or old frame changes nothing, a rejected newer frame moves counter and chain to its number, an accepted one just past it |
| RatchetProtocol.ReachableIsDerived | src/crypto/DoubleRatchetSession.cpp:48-126 | in every state of every run, failing calls included, both chain keys are the base key advanced as often as the counters say |
| RatchetProtocol.StateIsItsCounters | src/crypto/DoubleRatchetSession.cpp:48-126 | whatever their histories, two sessions with equal counters are equal |
| RatchetProtocol.DirectionsIndependent | src/crypto/DoubleRatchetSession.cpp:59-103 | dropping all receives leaves the sending side unchanged, and the other way round |
| RatchetProtocol.GenuineFrameDecryptsIff | src/crypto/DoubleRatchetSession.cpp:59-103 | after any run of sender and receiver, a genuine frame with the same combined associated data decrypts to its plaintext exactly when its number is not behind the receive counter, and is otherwise refused without effect |
| RatchetProtocol.ReceiveCounterMonotone | src/crypto/DoubleRatchetSession.cpp:82-101 | the receive counter never decreases |
| RatchetProtocol.AcceptedCountersIncrease | src/crypto/DoubleRatchetSession.cpp:80-103 | accepted counters strictly increase, so no frame is accepted twice |
| RatchetProtocol.DeliveryDecryptsIffNewest | src/crypto/DoubleRatchetSession.cpp:80-103 | with frames lost, repeated and reordered in any way, a delivery decrypts exactly when its frame is newer than all delivered before |
| RatchetProtocol.IncreasingSelectionDecrypts | src/crypto/DoubleRatchetSession.cpp:80-103 | every strictly increasing selection of the sent frames decrypts in full, whatever the gaps |
| RatchetProtocol.BoundedRunIsDefined | src/crypto/DoubleRatchetSession.cpp:75-101 | a run of fewer than 2^31 calls in which no delivered frame carries 2^31 - 1 overflows no counter |
| RatchetOverflow.CounterFallsIff | src/crypto/DoubleRatchetSession.cpp:100-101 | whatever the primitives, a receive in a reachable state overflows and takes the counter back exactly when the frame is numbered 2^31 - 1 and its ciphertext opens under that message's key |
| RatchetOverflow.RedeliveryAfterOverflow | src/crypto/DoubleRatchetSession.cpp:80-103 | after an overflow the same frame opens again exactly when its ciphertext also opens under the key of the chain walked on from -2^31 |
| RatchetOverflow.OverflowCanAcceptTwice | src/crypto/DoubleRatchetSession.cpp:80-103 | with some lawful primitives an overflowing frame is accepted twice |
| RatchetOverflow.OverflowCanRejectRedelivery | src/crypto/DoubleRatchetSession.cpp:80-103 | with other lawful primitives a genuine overflowing frame is accepted once and then refused |
| Base64.RoundTrip | src/crypto/PrekeyManager.cpp:20-26 | decoding what was encoded gives the bytes back, with the padded alphabet of RFC 4648 section 4 and the unpadded one of section 5 |
| Base64Text.EncodedGroup | src/crypto/PrekeyManager.cpp:20-22 | every three bytes become the four symbols that spell their number |
| Base64Text.EncodedTail | src/crypto/PrekeyManager.cpp:20-22 | one or two bytes left over become two or three symbols, with zero bits behind them, and padding only in the standard variant |
| Base64Text.SymbolIs | src/crypto/PrekeyManager.cpp:20-22 | the symbols are letters, digits and "+/" or "-_", in the order of RFC 4648 |
| Base64Text.ForeignSkipped | src/crypto/PrekeyManager.cpp:24-26 | a character outside the alphabet is as if it were not there |
| Base64Text.DecodedLength | src/crypto/PrekeyManager.cpp:24-26 | decoding gives the whole bytes among the symbols' bits |
| JsonDocs.MapRoundTrip | src/crypto/VaultService.cpp:127-144 | a map of secrets survives its JSON object of base64url strings |
| JsonDocs.ListRoundTrip | src/crypto/PrekeyManager.cpp:111-131 | a list of byte strings survives its JSON array of base64url strings |
| JsonDocs.OddDocuments | src/crypto/VaultService.cpp:124-130 | a document of the wrong shape has no entries, and an entry that is no string reads as empty |
| Vaults.OpenFile | src/crypto/VaultService.cpp:100-134 | the file opens to exactly the secrets it was written with under the same password, and not at all under one that is told apart from it |
| Vaults.FileLayout | src/crypto/VaultService.cpp:136-170 | the file is an object of version 1 with salt, nonce and ciphertext in unpadded base64url, the ciphertext sealing the object of base64url secrets under the stretched password |
| Vaults.PayloadDoc | src/crypto/VaultService.cpp:141-144 | the loop over the secrets builds the object of all of them |
| Vaults.LoadSecrets | src/crypto/VaultService.cpp:124-130 | the loop over a document's fields builds the map of all of them |
| Vaults.SeparationIsPossible | src/crypto/VaultService.cpp:118-122 | with some lawful primitives two passwords are told apart whatever the files under them hold |
| Vaults.VaultService.UnlockWithPassword | src/crypto/VaultService.cpp:32-53 | refines the durable map's unlock on every path, and a vault that is not unlocked has neither key nor secrets |
| Vaults.VaultService.LoadExistingVault | src/crypto/VaultService.cpp:100-134 | opening an existing file refines the durable map's unlock, and a wrong password locks |
| Vaults.VaultService.LockVault | src/crypto/VaultService.cpp:59-66 | key and secrets are gone and the file is untouched |
| Vaults.VaultService.SaveVault | src/crypto/VaultService.cpp:136-170 | the file becomes one that holds the secrets in memory, or stays as it was |
| Vaults.VaultService.StoreSecret | src/crypto/VaultService.cpp:68-75 | refines the durable map's store |
| Vaults.VaultService.LoadSecret | src/crypto/VaultService.cpp:77-87 | answers as the durable map does |
| Vaults.VaultService.RemoveSecret | src/crypto/VaultService.cpp:89-98 | refines the durable map's remove |
| DurableMap.RefinesPlainMap | src/crypto/VaultService.cpp:32-170 | at every moment of any run without failures, across locks and unlocks with right, wrong and empty passwords, disk and open memory are what a plain map behind a door with one password would hold, and every call is answered alike |
| DurableMap.FirstUnlock | src/crypto/VaultService.cpp:41-52 | the first unlock leaves an empty map, open and saved |
| DurableMap.SavedIsLastWritten | src/crypto/VaultService.cpp:136-170 | in any run, whatever fails, disk holds the map that was in memory right after the last operation that wrote the file |
| DurableMap.UnlockRestoresLastWritten | src/crypto/VaultService.cpp:100-170 | after any run, whatever failed in it, unlocking restores the map that was in memory right after the last operation that wrote the file |
| DurableMap.UnlockRestoresSaved | src/crypto/VaultService.cpp:100-134 | unlocking restores exactly the saved map for its password and for no other |
| DurableMap.ReopenRestoresIff | src/crypto/VaultService.cpp:59-75 | locking and unlocking is invisible exactly when memory has been saved |
| DurableMap.UnlockWithoutFile | src/crypto/VaultService.cpp:41-52 | unlocking where there is no file keeps what is in memory and saves it under the password |
| DurableMap.FailedDerivationStopsSaving | src/crypto/VaultService.cpp:46-49 | after a failed key derivation over an open vault nothing is written until an unlock gets a key again, and memory stays readable |
| PrekeyQueue.DecodeEncode | src/crypto/PrekeyManager.cpp:111-131 | a queue survives its encoding, whatever its entries |
| PrekeyQueue.PrivOfEntry | src/crypto/PrekeyManager.cpp:86-108 | the private key read from an entry is the one put in |
| PrekeyQueue.KeysConserved | src/crypto/PrekeyManager.cpp:69-109 | keys queued at first followed by keys generated are keys handed out followed by keys queued, in order, at every moment of any run that does not lock or unlock an open vault between an unsaved change of the queue and the next save that works |
| PrekeyQueue.SavedKeysConserved | src/crypto/PrekeyManager.cpp:69-109 | when saves succeed, the same holds across any locks and unlocks, with wrong passwords too |
| PrekeyQueue.PublishAnswers | src/crypto/PrekeyManager.cpp:69-96 | a publish answers the public keys of the pairs it generated, in order, and nothing for a bad count or a locked vault |
| PrekeyQueue.QueueLayout | src/crypto/PrekeyManager.cpp:86-94 | the secret "one_time_prekeys" is an array whose new entries are objects with both halves in base64url |
| PrekeyQueue.HandedOutWasPublished | src/crypto/PrekeyManager.cpp:69-109 | in any careful run the keys handed out are those queued at first and then, one for one, the private halves of the public keys answered for publication |
| PrekeyQueue.UnsavedStretchForgotten | src/crypto/PrekeyManager.cpp:69-109 | reopening after a stretch of failed saves restores the vault from before it, and keys stay balanced exactly when those handed out and those generated in it cancel |
| PrekeyQueue.ConsumeSettlesIff | src/crypto/PrekeyManager.cpp:104-105 | a consume from a saved queue leaves it saved exactly when the store's save worked |
| PrekeyQueue.UnsavedConsumeRepeats | src/crypto/PrekeyManager.cpp:104-108 | a key whose consume was not saved is handed out again after the vault is reopened |
| Prekeys.EncodeOneTimeQueue | src/crypto/PrekeyManager.cpp:111-117 | the loop builds the encoding of the queue |
| Prekeys.DecodeOneTimeQueue | src/crypto/PrekeyManager.cpp:119-131 | the loop builds the decoded queue, empty for an absent secret |
| Prekeys.Generate | src/crypto/PrekeyManager.cpp:78-92 | the loop appends an entry and returns a public key for each pair generated before the first failure |
| Prekeys.PrekeyManager.PublishOneTimePrekeys | src/crypto/PrekeyManager.cpp:69-96 | on a real vault object, has the effect and answer of PublishStep |
| Prekeys.PrekeyManager.ConsumeOneTimePrekey | src/crypto/PrekeyManager.cpp:98-109 | on a real vault object, has the effect and answer of ConsumeStep |
| SenderKeys.SenderKeyManager.RotateEpoch | src/crypto/SenderKeyManager.cpp:26-32 | the new state is that of a rotation event, and the drawn key is returned |
| SenderKeys.SenderKeyManager.ImportEpochKey | src/crypto/SenderKeyManager.cpp:34-43 | the new state is that of an import event, refused for a non-positive epoch or a key of the wrong size |
| SenderKeys.SenderKeyManager.KeyForEpoch | src/crypto/SenderKeyManager.cpp:12-24 | the key stored for the epoch, if any |
| SenderKeys.EpochsInRange | src/crypto/SenderKeyManager.cpp:26-43 | in every state of every run without an overflowing rotation, stored epochs lie in 1..current and a positive current epoch has a key |
| SenderKeys.RotationIsFreshIff | src/crypto/SenderKeyManager.cpp:26-32 | a rotation overwrites nothing, and its epoch is above all stored ones exactly when the current one is below 2^31 - 1 |
| SenderKeys.RotationOutcome | src/crypto/SenderKeyManager.cpp:26-32 | the next epoch holds the drawn key; other epochs and conversations keep theirs |
| SenderKeys.ImportOutcome | src/crypto/SenderKeyManager.cpp:34-43 | the epoch holds the imported key and the larger epoch is current, or nothing changes for a bad epoch or size |
| SenderKeys.ImportsCommute | src/crypto/SenderKeyManager.cpp:34-43 | imports never lower the current epoch, and two imports commute exactly when epochs differ or keys agree |
| SenderKeys.ConversationsIndependent | src/crypto/SenderKeyManager.cpp:26-43 | a conversation's final state depends on its own events only |
| Accounts.AccountsRepository.ActiveAccount | src/storage/Repositories.cpp:112-129 | the account with the newest login |
| Accounts.AccountsRepository.UpsertAccount | src/storage/Repositories.cpp:92-110 | replaces the row with that id or appends it, or changes nothing when the write fails |
| Accounts.AccountsRepository.DeleteAccount | src/storage/Repositories.cpp:131-139 | removes the rows with that id; an empty id is refused |
| Accounts.NewestBecomesActive | src/storage/Repositories.cpp:92-129 | an account stored with the newest login is the active one |
| Accounts.UpsertKeepsOthers | src/storage/Repositories.cpp:92-110 | an upsert keeps every other account and every id unique |
| Accounts.DeleteRows | src/storage/Repositories.cpp:131-139 | a deletion removes the rows with that id and no others |
| AuthServices.AuthService.PersistSession | src/services/AuthService.cpp:166-189 | token and context are set first, account only after the token is stored |
| AuthServices.AuthService.RegisterUser | src/services/AuthService.cpp:37-79 | has the effect and answer of RegisterStep on real collaborators |
| AuthServices.AuthService.LoginUser | src/services/AuthService.cpp:81-110 | has the effect and answer of LoginStep on real collaborators |
| AuthServices.AuthService.RestoreSession | src/services/AuthService.cpp:112-144 | has the effect and answer of RestoreStep on real collaborators |
| AuthServices.AuthService.LogoutUser | src/services/AuthService.cpp:146-160 | has the effect and answer of LogoutStep on real collaborators |
| AuthOutcomes.LoginOutcome | src/services/AuthService.cpp:81-189 | an answered login, with or without keys, sends the access token, sets the context from the answer, keeps the refresh token, and succeeds exactly when token and account row are stored; any other brings nobody in |
| AuthOutcomes.RegisterOutcome | src/services/AuthService.cpp:37-79 | the same for a registration, which also needs its keys and the wrapped sync key |
| AuthOutcomes.RestoreOutcome | src/services/AuthService.cpp:112-144 | a restore brings back the active account with the refreshed tokens exactly when its token is stored and the server answers, and answers whether the row was written |
| AuthOutcomes.LogoutOutcome | src/services/AuthService.cpp:146-160 | a logout ends the session, forgets the active account's token and row, and answers what the server said |
| AuthOutcomes.KeysStored | src/services/AuthService.cpp:44-51 | every secret stored on the way to a session is in the vault unless a later one took its name |
| AuthOutcomes.BearerIsLastGranted | src/services/AuthService.cpp:81-189 | in any run, whatever fails, the network sends the access token of the last answer that brought someone in, and none after a later logout or restart |
| AuthRuns.BearerIsContextToken | src/services/AuthService.cpp:81-189 | in every state of every run, whatever fails, the bearer token is the context's access token, and empty without a context |
| AuthRuns.FreshDeviceConsistent | src/crypto/VaultService.cpp:32-53 | a freshly set up device, unlocked for the first time and signed out, is consistent: the runs below can start there |
| AuthRuns.SessionStaysConsistent | src/services/AuthService.cpp:81-189 | when storing succeeds, tokens are not empty and logins come later and later, the active account is the session's, in step with token and context |
| AuthTokens.SessionTokenHeld | src/services/AuthService.cpp:81-189 | in every run, whichever saves and account writes fail, the open vault holds the session's current refresh token |
| AuthTokens.SessionTokenOnDisk | src/services/AuthService.cpp:81-189 | the vault's file holds it too as long as the saves of the tokens themselves work |
| AuthTokens.LogoutHoldsUntilRestart | src/services/AuthService.cpp:112-160 | while the process runs, no restore brings a logged-out user back before the user signs in again, whatever fails, the logout's own save included |
| AuthTokens.LogoutIsFinal | src/services/AuthService.cpp:112-160 | after a logout that was saved, or found no token on disk, no restore or restart brings that user back, whatever fails afterwards |
| AuthTokens.RestartUndoesLogoutIff | src/services/AuthService.cpp:112-160 | a restart and an answered restore undo a logout exactly when the token was on disk, neither the logout nor anything since wrote the file, and the account then active is that user's |
| AuthTokens.UnstoredLogoutUndone | src/services/AuthService.cpp:146-160 | a logout of which nothing could be stored is undone by a restart and an answered restore |
| AuthTokens.LogoutForgetsOwnTokenIff | src/services/AuthService.cpp:146-160 | a logout forgets the session's token exactly when the active account is the session's user's |
| AuthTokens.LogoutForgetsWrongToken | src/services/AuthService.cpp:146-189 | after a second user's login whose account row could not be stored, the logout forgets the first user's token and keeps the second's |
| SyncTable.ApplyAllRows | src/storage/Repositories.cpp:330-344 | after any upserts every key touched holds its last occurrence and every other row is unchanged |
| SyncTable.PullsConverge | src/services/SyncService.cpp:16-44 | any number of pulls that stopped part-way, served from a growing log, followed by a complete one give the table of one complete pull |
| SyncTable.PartialRepullHarmlessIff | src/services/SyncService.cpp:16-44 | a repeated pull that stops after k changes leaves a synchronised table alone exactly when each row it wrote was final |
| SyncTable.RepullCanRegress | src/services/SyncService.cpp:16-44 | a repeated partial pull can take a row back to an older version |
| Syncing.SyncRepository.UpsertRecord | src/storage/Repositories.cpp:330-344 | replaces all columns of the row or changes nothing |
| Syncing.SyncService.PullCollection | src/services/SyncService.cpp:16-44 | terminates against a server with advancing cursors, whatever the last page's cursor is, applies a prefix of the log whatever the pages, all of it when it returns true, fails only if a request or a write does, and stamps each row with the time of its last write |
| Transport.DecryptForUi | bin/Application.cpp:49-79 | the loop that looks for a NUL decides between plain text and a second decoding |
| Transport.WireForm | bin/Application.cpp:81-83 | a wrapped text is "vox1:" and standard base64 |
| Transport.DisplayedCases | bin/Application.cpp:49-79 | what is displayed for every text, case by case |
| Transport.SpaceLengthIff | bin/Application.cpp:50-52 | the byte patterns of white space are those of the characters trimmed() removes |
| Transport.TransportRoundTrip | bin/Application.cpp:45-83 | wrapping and unwrapping decodes the text's bytes once more, and gives the text back exactly when it is not empty and the UTF-8 decoder leaves it alone |
| Transport.ByteOrderMarkLost | bin/Application.cpp:56-60 | a decoder that skips a byte order mark loses it from a wrapped text that starts with one |
| Transport.PlainTextUnchanged | bin/Application.cpp:62-72 | non-blank NUL-free text that is not wrapped is displayed unchanged |
| Transport.NothingDisplayedIff | bin/Application.cpp:49-79 | nothing is displayed exactly for a text with a NUL from which no base64 can be read |
| MessageTable.UpsertAllRows | src/storage/Repositories.cpp:197-229 | the outcome of any upserts, row by row: the last message under an id fills the updated columns, the first one or the starting row the others |
| MessageTable.OtherColumnsKept | src/storage/Repositories.cpp:204-212 | the columns outside the update list keep the values of the first insertion |
| MessageTable.UpsertColumns | src/storage/Repositories.cpp:197-229 | each column of a row after an upsert, and every other row as it was |
| Envelopes.Inbox.ApplyEnvelope | bin/Application.cpp:218-285 | a pushed envelope becomes one upsert of the message built with the flag of its route, or nothing when the write fails |
| Envelopes.Inbox.PollPending | bin/Application.cpp:335-352 | a successful poll moves the cursor and delivers the part of the batch whose writes work; a failed one changes nothing |
| Envelopes.Inbox.LoadHistory | bin/Application.cpp:577-615 | the history loop delivers the part of the batch whose writes work |
| Envelopes.Inbox.SelectConversation | bin/Application.cpp:534-632 | the flag is refreshed only when the summary can be fetched, and the history is delivered as far as its writes work |
| Envelopes.Inbox.OpenFirst | bin/Application.cpp:372-383 | opens the first conversation only if none is open, and leaves the flag alone |
| Envelopes.Inbox.Close | bin/Application.cpp:524-532 | opens no conversation and leaves the flag alone |
| Envelopes.PushedRow | bin/Application.cpp:218-285 | each column of the row of a pushed envelope: its side by device in a conversation with oneself and by user elsewhere, its label, times, ciphertext and displayed text |
| Envelopes.LoadedRow | bin/Application.cpp:553-615 | the same for an envelope of a history, by what the server says of the selected conversation |
| Envelopes.PollIsPushes | bin/Application.cpp:348-351 | a poll is its envelopes pushed one after the other |
| Merging.RowOfLatest | bin/Application.cpp:218-285 | given one content per id, the row of an envelope is the one its last delivery calls for |
| Merging.MergeConvergesIff | bin/Application.cpp:218-285 | two delivery sequences with the same set of envelopes, in any order and number and with any flags, leave the same table exactly when each envelope's last delivery puts it on the same side in both |
| Merging.PushAgreesIff | bin/Application.cpp:242-262 | pushed or polled envelopes leave the table that loading them does exactly when the remembered flag is right or none of the open conversation's envelopes is one on whose side the rules by device and by user differ |
| Merging.StaleFlagDivergesIff | bin/Application.cpp:242-262 | after a self-conversation was selected and another opened without its summary, an envelope pushed and loaded gives different tables exactly when the two rules differ on it |
| Envelopes.EchoKeepsPlaintext | bin/Application.cpp:226-262 | the echo of a message sent from this device keeps its side, resets its delivery state, and keeps its cached plaintext exactly when the UTF-8 decoder leaves that alone |
| Polling.TableIsWhatWasWritten | bin/Application.cpp:218-352 | after any run of pushes, polls, selections and changes of the open conversation, the table is the starting table with exactly the written deliveries applied |
| Polling.PollsCoverLogIff | bin/Application.cpp:335-352 | over any run with honest polls, stale flags and cursors that start over included, the table covers the log from the first cursor to the furthest place reached exactly when each envelope was written at some delivery, the last time on its right side, or had its row from the start |
| Polling.PollsEqualOnePassIff | bin/Application.cpp:335-352 | polls alone, with working writes, leave the table of one pass over the log as far as any of them has come exactly when each envelope's last poll put it on its right side |
| Polling.PresentIff | bin/Application.cpp:282-285 | whatever the server sends, a row is there exactly when it was at first or one of its writes succeeded |
| Polling.PassedOverForGood | bin/Application.cpp:335-352 | an envelope the cursor has passed stays absent over any later run in which no poll starts over and no push or history brings it |
| Polling.FailedWriteLosesEnvelope | bin/Application.cpp:282-352 | an honest poll with one failed write loses that envelope for all later polls that do not start over |
| Polling.NextUserSkips | bin/Application.cpp:523-532 | the cursor survives a logout: what the next user's log holds before it stays absent while no poll starts over and nothing else brings it |
| Polling.FlagIsLastFetched | bin/Application.cpp:553-630 | after any run the remembered flag is that of the last conversation whose summary was fetched, and is right exactly when that one and the open one are of the same kind |
| Polling.FlagsStayRightIff | bin/Application.cpp:242-256 | all deliveries of a run have their right flags exactly when at every push and poll those two are of the same kind or nothing comes for the open one, and histories are of one kind |
| Search.SearchService.IndexMessage | src/services/SearchService.cpp:12-24 | one row per token with position hints from 0 in token order, up to the first failure |
| Search.SearchService.FindMessageIds | src/services/SearchService.cpp:26-34 | the ids stored under the digest of the query's first token |
| Search.WordsHaveNoSeparator | src/services/SearchService.cpp:36-45 | tokens are non-empty and free of white space |
| Search.WordsSplit | src/services/SearchService.cpp:36-45 | a separator ends a word: the words of a text are those before it and those after it |
| Search.TokenRowAt | src/services/SearchService.cpp:16-21 | the row of a token holds its HMAC under the index key and its place |
| Search.SeparatorIff | src/services/SearchService.cpp:38 | words are separated by the ASCII white space |
| Search.OneWord | src/services/SearchService.cpp:36-45 | a text without separators is one word |
| Search.TrimmedSpace | src/services/SearchService.cpp:37 | one white space character more at either end is trimmed |
| Search.WordFinds | src/services/SearchService.cpp:12-45 | a query of one word finds every indexed message in which that word stands, in any case |
| Search.SearchAgreesIff | src/services/SearchService.cpp:12-45 | the index agrees with a scan, counted with repetitions, exactly when no other indexed word shares the digest; under an empty key it finds nothing |
| Search.BlankFindsNothing | src/services/SearchService.cpp:27-30 | a query of white space finds nothing |
| Jobs.DueJobsExact | src/storage/Repositories.cpp:386-410 | the due jobs are the undone jobs whose time has come, each as often as stored, in order of time |
| Jobs.AttemptsCounted | src/storage/Repositories.cpp:412-419 | over any run of updates the attempt count is the number of attempts marked, and the payload stays |
| Jobs.EnqueuedDue | src/storage/Repositories.cpp:375-384 | a new job is due from its time on |
| Jobs.AttemptReschedules | src/storage/Repositories.cpp:412-419 | after a failed attempt a job is due from the next time on, after a successful one never, and other jobs stay |
| Outbox.JobsRepository.MarkAttempt | src/storage/Repositories.cpp:412-419 | updates state, count and time of the job with that id |
| Outbox.MessageSendService.Send | src/services/MessageSendService.cpp:20-107 | has the effect and answer of SendStep on real repositories |
| Outbox.SendAnswersIff | src/services/MessageSendService.cpp:20-107 | a send is refused for empty parts and otherwise answers whether every write worked |
| Outbox.SentRow | src/services/MessageSendService.cpp:37-107 | each column of the row of a new message |
| Outbox.RetryJob | src/services/MessageSendService.cpp:56-60 | an unsent message leaves one job with its ciphertext, due a second later |
| Outbox.OutboxConserved | src/services/MessageSendService.cpp:20-107 | with fresh ids and working writes, Queued rows and send jobs match one to one, ciphertext by ciphertext, over any run of sends, job updates and deliveries, but for the jobs of messages that came back as envelopes |
| Outbox.EchoUnqueuesIff | bin/Application.cpp:226-285 | a delivery takes a row out of the Queued ones exactly when it brings an outbox message back, and leaves the jobs alone |
| Attachments.AttachmentService.UploadEncrypted | src/services/AttachmentService.cpp:11-39 | has the effect and answer of UploadStep |
| Attachments.AttachmentService.DownloadEncrypted | src/services/AttachmentService.cpp:41-56 | has the effect and answer of DownloadStep |
| Attachments.DownloadAnswersIff | src/services/AttachmentService.cpp:41-56 | a download answers exactly when the bytes are local or can be fetched and kept |
| Attachments.UploadAnswersIff | src/services/AttachmentService.cpp:11-39 | an upload answers exactly when every part of it works, and both sides then hold the bytes |
| Attachments.CacheCoherent | src/services/AttachmentService.cpp:11-56 | in every state of every run the local store is part of the server's contents |
| Attachments.DownloadsAgree | src/services/AttachmentService.cpp:41-56 | a download returns the server's bytes, and the same bytes ever after |
| Attachments.UploadThenDownload | src/services/AttachmentService.cpp:11-56 | a successful upload is what every later download returns |

## Left out

- libsodium's bodies, its initialisation failing, and secrecy or unforgeability.
- The text form of JSON, UTF-8 repair, case folding and the SQL engine: unknown functions, or the row semantics of the statements.
- Base64: QByteArray's codec is not part of the repository; the decoder is modelled as skipping foreign characters and dropping an incomplete byte.
- Vault files changed or deleted by anyone else, and out-of-memory inside the key derivation other than as a failing call.
- Identity keys and signed prekeys: their stores appear only as a list of secrets written on the way to a session.
- Key-pair generation, salts, nonces and ids: parameters, with no claim about their distribution.
- The user interface, threads and the event loop: handlers run one at a time.
- A change of the signed-in user inside a run of inbox events: each run has one user and one log, and `Polling.NextUserSkips` joins two runs at a logout.
- HTTP and response parsing: a request returns a parsed answer or fails as a whole.
- The server side of an upload that is not finalized: downloads see finalized contents only.
- ConversationService, FingerprintService, X3dhSessionBuilder, SyncCrypto, AttachmentCrypto, realtime reconnection and database migrations.
