# identity-bot core, modelled in Dafny

This project models the core of the identity bot. That core is a personal
identity agent built on KERI (Key Event Receipt Infrastructure), and it has
six parts:

- **KERI inception events** (`Keri`, `inception.dfy`). The Go agent builds
  the 13-member inception event. It writes the event as compact JSON, fixes
  the self-addressing identifier (SAID) in two size-locked passes, and
  encodes keys and digests as CESR text primitives. The proofs cover:
  - the shape of the event;
  - the size lock: the finished event is exactly as long as its version
    string `v` declares;
  - SAID recomputation: a reader can recompute the SAID;
  - for a 32-byte key, the event is 299 bytes long, declared as
    "KERI10JSON00012b_";
  - the seed rule of `KeyPairFromSeed`.
- **The agent's inception endpoint** (`Agent`, `agent.dfy`). This covers
  `decodePublicKey` and `handleInception`, over the agent's file store.
- **The file store** (`Store`, `store.dfy`). `FileStore` is a class: each
  JSON file is a field of the class, and each operation loads the list,
  updates it and writes it back. The store's list loops are methods proved
  against the specification functions in `Collections` (`collections.dfy`).
- **The app-store handlers** (`AppStore`, `appstore.dfy`). These cover:
  - registering, launching, stopping and deleting an app;
  - assigning a policy to an app;
  - creating and deleting a policy;
  - reading the audit log, newest first. This uses an in-place reversal of
    an `array`.
- **The Python KERI core driver** (`Driver`, `driver.dfy`). This covers:
  - key-text decoding;
  - the in-memory `_identities` map under inception, rotation and `get_kel`;
  - signature verification;
  - OOBI URL parsing;
  - the checks of `generate_multisig_event`.
- **The Rust bridge** (`Bridge`, `bridge.dfy`). The global `INSTANCES` map
  is a class field, changed by `incept_aid` and `rotate_aid` and read by
  `sign_payload` and `get_current_kel`.
- **The tunnel manager's configuration logic** (`Tunnel`, `tunnel.dfy`).
  This covers:
  - the byte splitter and PATH parsing;
  - the PATH lookup of `cloudflared`;
  - the `createProvider` and `DefaultConfig` decision tables.

Shared modules:

- `Common`: bytes, `Option` and `Result`.
- `Base64`: the alphabets of RFC 4648 sections 4 and 5, padded and unpadded
  encoding and decoding, and their round trips.
- `Numerals`: Go's `%06x`, `strconv.Itoa` and `strconv.Atoi`, and Python's
  `str(int)`.
- `Json`: compact JSON objects of plain strings, and UTF-8 as in RFC 3629.
- `Text`: split, join, strip and substring search.

Several parts depend on things outside the program: cryptography, the
environment and the file system, randomness, clocks and disk writes. The
model takes each of these as a parameter:

- SHA-256 and Ed25519 (`Keri.Sha256`, `Keri.Ed25519`);
- the keripy primitives (`Driver.Keripy`);
- `keri_core` (`Bridge.KeriCore`);
- a freshly generated key box (`Option<CryptoBox>`, where `None` means
  generation failed);
- the environment map and an `os.Stat` predicate;
- the clock reading `now`, and identifiers from `generateID`;
- what each disk write does (`Store.WriteOutcome`): it completes, it is
  refused before the file is opened, or it breaks off after the file was
  truncated.

A file that the store cannot read or parse is `Corrupt`. `writeJSON`
rewrites a file with `os.WriteFile`, which truncates it first. A write
refused before that leaves the file as it was. A write that breaks off
after the truncation leaves the file `Corrupt`.

The code behaves in several ways that are easy to get wrong. The model
follows the code in each case, and a lemma exhibits the behaviour:

- **Unprefixed keys that start with 'B'.** `decodePublicKey` tests for a
  leading 'B' first. So a key given without the CESR code, whose base64 text
  happens to start with 'B' (a first byte from 4 to 7), is decoded without
  its first symbol and refused (`Agent.LeadingBKeysRejected`). The Python
  driver's `_extract_raw_key` does the same for 'B' and 'D', and returns 31
  bytes for such a 32-byte key (`Driver.LeadingCodeKeysShortened`).
- **Empty OOBI endpoints.** `resolve_oobi` returns no endpoint for a URL
  without "//", and also for a URL whose "//" is followed directly by '/',
  such as "http:///x" (`Driver.EmptyHostNoEndpoint`).
- **Rotation ignores the commitment.** No rotation, in the driver or in the
  bridge, checks the new key against the committed next-key digest
  (`Driver.RotationIgnoresCommitment`, `Bridge.RotationIgnoresCommitment`).
- **No sequence check.** `SaveEvent` appends the record without checking
  its sequence number.
- **A torn write loses the KEL.** `SaveEvent` starts from the empty list
  when the KEL file does not load. So after a write that broke off, the next
  successful `SaveEvent` leaves the new record alone in the file, and every
  earlier event is gone (`Store.TornKelIsLost`).
- **Inception replaces.** Python inception, like `incept_aid`, replaces any
  identity already stored under the name.
- **Redundant early return.** The early return of `splitPath` for an empty
  PATH does not change the result (`Tunnel.SplitPath`).

## Model

| member | source | states |
|---|---|---|
| Keri.EncodePublicKey | identity-agent-core/keri/inception.go:60-62 | the key text is 'B' followed by the unpadded base64url symbols, (4n+2)/3 of them for n bytes |
| Keri.EncodePublicKeyDecodes | identity-agent-core/keri/inception.go:60-62 | the symbols after the 'B' decode back to the key |
| Keri.PublicKeyWidth | identity-agent-core/keri/inception.go:60-62 | a 32-byte key is written in 44 characters, as wide as the SAID placeholder |
| Keri.DigestKey | identity-agent-core/keri/inception.go:64-67 | the next-key commitment is always 44 characters long and starts with 'E' |
| Keri.DigestText | identity-agent-core/keri/inception.go:64-67 | any 32-byte digest is written as 'E' and 43 base64url symbols |
| Keri.DigestTextDecodes | identity-agent-core/keri/inception.go:64-67 | the symbols after the 'E' decode back to the digest |
| Keri.InitialVersionText | identity-agent-core/keri/inception.go:97 | the starting version string is "KERI10JSON000000_" |
| Keri.DeclaredVersionSize | identity-agent-core/keri/inception.go:78-79 | the version string "KERI10JSON%06x_" is 17 characters and declares the size it was made from exactly when that size is below 2^24; above that it declares nothing |
| Keri.VersionFields | identity-agent-core/keri/inception.go:79 | a version string with six digits is 17 characters: "KERI10JSON", the digits, then '_' |
| Keri.InceptionEvent.constructor | identity-agent-core/keri/inception.go:96-110 | the mutable event struct holds the given members |
| Keri.InceptionEvent.ComputeSaid | identity-agent-core/keri/inception.go:69-90 | computeSAID puts the placeholder in d and i, writes the pass-one size into v, and returns the digest of the pass-two text |
| Keri.Inception | identity-agent-core/keri/inception.go:92-131 | the result's key is the signing key's CESR text and its next key the digest text of the next key; AID = d = i; EventJSON is the serialization of the event |
| Keri.CreateInceptionEvent | identity-agent-core/keri/inception.go:92-132 | the result is the specification `Inception` of the two keys; it depends on nothing but the keys |
| Keri.InceptionShape | identity-agent-core/keri/inception.go:96-131 | t="icp", s="0", kt="1", nt="1", bt="0"; k holds the key text and n the next-key digest; b, c and a are empty; AID = d = i, 44 characters starting with 'E'; EventJSON is the compact serialization |
| Keri.InceptionPlain | identity-agent-core/keri/inception.go:73-87 | every string in the event needs no JSON escaping, so json.Marshal writes exactly the modelled text |
| Keri.SerializeAscii | identity-agent-core/keri/inception.go:78 | a plain event is ASCII, so `len(data)` counts its characters |
| Keri.BlankedLength | identity-agent-core/keri/inception.go:69-78 | the pass-one text is 255 characters plus the signing key's text |
| Keri.PassOneSize | identity-agent-core/keri/inception.go:69-78 | the pass-one size is 255 bytes plus the key text's length |
| Keri.InceptionSizeLock | identity-agent-core/keri/inception.go:78-87 | below 2^24 bytes, the finished event is exactly as many UTF-8 bytes as v declares |
| Keri.InceptionOversize | identity-agent-core/keri/inception.go:78-79 | from 2^24 bytes on, v outgrows its 17 characters and the size check fails |
| Keri.InceptionOf32ByteKey | identity-agent-core/keri/inception.go:92-131 | for an Ed25519 key, v is "KERI10JSON00012b_" and the event is 299 bytes long, which is what v declares |
| Keri.Version299 | identity-agent-core/keri/inception.go:79 | 299 is written "KERI10JSON00012b_" |
| Keri.InceptionSaidVerifies | identity-agent-core/keri/inception.go:69-90 | blanking d and i of the finished event and hashing its text reproduces the SAID in d |
| Keri.KeyPairFromSeed | identity-agent-core/keri/inception.go:50-58 | the private key is the 32-byte seed used followed by the public key |
| Keri.SeedOf | identity-agent-core/keri/inception.go:50-55 | the seed used is always 32 bytes long |
| Keri.LongSeedPrefix | identity-agent-core/keri/inception.go:50-58 | only the first 32 bytes of a long seed matter |
| Keri.ShortSeedHashed | identity-agent-core/keri/inception.go:51-55 | a seed under 32 bytes gives the key pair of its SHA-256 digest |
| Keri.SignThenVerify | identity-agent-core/keri/inception.go:134-140 | with a sound Ed25519, what SignEvent signs with a seeded key pair VerifySignature accepts |
| Agent.KeyBytes | identity-agent-core/main.go:325-332 | the bytes of a key text; after a leading 'B' they are 3/4 of the remaining symbols |
| Agent.DecodePublicKey | identity-agent-core/main.go:321-343 | a success is exactly 32 bytes; a decode failure happens exactly when both decodings fail; decoded bytes of length 32 are accepted as they are; any other refusal reports the decoded length, which is not 32 |
| Agent.DecodeEncodedKey | identity-agent-core/main.go:325-326 | every 'B' key text written by EncodePublicKey decodes to its key |
| Agent.DecodeRawUrlKey | identity-agent-core/main.go:327-328 | a raw base64url key is accepted unless its text begins with 'B' |
| Agent.DecodePaddedStdKey | identity-agent-core/main.go:327-332 | a padded standard base64 key is accepted, through the fallback, unless its text begins with 'B' |
| Agent.LeadingBKeysRejected | identity-agent-core/main.go:325-340 | an unprefixed key whose text begins with 'B' is refused: raw base64url as 31 bytes, padded base64 as undecodable |
| Agent.PrepareInception | identity-agent-core/main.go:215-248 | the checks in order (conflict, body, empty fields, both keys), then CreateInceptionEvent; nothing is written |
| Agent.HandleInception | identity-agent-core/main.go:214-290 | a refusal writes nothing; otherwise the event is appended to the KEL first, and a torn event write leaves the KEL unparsable; the identity is written only after the event was saved; the reply is 201 or 500, by which write failed |
| Agent.Admit | identity-agent-core/main.go:215-248 | the handler answers 409 exactly when an identity is stored; whatever it admits had a body with two non-empty fields that both decode |
| Agent.AdmitWellFormed | identity-agent-core/main.go:221-248 | with no identity stored, two CESR key texts give CreateInceptionEvent of those keys |
| Agent.AdmittedIdentity | identity-agent-core/main.go:227-289 | whatever is admitted had no stored identity and both fields decoded; AID = d = i; the reply's key is the signing key's CESR text |
| Agent.CreatedThenConflict | identity-agent-core/main.go:215-219 | after a successful inception the stored identity has one event and that AID, and every later request is refused with 409 |
| Store.FileStore.constructor | identity-agent-core/store/store.go:129-135 | a new store has no files |
| Store.FileStore.SaveEvent | identity-agent-core/store/store.go:137-149 | the KEL becomes the old list (empty when unreadable) plus the record, with no sequence check; a refused write changes nothing and a torn one leaves the file unparsable |
| Store.TornKelIsLost | identity-agent-core/store/store.go:137-149 | after a torn KEL write the file does not load, and the next successful SaveEvent leaves only its own record: the earlier events are lost |
| Store.FileStore.GetEvents | identity-agent-core/store/store.go:151-167 | an error exactly for an unreadable KEL; otherwise the identifier's records in stored order |
| Store.EventsAfterSave | identity-agent-core/store/store.go:137-167 | after SaveEvent, the record's identifier reads its old events plus the record, and every other identifier reads what it read before |
| Store.FileStore.GetIdentity | identity-agent-core/store/store.go:169-187 | no file gives none, an unreadable one an error, and otherwise the stored state |
| Store.FileStore.SaveIdentity | identity-agent-core/store/store.go:189-194 | the identity file holds the state when the write succeeds |
| Store.FileStore.SaveContact | identity-agent-core/store/store.go:196-218 | the contact list becomes the upsert by AID of the loaded list |
| Store.FileStore.GetContacts | identity-agent-core/store/store.go:220-225 | the loaded list, or the load error |
| Store.FileStore.GetContact | identity-agent-core/store/store.go:227-242 | an error exactly for an unreadable file; otherwise the first contact with the AID |
| Store.FileStore.DeleteContact | identity-agent-core/store/store.go:244-261 | an unreadable file is an error and is not written; otherwise every contact with another AID is kept, in order |
| Store.FileStore.SaveApp | identity-agent-core/store/store.go:290-312 | the app list becomes the upsert by id of the loaded list |
| Store.FileStore.GetApps | identity-agent-core/store/store.go:314-318 | the loaded list, or the load error |
| Store.FileStore.GetApp | identity-agent-core/store/store.go:320-334 | an error exactly for an unreadable file; otherwise the first app with the id |
| Store.FileStore.DeleteApp | identity-agent-core/store/store.go:336-352 | an unreadable file is an error and is not written; otherwise every app with another id is kept, in order |
| Store.FileStore.SavePolicy | identity-agent-core/store/store.go:354-376 | the policy list becomes the upsert by id of the loaded list |
| Store.FileStore.GetPolicies | identity-agent-core/store/store.go:378-382 | the loaded list, or the load error |
| Store.FileStore.GetPolicy | identity-agent-core/store/store.go:384-398 | an error exactly for an unreadable file; otherwise the first policy with the id |
| Store.FileStore.DeletePolicy | identity-agent-core/store/store.go:400-416 | an unreadable file is an error and is not written; otherwise every policy with another id is kept, in order |
| Store.FileStore.AppendAuditLog | identity-agent-core/store/store.go:418-435 | the log becomes the loaded log (empty when unreadable) plus the entry, cut to the newest 1000 |
| Store.AppendBounded | identity-agent-core/store/store.go:418-435 | the log after an append holds between 1 and 1000 entries and ends with the new one |
| Store.AppendBoundedProperties | identity-agent-core/store/store.go:418-435 | the new entry is last, the log holds at most 1000 entries and is a suffix of the old log plus the entry, and below 1000 nothing is dropped |
| Store.FileStore.GetAuditLog | identity-agent-core/store/store.go:437-461 | an error exactly for an unreadable log; otherwise the filtered, truncated query |
| Store.AuditQuery | identity-agent-core/store/store.go:437-461 | the answer is no longer than the log, at most `limit` long for a positive limit, and only of the app when one is given |
| Store.AuditQueryProperties | identity-agent-core/store/store.go:437-461 | the answer is a suffix of the app's entries (all entries when no app is given), min(limit, count) long for a positive limit, whole otherwise, and only of that app |
| Collections.Select | identity-agent-core/store/store.go:151-167 | the records selected are at most as many as the list and all pass the key test |
| Collections.SelectLoop | identity-agent-core/store/store.go:160-165 | the filter loop computes Select |
| Collections.SelectAppend | identity-agent-core/store/store.go:151-167 | selection distributes over concatenation and keeps order |
| Collections.SelectMembership | identity-agent-core/store/store.go:244-261 | a record is kept exactly when it is in the list and passes the key test |
| Collections.SelectAll | identity-agent-core/tunnel/manager.go:199-207 | a list whose records all pass is kept whole |
| Collections.FirstIndex | identity-agent-core/store/store.go:227-242 | the position found holds the key and no earlier one does; none means no record holds it |
| Collections.Find | identity-agent-core/store/store.go:227-242 | a record found is in the list and has the key; none is found exactly when no record has the key |
| Collections.FindLoop | identity-agent-core/store/store.go:236-241 | the lookup loop returns the first record with the key |
| Collections.FirstIndexIs | identity-agent-core/store/store.go:227-242 | the first index is the one before which no key matches |
| Collections.FindAppend | identity-agent-core/store/store.go:227-242 | a lookup in a + b finds what a has, otherwise what b has |
| Collections.Upsert | identity-agent-core/store/store.go:196-218 | the record is in the result, and the list keeps its length when the key was there and grows by one otherwise |
| Collections.UpsertLoop | identity-agent-core/store/store.go:196-218 | the replace-or-append loop computes Upsert |
| Collections.UpsertShape | identity-agent-core/store/store.go:196-218 | an existing key has its first record replaced, with the length and every other record kept; a new key is appended; a lookup of the key finds the new record |
| Collections.UpsertOtherKeys | identity-agent-core/store/store.go:196-218 | lookups of other keys are unchanged by an upsert |
| Collections.Remove | identity-agent-core/store/store.go:244-261 | no record left has the key, and the list does not grow |
| Collections.RemoveLookups | identity-agent-core/store/store.go:244-261 | after a delete the key finds nothing and every other key finds what it found before |
| Collections.RemoveOther | identity-agent-core/store/store.go:336-352 | a delete does not change what other keys find |
| Collections.LastN | identity-agent-core/store/store.go:429-432 | the kept records are at most n, or all of them |
| Collections.LastNSuffix | identity-agent-core/store/store.go:456-458 | what is kept is a suffix, exactly n long when there were more |
| AppStore.LookupApp | identity-agent-core/appstore.go:148-156 | a read error is a 500, exactly; an app found is in the loaded list and has the id |
| AppStore.RegisterCheck | identity-agent-core/appstore.go:32-54 | registration passes exactly when there is a body with a name; the app has the new id and registration time and is stopped |
| AppStore.LaunchCheck | identity-agent-core/appstore.go:148-167 | a found app already running is a 409, exactly; an app let through has the id, is running and carries the launch time |
| AppStore.StopCheck | identity-agent-core/appstore.go:196-213 | a found app already stopped is a 409, exactly; an app let through has the id and is stopped |
| AppStore.AssignCheck | identity-agent-core/appstore.go:245-266 | an app let through has the id and the requested policy id, and a non-empty policy id names a stored policy |
| AppStore.CreatePolicyCheck | identity-agent-core/appstore.go:286-313 | creation passes exactly when there is a body with a name; the policy has the new id, that name and the creation time |
| AppStore.DeletePolicyCheck | identity-agent-core/appstore.go:358-363 | passes exactly when the file is readable and holds a policy with the id, which is the one let through; every refusal is a 404 |
| AppStore.ParseLimit | identity-agent-core/appstore.go:376-383 | the limit is always positive |
| AppStore.HandleRegisterApp | identity-agent-core/appstore.go:24-79 | a missing body or name is a 400 with nothing written; otherwise the new app is saved, and the audit entry is written only after that save succeeded |
| AppStore.RegisteredApp | identity-agent-core/appstore.go:37-54 | registration succeeds exactly when there is a name; the app is stopped, has no policy and was never launched; its language is the requested one or, when empty, "unknown"; a lookup of its id finds it |
| AppStore.SaveAppAudited | identity-agent-core/appstore.go:56-74 | the app is saved first; the audit entry is appended only when that save succeeded, and its own failure is ignored |
| AppStore.HandleDeleteApp | identity-agent-core/appstore.go:111-144 | an unknown app is a 404 and a read error a 500, with nothing written; otherwise the app is removed and the deletion audited |
| AppStore.HandleLaunchApp | identity-agent-core/appstore.go:146-192 | refusals write nothing; otherwise the app is saved running with the launch time, and the launch is audited |
| AppStore.LaunchOutcome | identity-agent-core/appstore.go:153-169 | unknown id → 404; a running app → 409, exactly; otherwise only status ("running") and lastLaunchedAt change |
| AppStore.HandleStopApp | identity-agent-core/appstore.go:194-238 | refusals write nothing; otherwise the app is saved stopped, and the stop is audited |
| AppStore.StopOutcome | identity-agent-core/appstore.go:201-215 | a stopped app → 409, exactly; otherwise only the status changes, to "stopped" |
| AppStore.SavedAppLookups | identity-agent-core/appstore.go:163-169 | the saved record is what its id now finds, and other ids are unaffected |
| AppStore.HandleAssignPolicy | identity-agent-core/appstore.go:240-274 | refusals write nothing; otherwise the app is saved with the new policy id, with no audit entry |
| AppStore.AssignOutcome | identity-agent-core/appstore.go:250-268 | a non-empty policy id that names no readable policy is a 404, exactly; every other id, a stored policy's or the empty one, gives the found app with that policy id and nothing else changed |
| AppStore.HandleCreatePolicy | identity-agent-core/appstore.go:276-325 | a missing body or name is a 400 with nothing written; otherwise the policy is saved |
| AppStore.CreatedPolicy | identity-agent-core/appstore.go:291-313 | a policy is created exactly when there is a name; absent domain lists are stored as empty lists, given ones as given |
| AppStore.HandleDeletePolicy | identity-agent-core/appstore.go:357-372 | an unknown policy or an unreadable file is a 404 with no write; a stored policy is removed (204, or 500 when the write fails), and apps naming it keep the name |
| AppStore.DeletePolicyOutcome | identity-agent-core/appstore.go:357-372 | a stored policy passes the check; after the removal its id finds nothing and every other id finds what it found before |
| AppStore.LimitValue | identity-agent-core/appstore.go:378-383 | the limit is the parsed value when that is a positive integer, 100 otherwise, and never 0 |
| AppStore.LimitOfDecimal | identity-agent-core/appstore.go:378-383 | every positive int64 written in decimal is taken as the limit |
| AppStore.Reversed | identity-agent-core/appstore.go:391-393 | result[i] = input[n-1-i], with the length unchanged |
| AppStore.ReverseInPlace | identity-agent-core/appstore.go:391-393 | the two-index swapping loop leaves the array reversed |
| AppStore.ReversedTwice | identity-agent-core/appstore.go:391-393 | reversing twice gives the entries back |
| AppStore.HandleGetAuditLog | identity-agent-core/appstore.go:374-400 | an unreadable log is a 500; otherwise the store's query for the app and limit, newest first, with its count; nothing is written |
| AppStore.NewestFirst | identity-agent-core/appstore.go:385-393 | right after an entry is appended, the log read for all apps or for that entry's app starts with it |
| AppStore.QueryKeepsNewest | identity-agent-core/store/store.go:437-461 | a query for all apps or for the newest entry's app, with a positive limit, still ends with that entry |
| Driver.PadToQuantum | drivers/keri-core/server.py:85-88 | the padded text is the input followed by '=' characters, fewer than four, up to a multiple of four |
| Driver.B64UrlDecode | drivers/keri-core/server.py:85-89 | a text whose length is a multiple of four is decoded as it is, with no padding added |
| Driver.ExtractRawKey | drivers/keri-core/server.py:92-95 | the empty key text gives no key, as `cesr_key[0]` raises |
| Driver.PadUnpadded | drivers/keri-core/server.py:85-89 | padding an unpadded base64url text gives exactly the padded encoding |
| Driver.B64UrlDecodeEncode | drivers/keri-core/server.py:85-89 | every unpadded base64url text decodes back to its bytes |
| Driver.ExtractCodedKey | drivers/keri-core/server.py:92-95 | a key with a 'B' or 'D' code and at least one byte gives back its raw bytes |
| Driver.ExtractUncodedKey | drivers/keri-core/server.py:92-95 | a key text that begins with neither 'B' nor 'D' is decoded whole and gives back its bytes |
| Driver.LeadingCodeKeysShortened | drivers/keri-core/server.py:92-95 | an uncoded 32-byte key whose text begins with 'B' or 'D' loses its first symbol and comes back as 31 bytes |
| Driver.LoneCodeRefused | drivers/keri-core/server.py:92-95 | the one-character texts "B" and "D" are decoded whole, and fail |
| Driver.ExtractAgentKey | drivers/keri-core/server.py:92-95 | the driver reads back the key text the Go agent writes |
| Driver.Incept | drivers/keri-core/server.py:98-117 | the stored identity has sequence number 0 and a one-event KEL: the inception of its AID with the given keys |
| Driver.RotationStep | drivers/keri-core/server.py:185-205 | a rotation keeps the AID and the events so far, adds one event chained to the previous one, advances the sequence number by one, replaces both keys, and keeps the identity well formed |
| Driver.RotationIgnoresCommitment | drivers/keri-core/server.py:185-205 | a rotation never consults the committed next-key digest |
| Driver.KeriDriver.constructor | drivers/keri-core/server.py:137-164 | the driver starts with no identities |
| Driver.KeriDriver.Inception | drivers/keri-core/server.py:137-164 | a missing body or key is a 400 and a keripy refusal a 500, each with no change; otherwise the identity is stored under the name, or under its AID, replacing any earlier one |
| Driver.KeriDriver.Rotation | drivers/keri-core/server.py:166-216 | a missing body, name or key is a 400, an unknown name a 404 and a keripy refusal a 500, each with no change; otherwise only that name's identity is replaced by its rotation |
| Driver.KeriDriver.GetKel | drivers/keri-core/server.py:254-270 | an empty name is a 400 and an unknown one a 404; otherwise the stored KEL, with event_count = len(kel) = sequence_number + 1 |
| Driver.Verify | drivers/keri-core/server.py:273-308 | a missing body is a 400, exactly; a verdict is given only for non-empty data and signature and a key text that decodes |
| Driver.VerifyNeedsFields | drivers/keri-core/server.py:279-283 | a missing data, signature or key field is a 400 before anything is decoded |
| Driver.VerifyDecoded | drivers/keri-core/server.py:285-302 | once the fields decode and keripy accepts the key, the reply is libsodium's verdict and keripy's key text |
| Driver.VerifyAgentSignature | drivers/keri-core/server.py:272-308 | a message signed with a seeded key pair, sent with the agent's key text and standard base64, is reported valid |
| Driver.HostPort | drivers/keri-core/server.py:374 | the host never contains '/', and is empty for a URL without "//" |
| Driver.OobiPath | drivers/keri-core/server.py:359-371 | the path gives three segments, all empty when the URL has no "/oobi/" |
| Driver.ResolveOobi | drivers/keri-core/server.py:349-385 | an empty URL is a 400, exactly; a resolution echoes the URL and has at most one endpoint, present exactly when the host is non-empty |
| Driver.OobiEndpoint | drivers/keri-core/server.py:373-382 | the scheme is "http" exactly for "http://" URLs; there is one endpoint exactly when the host after the first "//" is non-empty, and it is scheme://host, a host with no '/' |
| Driver.OobiSegments | drivers/keri-core/server.py:359-371 | for a URL whose path holds "oobi" followed by three segments (the last non-empty), cid, role and eid are the first, second and third of them |
| Driver.OobiCidOnly | drivers/keri-core/server.py:359-371 | for a URL ending with "oobi" and a non-empty cid, the cid is that segment and role and eid are empty |
| Driver.OobiCidRole | drivers/keri-core/server.py:359-371 | for a URL ending with "oobi", a cid and a non-empty role, cid and role are those segments and eid is empty |
| Driver.OobiPathOfParts | drivers/keri-core/server.py:363-371 | for a URL joined from separator-free parts, the last non-empty, the three segments are the parts after the first "oobi" part, empty past the end |
| Driver.OobiWithoutMarker | drivers/keri-core/server.py:359-371 | a URL without "/oobi/" has empty cid, role and eid |
| Driver.HostEmptyAfterSlash | drivers/keri-core/server.py:374 | a "//" followed by another '/' leaves the host empty |
| Driver.EmptyHostNoEndpoint | drivers/keri-core/server.py:374-375 | "http:///x" contains "//" yet has no endpoint |
| Driver.VerferKeys | drivers/keri-core/server.py:403-408 | there is a verifier list exactly when keripy accepts the raw bytes of every current key; it then has one verifier per key, in order, each keripy's text for that key |
| Driver.VerferKeysLoop | drivers/keri-core/server.py:403-406 | the loop over current_keys computes VerferKeys |
| Driver.VerferKeysStop | drivers/keri-core/server.py:403-406 | one refused key makes the whole request fail |
| Driver.Multisig | drivers/keri-core/server.py:389-446 | a plan needs both lists non-empty; with both non-empty there is a plan exactly when every current key is accepted; the plan carries keripy's verifier text of each current key, in order, and is an inception plan exactly for the "inception" event type |
| Driver.MultisigShape | drivers/keri-core/server.py:394-427 | an empty aids or current_keys list is a 400, exactly; the inception branch uses the threshold for both isith and nsith and commits to no next keys; the other branch keeps aids and threshold; with both lists non-empty the answer is a plan exactly when VerferKeys succeeds, and a 500 otherwise; the plan's keys are VerferKeys' texts |
| Bridge.Incepted | identity_agent_ui/rust/src/api/keri_bridge.rs:51-84 | an instance exists exactly when serialization succeeds; it holds the box, the prefix of the keys and a one-entry KEL that starts with the inception |
| Bridge.Rotated | identity_agent_ui/rust/src/api/keri_bridge.rs:102-116 | the prefix is kept and the box replaced; the KEL grows by one rotation entry whose sn is the old KEL length and whose aid is the prefix |
| Bridge.KeriBridge.constructor | identity_agent_ui/rust/src/api/keri_bridge.rs:19-25 | the instance map starts empty |
| Bridge.KeriBridge.InceptAid | identity_agent_ui/rust/src/api/keri_bridge.rs:47-91 | a key-generation or serialization failure leaves the map unchanged; otherwise the instance is inserted under the name, replacing any earlier one, and the prefix, base64 key and KEL entry are returned |
| Bridge.KeriBridge.RotateAid | identity_agent_ui/rust/src/api/keri_bridge.rs:93-125 | an unknown name, then a key-generation failure, leave the map unchanged; otherwise only that name's instance is rotated, and its prefix, new key and new entry are returned |
| Bridge.KeriBridge.SignPayload | identity_agent_ui/rust/src/api/keri_bridge.rs:127-147 | an unknown name or a signing failure is an error; otherwise the base64 signature and key of the current box; the map is never changed |
| Bridge.KeriBridge.GetCurrentKel | identity_agent_ui/rust/src/api/keri_bridge.rs:149-162 | an unknown name is an error; otherwise one text per KEL entry, in order; the map is never changed |
| Bridge.RotatedAllShape | identity_agent_ui/rust/src/api/keri_bridge.rs:106-116 | after n rotations the prefix is kept, the KEL grows by n, the earlier entries are kept, the last box is current, and rotation j records sn = old length + j with its key |
| Bridge.InceptThenRotate | identity_agent_ui/rust/src/api/keri_bridge.rs:77-115 | after an inception and n rotations, the rotation entries carry sn 1..n and the instance's prefix |
| Bridge.RotationIgnoresCommitment | identity_agent_ui/rust/src/api/keri_bridge.rs:102-116 | a rotation does not depend on the key box it replaces, so no next-key commitment is checked |
| Tunnel.ConfigTokenWins | identity-agent-core/tunnel/manager.go:111-127 | a token in the configuration is used and the environment plays no part |
| Tunnel.CreateProvider | identity-agent-core/tunnel/manager.go:109-136 | Cloudflare exactly for "cloudflare"; ngrok exactly for "ngrok" with a token from the configuration or the environment, which is then non-empty; anything else is no tunnel |
| Tunnel.Split | identity-agent-core/tunnel/manager.go:213-224 | the loop computes the parts of `Text.Split` |
| Text.Split | identity-agent-core/tunnel/manager.go:213-224 | there is always at least one part |
| Text.SplitCount | identity-agent-core/tunnel/manager.go:213-224 | there is one more part than there are separators |
| Text.SplitPartsFree | identity-agent-core/tunnel/manager.go:213-224 | no part contains the separator |
| Text.JoinSplit | identity-agent-core/tunnel/manager.go:213-224 | joining the parts with the separator gives back the string |
| Text.SplitJoin | identity-agent-core/tunnel/manager.go:213-224 | splitting a join of separator-free parts gives back the parts |
| Text.SplitAppend | identity-agent-core/tunnel/manager.go:213-224 | splitting at a separator splits the two sides independently |
| Text.SplitFree | identity-agent-core/tunnel/manager.go:213-224 | a string without the separator is its own only part |
| Tunnel.PathList | identity-agent-core/tunnel/manager.go:199-207 | no listed directory is empty |
| Tunnel.SplitPathList | identity-agent-core/tunnel/manager.go:199-211 | splitting at ':' and dropping empty parts computes PathList |
| Tunnel.PathListComponents | identity-agent-core/tunnel/manager.go:199-211 | a directory is listed exactly when it is a non-empty component; no listed directory contains ':'; with no empty component the list is the split itself and joins back to PATH |
| Tunnel.SplitPath | identity-agent-core/tunnel/manager.go:191-197 | an empty PATH gives no directories, and any PATH gives its components |
| Tunnel.FirstPresent | identity-agent-core/tunnel/manager.go:181-189 | a result is a present dir/name for some listed directory; none means no listed directory has it |
| Tunnel.FindInPath | identity-agent-core/tunnel/manager.go:181-189 | the loop returns the first present candidate along PATH |
| Tunnel.DefaultConfig | identity-agent-core/tunnel/manager.go:138-158 | the provider is ngrok, cloudflare or none; none exactly when there is no ngrok token, no Cloudflare token and no cloudflared on PATH; ngrok always with the environment's token |
| Tunnel.DefaultProvider | identity-agent-core/tunnel/manager.go:138-158 | the default configuration starts ngrok with the environment token, else Cloudflare with its token, else Cloudflare when cloudflared is on PATH, else no tunnel; so a tunnel starts exactly when one of the three is there |
| Base64.DecodeEncode | identity-agent-core/main.go:326-328 | unpadded decoding undoes unpadded encoding |
| Base64.DecodeEncodePadded | identity-agent-core/main.go:330 | padded decoding undoes padded encoding |
| Base64.DecodeRaw | identity-agent-core/main.go:326-328 | unpadded decoding succeeds exactly when every symbol is in the alphabet and no sextet dangles, giving 3/4 of the symbols' count in bytes |
| Base64.Encode | identity-agent-core/keri/inception.go:61 | the unpadded encoding has (4n+2)/3 symbols, all in the alphabet |
| Base64.EncodedWidth32 | identity-agent-core/keri/inception.go:61 | 32 bytes take 43 symbols unpadded and 44 padded |
| Numerals.Hex06 | identity-agent-core/keri/inception.go:79 | `%06x` is at least six characters and ends with the number's hexadecimal digits |
| Numerals.Hex06Exact | identity-agent-core/keri/inception.go:79 | below 2^24, `%06x` is six digits that read back as the number; from 2^24 on it is longer |
| Numerals.Atoi | identity-agent-core/appstore.go:379-380 | an optional sign and one or more decimal digits; every value accepted is inside the int64 range |
| Numerals.AtoiDecimal | identity-agent-core/appstore.go:379-380 | strconv.Atoi reads back every int64 written in decimal |
| Numerals.AtoiRejectsNonDigit | identity-agent-core/appstore.go:379-380 | a string with a character other than a leading sign and digits is refused |
| Json.Utf8Ascii | identity-agent-core/keri/inception.go:78 | ASCII text is one byte per character, and anything else takes more bytes |

## Left out

- I/O is not modelled. HTTP routing, request decoding into JSON, response
  encoding and logging are left out. Each handler is modelled from the
  decoded body (`None` when the body is not JSON) to its reply and store
  changes.
- Concurrency is not modelled: the store's mutex, the `INSTANCES` mutex and
  Flask's threads. Every operation runs alone.
- Cryptography is a set of parameters: SHA-256, Ed25519, Blake3 and the
  keripy `Verfer`, `Diger`, `incept` and `rotate`, the libsodium check, and
  `keri_core`'s prefix, serialization and signing. Ed25519 correctness is the
  assumption `Keri.Sound`, which is a requirement of the lemmas that use it,
  never an axiom.
- `GenerateKeyPair` and `CryptoBox::new` use randomness. They are a
  parameter for the generated key box. `generateID` and `time.Now` are also
  inputs.
- The Python `/sign` and `/format-credential` routes are not modelled: the
  first signs with a random key unrelated to the identity.
- The settings, telemetry, Rego-policy and webhook handlers of the store and
  app store are not modelled. Nor are the list and get handlers that only
  read.
- `verify_signature` in the Rust bridge is not modelled.
- The tunnel `Manager` lifecycle (Start, Stop, Restart) is not modelled, nor
  are the providers themselves. `createProvider` is modelled by which
  provider it builds and with which token.
- Driver.VerferKeys: a keripy refusal of one key, which Python raises as an
  exception, ends the whole request with a 500. The verifier texts are
  keripy's, so the plan does not include keripy's serialization of the
  multisig event itself.
- Bridge.KeriBridge.GetCurrentKel: returns the list of KEL entry texts, not
  `serde_json::to_string_pretty` of that list. The pretty-printed JSON array
  is not modelled.
- Bridge.Render: the rotation entry is written with its keys in sorted order
  (aid, new_public_key, sn, type), as `serde_json` writes a `json!` object
  by default. Key order under other `serde_json` features is not modelled.
- Bridge.Incepted: the inception event's JSON is `keri_core`'s
  serialization, a parameter that may fail.
- Keri.CreateInceptionEvent: the Go error paths of `json.Marshal` cannot be
  taken for this struct of strings and string slices, so the model has no
  error result.
- Agent.DecodePublicKey: Go's standard base64 decoder also skips carriage
  returns and newlines in its input. The model decodes strictly.
- Driver.B64UrlDecode: decodes strictly, and so refuses some texts that
  Python decodes. `urlsafe_b64decode` maps '-' and '_' to '+' and '/' and
  then decodes the standard alphabet, so it also reads '+' and '/' as 62
  and 63. Its non-strict decoder discards characters outside the alphabet,
  ignores a '=' that comes after a complete group, and stops at the first
  completed padding. So "QUJD==" and "QQ==QUJD" decode in Python, but the
  model refuses both. `base64.b64decode` in `verify` is modelled the same
  way.
- Request fields of the wrong JSON type, such as a number where a string is
  expected, are not modelled. Absent fields read as their default.
- nil slices and empty slices are the same empty sequence, so the nil-list
  defaulting of `handleCreatePolicy` shows up only as the empty list. A nil
  `splitPath` result is the empty sequence too.
- Go's `split` walks bytes and the model walks characters. For the ASCII
  separator ':' the two give the same parts.
- The JSON serializer is modelled only for objects whose strings need no
  escaping. Every inception event the agent builds is of that kind
  (`Keri.InceptionPlain`).
