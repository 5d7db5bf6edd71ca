# Therma backend: the journal-entry write pipeline, in Dafny

This project models the write path behind `POST /journal-entries` of the
Therma backend (Go, AWS Lambda) and the match-score routine, and proves what
that code promises. The model has six modules:

- `Idempotency` (idempotency.dfy) is the idempotency coordinator. An
  `IdempotencyService` class owns the record table (a `map` field). Its methods
  are the service's read (with lazy deletion of expired records), conditional
  insert, update and delete. `ProcessIdempotentRequest` is split into
  `BeginIdempotentRequest` (everything before the handler runs) and
  `FinishIdempotentRequest` (everything after). Each half is specified by a pure
  function, `Admit` and `Complete`. A ghost counter `handlerRuns` counts handler
  invocations.
- `CostControl` (cost_control.dfy) is the spend ledger. A `CostControlService`
  class owns the (user, date) spend table. `CheckUserSpendLimit` is a read-only
  function. `RecordLLMRequest` is the read-modify-write method. The module also
  holds the model price table and `EstimateLLMCost`.
- `Encryption` (encryption.dfy) is the PHI encryption boundary:
  `EncryptPHI`/`DecryptPHI` with the empty-string short-circuit and the fixed
  encryption context. The array variants are one loop filling a preallocated
  array (`TransformArray`), specified by the element-wise function `MapAll`.
- `JournalEntry` (journal_entry.dfy) is the Lambda handler:
  - authentication and the `Bearer ` strip;
  - validation order and status codes;
  - `processJournalEntry` with its denied/degraded and encrypt-then-charge
    branches;
  - `Handle`, which runs the whole request through the coordinator, the ledger
    and the encryption boundary.
- `GoJson` (go_json.dfy) is the part of Go's `encoding/json` that the replay
  path depends on:
  - how values are written (struct fields in declaration order, HTML-safe
    string escaping);
  - what decoding into an `interface{}` gives back: objects become maps, and a
    map is written with its keys sorted.
- `MatchUser` (match_user.dfy) is `calculateMatchScore`. `CountCommonPairs`
  keeps the nested counting loops. The score is a `Score` value, which may be
  the NaN Go produces, and it is compared against the threshold of 50.

`Common` (common.dfy) holds `Option`, `Result` and an `Error` chain. The chain
mirrors `fmt.Errorf("...: %v", err)` wrapping, so "the original error is
returned unchanged" is an equality.

External services are parameters, never axioms:

- SHA-256/hex is the class constant `hash`.
- KMS is the `Kms` pair and base64 is the `Base64` pair.
- JSON parsing is `parse`. Request decoding is `parseRequest`. Token validation
  is `validateToken`. Time formatting is `timeText`.
- Each store call takes an `Option<Error>` transport fault (`None` means the
  call succeeds).
- The clock (`now`, `today`) and generated ids are inputs.

What the design relies on these services for is stated as predicates that
lemmas require: `RoundTrips`, `Injective`, `KmsSound`, `Base64Sound` and
`ParseSound`. Time is whole seconds. Money is `real`.

The code is followed where the written design differs from it:

- The degraded entry is marked `Encrypted=false` and carries the literal user
  id `"user_id"`.
- A failed record blocks retries until it expires, because the conditional
  insert refuses the existing key.
- A match score can be NaN; it is modelled as NaN rather than excluded by a
  precondition.
- A replayed response is not byte-identical to the first one (see Findings).

## Model

| member | source | states |
|---|---|---|
| Idempotency.IdempotencyService.KeySeparatesBodies | internal/idempotency/service.go:54-57 | with a collision-free hash, one user's requests to one endpoint share a key exactly when their bodies are equal |
| Idempotency.IdempotencyService.KeyJoinIsAmbiguous | internal/idempotency/service.go:54-57 | the ":"-joined fingerprint gives user "a:b" on endpoint "c" and user "a" on endpoint "b:c" the same key |
| Idempotency.IdempotencyService.RequestHashSeparatesBodies | internal/idempotency/service.go:60-63 | with a collision-free hash, two bodies get one request hash exactly when they are equal |
| Idempotency.IdempotencyService.CheckIdempotency | internal/idempotency/service.go:66-97 | a read failure is wrapped and changes nothing; otherwise the answer is the live record under that key (absent or expired reads as none), and an expired record is deleted unless the delete fails |
| Idempotency.IdempotencyService.StoreIdempotencyRecord | internal/idempotency/service.go:100-128 | insert-if-absent: an existing key gives "idempotency key already exists" and leaves the table unchanged; otherwise exactly that record, with TTL now+24h, is added and no other key changes |
| Idempotency.IdempotencyService.UpdateIdempotencyRecord | internal/idempotency/service.go:131-156 | only response, status and updated_at of the key change; an absent key is created with only those attributes; a failure changes nothing |
| Idempotency.IdempotencyService.DeleteIdempotencyRecord | internal/idempotency/service.go:159-173 | removes exactly that key, or reports the failure and changes nothing |
| Idempotency.IdempotencyService.BeginIdempotentRequest | internal/idempotency/service.go:181-223 | the admission answer and the new table are those of `Admit`: replay cached, pending, conflict, store refusal, or proceed after inserting a pending record |
| Idempotency.IdempotencyService.FinishIdempotentRequest | internal/idempotency/service.go:225-247 | the answer and the new table are those of `Complete`: the handler error unchanged with the record failed, a marshal error with the record failed, or the value with the record completed |
| Idempotency.IdempotencyService.ProcessIdempotentRequest | internal/idempotency/service.go:176-248 | replayed answers do not run the handler and leave the table as `Admit` left it; a proceeding request runs it exactly once and ends as `Complete` says |
| Idempotency.AdmitKeepsKeys | internal/idempotency/service.go:211-223 | admission keeps every record under its own key |
| Idempotency.CompletedIsReplayed | internal/idempotency/service.go:192-199 | a live completed record with the same body hash is answered from the cache, table unchanged |
| Idempotency.PendingIsRejected | internal/idempotency/service.go:200-202 | a live pending record with the same hash gives "request is already being processed", table unchanged |
| Idempotency.MismatchIsConflict | internal/idempotency/service.go:205-208 | a live record with another hash gives the key-conflict error whatever its status |
| Idempotency.FailedBlocksUntilExpiry | internal/idempotency/service.go:192-223 | a live failed record with the same hash falls through to the insert, which refuses the existing key: an error, table unchanged |
| Idempotency.FirstSightProceeds | internal/idempotency/service.go:211-223 | first sight of a key stores a pending record expiring 24 hours later and proceeds; no other key changes |
| Idempotency.ExpiredIsReplaced | internal/idempotency/service.go:89-94 | an expired record is deleted and replaced by a fresh pending record; the handler runs again |
| Idempotency.HandlerErrorPropagates | internal/idempotency/service.go:227-231 | a handler error is returned unchanged and the record is marked failed |
| Idempotency.SuccessIsReturned | internal/idempotency/service.go:234-247 | a success is returned even when recording it fails; when recorded, the record is completed and holds the marshalled response |
| Idempotency.AtMostOnce | internal/idempotency/service.go:181-247 | after a run for a key, no request for that key within 24 hours runs the handler again; a retry after a recorded success gets the decoded stored text, which is the result itself when JSON round-trips |
| CostControl.Admission | internal/llm/cost_control.go:81-98 | allowed exactly when current + estimate <= limit; current, limit and remaining = limit − current are reported either way; a reason exactly when denied |
| CostControl.DefaultDailyLimit | internal/llm/cost_control.go:194-198 | the limit of a user without a record for the day is positive |
| CostControl.FreshDayAdmitsUpToDefault | internal/llm/cost_control.go:68-88 | a user's first request of the day is admitted exactly when its estimate fits within the default limit, with nothing spent and the whole limit remaining |
| CostControl.CostControlService.CheckUserSpendLimit | internal/llm/cost_control.go:59-99 | read-only; a read failure is wrapped; an absent record counts as cost 0 and limit 5.0; otherwise the answer of `Admission` on the stored figures |
| CostControl.CostControlService.GetUserSpendSummary | internal/llm/cost_control.go:140-171 | today's stored record if present (it belongs to that user and date), none otherwise; a read failure is wrapped as "failed to get item" |
| CostControl.CostControlService.RecordLLMRequest | internal/llm/cost_control.go:102-137 | only the (user, today) entry is written: one more request, cost added, TTL now+7 days; a read or write failure changes nothing and is reported |
| CostControl.EstimateLLMCost | internal/llm/cost_control.go:201-231 | non-negative for non-negative token counts |
| CostControl.UnknownModelPricedAsSonnet | internal/llm/cost_control.go:221-225 | an unknown model name costs what the Sonnet model costs |
| CostControl.EstimateIsSumOfParts | internal/llm/cost_control.go:227-230 | the estimate is the input part plus the output part |
| CostControl.ChargeKeepsIdentityAndGrows | internal/llm/cost_control.go:124-128 | recording keeps user, date and limit, adds one request, and a non-negative cost never lowers the spent amount |
| CostControl.AdmittedChargeStaysWithinLimit | internal/llm/cost_control.go:82-98 | an admitted cost, once recorded, leaves the day's spending at most the limit |
| CostControl.NearLimitIsDenied | internal/llm/cost_control.go:90-95 | $4.99 spent of $5.00 plus a $0.50 request is denied with $0.01 remaining |
| Encryption.EncryptPHI | internal/encryption/kms.go:39-60 | "" gives "" for every service; otherwise success exactly when the service encrypts, and the result is the base64 of its ciphertext |
| Encryption.DecryptPHI | internal/encryption/kms.go:63-88 | "" gives ""; text that is not base64 fails before the service is asked, with "failed to decode ciphertext"; otherwise success exactly when the service decrypts, giving the service's plaintext |
| Encryption.RoundTrip | internal/encryption/kms.go:44-80 | both directions use one context, so with a sound service and base64 every encrypted field decrypts to its plaintext, "" included |
| Encryption.MapAll | internal/encryption/kms.go:91-124 | success exactly when every element succeeds; then the same length and element i is the transform of input i |
| Encryption.MapAllFailsAtFirst | internal/encryption/kms.go:97-101 | the error reports the first failing index with that element's error |
| Encryption.PrefixFailureIsFinal | internal/encryption/kms.go:97-101 | once a prefix fails, the whole array fails with that error: no partial array |
| Encryption.ArrayRoundTrip | internal/encryption/kms.go:91-124 | an encrypted array decrypts element-wise back to the plaintext array |
| Encryption.TransformArray | internal/encryption/kms.go:91-106 | the filling loop returns exactly `MapAll` of its input |
| Encryption.EncryptPHIArray | internal/encryption/kms.go:91-106 | on success the same length with element i = `EncryptPHI(input[i])`; fails exactly when some element fails; an empty input gives an empty array |
| Encryption.DecryptPHIArray | internal/encryption/kms.go:109-124 | on success the same length with element i = `DecryptPHI(input[i])`; fails exactly when some element fails |
| JournalEntry.StripBearer | lambda/journal-entry/main.go:196-198 | "Bearer " is removed only from a header longer than 7 characters that starts with it; anything else passes unchanged |
| JournalEntry.BearerStripped | lambda/journal-entry/main.go:196-198 | "Bearer " + t gives t for non-empty t; "Bearer " alone is kept |
| JournalEntry.ExtractUserIdFromRequest | lambda/journal-entry/main.go:188-207 | a missing or empty header is refused before the validator is asked; otherwise success exactly when the stripped token validates, giving the validator's user id; a refused token is wrapped as "invalid token" |
| JournalEntry.ValidateRequest | lambda/journal-entry/main.go:45-61 | 401 UNAUTHORIZED, then 400 INVALID_REQUEST, then 400 VALIDATION_ERROR, in that order; passes exactly when the token is valid, the body parses and the content is non-empty |
| JournalEntry.MissingAuthIsUnauthorized | lambda/journal-entry/main.go:47-50 | no Authorization header gives 401 with "missing authorization header", whatever the body |
| JournalEntry.EstimatedCost | lambda/journal-entry/main.go:117 | the estimate of an entry is positive |
| JournalEntry.EncryptFields | lambda/journal-entry/main.go:128-142 | content, mood, tags are encrypted in that order and the first failure is the one reported (content before mood before tags); success exactly when all three succeed, giving the three ciphertexts |
| JournalEntry.HandleCostLimitExceeded | lambda/journal-entry/main.go:166-186 | the degraded entry carries the request's fields in plaintext, the placeholder user id "user_id", and is not marked encrypted |
| JournalEntry.ProcessJournalEntry | lambda/journal-entry/main.go:109-164 | the answer is `JournalOutcome` of the admission check, and the ledger is charged the checked estimate only on the admitted, fully encrypted path |
| JournalEntry.DeniedIsDegraded | lambda/journal-entry/main.go:166-186 | a denied admission gives the plaintext entry with Encrypted=false and user "user_id" for every encryption service, and charges nothing |
| JournalEntry.EncryptionFailureChargesNothing | lambda/journal-entry/main.go:129-142 | an encryption failure is an error and records no cost |
| JournalEntry.AdmittedEntryRoundTrips | lambda/journal-entry/main.go:145-163 | an admitted entry belongs to the caller, is marked encrypted, decrypts back to the request's fields, and the recorded cost grows by exactly the checked estimate |
| JournalEntry.AsAnswer | lambda/journal-entry/main.go:85-87 | the handler's entry or error reaches the coordinator unchanged |
| JournalEntry.Respond | lambda/journal-entry/main.go:90-106 | 201 exactly when processing and serialisation succeed, with the serialised body; a processing error is 500 PROCESSING_ERROR; a serialisation error is 500 SERIALIZATION_ERROR with its text |
| JournalEntry.Handle | lambda/journal-entry/main.go:45-107 | validation failures touch nothing; a replay touches neither ledger nor handler counter; a proceeding request runs the handler once and ends as `Complete` and `LedgerAfter` say |
| JournalEntry.MarshalAnswer | lambda/journal-entry/main.go:95 | an entry is written as its JSON object in struct field order, a decoded value as itself; a raw message is written unchanged, and only when it is JSON |
| JournalEntry.UnmarshalAnswer | internal/idempotency/service.go:194-198 | a stored response decodes exactly when it parses, into a sorted generic value or kept as text |
| JournalEntry.DecodedEntryKeys | internal/idempotency/service.go:194-198 | the decoded entry has the entry's eight keys, in sorted order |
| JournalEntry.EntryTextStart | lambda/journal-entry/main.go:28-37 | the entry as first written starts `{"i` |
| JournalEntry.DecodedEntryTextStart | internal/idempotency/service.go:194-198 | the decoded entry is written starting `{"c` |
| JournalEntry.ReplayReordersMembers | internal/idempotency/service.go:194-198 | the replay of a 201 entry decodes to the sorted generic value and is written differently from the first answer |
| JournalEntry.RawReplayIsIdentical | internal/idempotency/service.go:194-198 | decoded as a raw message, the stored text is written back unchanged |
| JournalEntry.GenericReplayIsStable | internal/idempotency/service.go:194-198 | replaying a replay gives the same decoded value: only the first answer differs |
| JournalEntry.RetryIsReplayed | lambda/journal-entry/main.go:80-106 | for a request whose key has no record yet, a retry within 24 hours after a 201 runs no handler and records no cost; it is answered 201 and equals the first answer exactly when cached responses are kept as text |
| GoJson.EscapeChar | lambda/journal-entry/main.go:95 | a character is written as itself exactly when it needs no escaping; otherwise as a backslash escape |
| GoJson.Escape | lambda/journal-entry/main.go:95 | a string is written unchanged exactly when all its characters need no escaping |
| GoJson.SortMembers | internal/idempotency/service.go:194-198 | a decoded object's members are in strictly increasing key order with the same keys |
| GoJson.InsertMemberContents | internal/idempotency/service.go:194-198 | a map insertion keeps the other keys, adds the new member, and overwrites an equal key |
| GoJson.GenericIsCanonical | internal/idempotency/service.go:194-198 | every object in a decoded value has its keys sorted |
| GoJson.CanonicalIsFixed | internal/idempotency/service.go:194-198 | decoding a value whose objects are already sorted gives it back unchanged |
| GoJson.GenericIdempotent | internal/idempotency/service.go:194-198 | decoding a decoded value's text gives that value again |
| GoJson.ObjectTextStart | lambda/journal-entry/main.go:95 | an object's text starts with the first character of its first key |
| MatchUser.CountCommonPairs | lambda/match-user/main.go:29-45 | the nested loops count `CommonPairs`, which is the number of index pairs (i, j) with a[i] == b[j] |
| MatchUser.CommonPairsCountsEqualPairs | lambda/match-user/main.go:30-36 | the recursive count equals the size of the set of equal index pairs, duplicates included |
| MatchUser.CalculateMatchScore | lambda/match-user/main.go:24-59 | the score is `MatchScore`: 0 with all lists empty, otherwise interest part plus preference part |
| MatchUser.CommonPairsSymmetric | lambda/match-user/main.go:29-45 | counting equal pairs does not depend on which user comes first |
| MatchUser.ScoreSymmetric | lambda/match-user/main.go:24-59 | swapping the two users leaves the score unchanged |
| MatchUser.ScoreNaNExactly | lambda/match-user/main.go:51-56 | the score is NaN exactly when one category is empty on both sides and the other is not; all empty gives 0 |
| MatchUser.CommonPairsBound | lambda/match-user/main.go:47-58 | for duplicate-free lists, twice the common count is at most the total |
| MatchUser.CommonPairsAtMostLength | lambda/match-user/main.go:29-36 | against a duplicate-free list, each element of the other list counts at most once |
| MatchUser.ScoreInRange | lambda/match-user/main.go:47-58 | for duplicate-free lists a finite score lies between 0 and 100 |
| MatchUser.RatioAtMostFifty | lambda/match-user/main.go:55-56 | each category contributes between 0 and 50 points when its common count is at most half its total |
| MatchUser.SelfPairs | lambda/match-user/main.go:29-36 | a duplicate-free list pairs with itself once per element |
| MatchUser.IdenticalProfilesMatch | lambda/match-user/main.go:24-59 | two identical duplicate-free non-empty profiles score 100 and are matched |
| MatchUser.NoMatchBelowThreshold | lambda/match-user/main.go:109 | a NaN score or one below 50 creates no match |

## Left out

- Constructors and configuration (`NewIdempotencyService`, `NewCostControlService`, `NewKMSClient`, table names from the environment) are not modelled. The handler's three 500 SERVICE_ERROR answers (lambda/journal-entry/main.go:63-77) are therefore never produced.
- DynamoDB request building and attribute (un)marshalling are replaced by map operations. Their "failed to (un)marshal ... record" errors are not modelled.
- The refused conditional put is taken to be recognised as a `ConditionalCheckFailedException`. How the AWS SDK wraps that error is not modelled.
- The store's own background TTL deletion is not modelled. Only the explicit `ExpiresAt` check is.
- SHA-256/hex, KMS, base64 and JSON parsing are oracles. `ValidateKMSKey` and `GetKeyPolicy` are pure service calls and are not modelled.
- Concurrency between invocations (the race the conditional put guards against, and the non-atomic spend update) is not modelled: store calls are sequential steps.
- Floating point is not modelled. Costs and scores are exact reals; NaN is a separate `Score` value.
- `time.Now()` and `generateID` are inputs. An entry's `created_at` and `updated_at` are one `now`, and the admission check and the cost record use one `today`, where the source reads the clock separately each time.
- EstimatedCost: counts the characters of the content, where Go's `len` counts its UTF-8 bytes (equal for ASCII).
- Go's nil and empty slices are one value, so a request without tags is written with `"tags":[]`, not `null`.
- The denial reason's `%.4f` text is not modelled. `LimitExceeded` carries its three figures.
- An error response body is given by its three fields, not its JSON text. The `Content-Type` header is modelled.
- MarshalAnswer: writes a raw message as it is; Go also compacts it, which changes nothing for the compact text the store holds.
- String escaping follows Go 1.22 and later (`\b` and `\f` short escapes).
- Handle: `processJournalEntry` is passed to the coordinator as a closure in Go. Here `Handle` calls the coordinator's two halves around it, and bumps the handler counter itself.
- `GetGracefulDegradationOptions` (a constant list) is not modelled. The match-user handler's database queries and responses are not modelled; only the score and the `score >= 50` threshold are.
- lambda/register-user, lambda/create-profile, lambda/send-notification, internal/db/db.go and internal/models/user.go are not part of this model.

## Findings

| source | as written | input that shows it | evidently intended | confidence | as-written member | corrected member |
|---|---|---|---|---|---|---|
| internal/idempotency/service.go:194-198 | a cached response is decoded into an `interface{}` (a map) and written again, so its keys come back sorted | any retry, within 24 hours, of a `POST /journal-entries` that was answered 201: the first body starts `{"id":`, the retry's starts `{"content":` | a retry receives the identical serialised entry (decode into `json.RawMessage`) | high that the bytes differ; not executed | JournalEntry.ReplayReordersMembers | JournalEntry.RawReplayIsIdentical |
