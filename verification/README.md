# SecureShare: verified model

SecureShare hands a secret to one recipient, once. A delivery is a row of the table `secret_deliveries`
holding Vault ciphertext. A recipient's `Consume` call finds the row by its token, checks an optional link
password, takes a lease on the row, decrypts, and completes. Other callers consume, revoke, change the
password and clean up at the same time, and any of them may crash, or lose the reply of a statement that
did or did not commit.

This project models that protocol and the code around it whose correctness is not evident from one body,
and proves what the service is for. `dafny verify dfyconfig.toml` checks it.

## How it is organised

The delivery protocol:

- `Rows.dfy`: the table and each UPDATE the repository sends, as a WHERE clause (`Matches`) and a SET clause (`Assign`).
- `Protocol.dfy`: the transition system. Any number of clients; every SQL statement is one atomic step with
  its own `NOW()`; a step's label resolves all nondeterminism, so a run is a sequence of labels. Safety is
  proved for an arbitrary clock and any lease length; a nondecreasing clock is assumed only where a lemma says `Ordered`.
- `Invariants.dfy`: what every step keeps, over every run.
- `OneTime.dfy`, `Leases.dfy`, `Attempts.dfy`, `Conservation.dfy`: the theorems over whole runs.
- `OneShot.dfy`: the forward simulation. Rows, leases and clients together refine an object that is available until it is taken or dies.
- `Endings.dfy`: when a consumed delivery was shown to anybody, and the three ways in which it is not.
- `Stranding.dfy`: what Cleanup does not recover, and how a dead holder is superseded before the expiry. `Retention.dfy`: how long an expired delivery keeps its ciphertext.
- `Repository.dfy`: the repository as a class that rewrites its rows; `Service.dfy`: `Prepare` and `Consume` as methods over it.
- `Solo.dfy`: what `Consume` promises a caller that runs alone, and the proof that this method, the repository's
  methods and Cleanup are runs or steps of the protocol, so that every run theorem covers them. The steps are shown
  possible from every reachable state, so that no theorem holds for want of runs.
- `EndToEnd.dfy`: the protocol joined with the payload codec: what was created is what is shown.
- `Visits.dfy`: the promise to one recipient over `Prepare` and two attempts, on the repository object.

Beside it:

- `Json.dfy`, `Payload.dfy`: the payload codec, from the create request to what the recipient gets.
- `Query.dfy`, `Listing.dfy`: the query builder with its numbered arguments, and paging.
- `Placeholders.dfy`, `Template.dfy`, `Html.dfy`: the e-mail template scanner and its three passes, rendering, and the HTML part.
- `RateLimit.dfy`: the fixed-window limiter. `Sessions.dfy`: the in-memory session store.
- `Text.dfy`, `Wrappers.dfy`: string functions and result types.

## Where the code and its documentation differ

- `ARCHITECTURE.md:162` and `OPERATIONS.md:222` say that Cleanup restores stale leases, and `SECURITY.md:75` that
  expired payloads are blanked. `internal/delivery/repository.go:461-463` restores a stale lease only before the
  delivery's expiry, and line 447 expires active rows only. `Stranding.dfy` proves exactly when a stale lease is
  recovered, gives a run with a stale lease that Cleanup leaves alone, and proves that nothing but a revocation ever frees such a delivery.
- `README.md:55` and `docs/THREAT_MODEL.md:9` promise at most one reveal, which is proved. "Exactly one" is false.
  `Endings.ConsumedIsShownIff` proves that a consumed delivery is shown if and only if the reply to its
  `CompleteConsume` arrived, its caller went on to reply, and its plaintext decodes; `Endings.CanBeLost` and
  `Endings.LossHappens` exhibit each of the three losses. The third needs a plaintext that the service did not store:
  `EndToEnd.StoredIsShownIff` proves that the first two conditions alone decide for a delivery that Create accepted.
- `CompleteConsume` does not look at `expires_at`. Every reveal rests on a `BeginConsume` sent before the expiry
  (`OneTime.PasswordAtCommit`), but when the completion runs does not matter: `SoloRuns.SoloRevealsIff` does not mention its
  time, `Endings.CompletionIgnoresExpiry` lets it be any, and `Endings.LateRevealHappens` is a run that reveals at the expiry.
- `internal/delivery/repository.go:495-497` returns an error and no counts when the reply to Cleanup's commit is lost, although
  the rows have changed. `Conservation.CleanupReportsAddUp` proves when the returned counts add up to what the table shows, and
  `Conservation.ReportsFallShort` gives runs in which they do not.
- Searching a listing is not literal: `%`, `_` and `\` in the search text act as LIKE metacharacters.
  `Query.SearchIsLiteralIff` proves that these, and only these, searches can find a row that does not contain their text.

## Assumptions

- Each statement is atomic and `id` and `token_hash` are unique, as PostgreSQL and the schema provide; Vault ciphertext is not empty.
- JSON texts that are written are read back as the same value (`EndToEnd.Uses`).
- Lease ids are fresh. Password verification, decryption and payload decoding are arbitrary deterministic functions; decryption may also be down.
- Cleanup's transaction is modelled more weakly than it runs: its three UPDATEs are separate steps, each on any subset of the
  rows it matches, so every interleaving of READ COMMITTED row updates is covered. Each may lose its reply, or never run.
- The limiter reads the clock before it takes its lock; its theorems assume the times to be nondecreasing in lock order. The session
  theorems assume a nondecreasing clock and that a session hash is not issued twice.
- Lower-casing is ASCII. For payload types and field names nothing is lost: neither is accepted with another character in it.
- Strings are sequences of characters; lengths that the code takes with `len` are counted in UTF-8 bytes.

## Model

| member | source | states |
|---|---|---|
| `Rows.SingleRowUpdate` | internal/delivery/repository.go:300-315 | a statement that names a token or an id changes the one row it finds and no other, and token uniqueness survives |
| `Rows.UpdateKeepsRowOk` | internal/delivery/repository.go:214-484 | no statement breaks the row invariant; only the lease's own CompleteConsume consumes, only BeginConsume issues a lease and only against the row's current hash; a final row is never touched except to blank an expired ciphertext |
| `Rows.OnlyExpiredRowsAreClearable` | internal/delivery/repository.go:470-480 | under the row invariant the clearing statement matches exactly the unblanked expired rows past retention; its consumed and revoked clauses are dead |
| `Rows.WholeSecondsTruncate` | internal/delivery/repository.go:276-292 | a duration in nanoseconds reaches the database as whole seconds, the rest cut off toward zero |
| `Invariants.StepKeepsInv` | internal/delivery/repository.go:295-484 | every step keeps the row invariant and what each in-flight client knows (its lease, the hash its password fits, the inserted ciphertext), and moves rows forward only |
| `Invariants.RunKeepsInv` | internal/delivery/service.go:252-343 | the invariant holds after every run, for any clock and any lease length |
| `Invariants.RunEvolves` | internal/delivery/repository.go:217-227 | between any two moments of a run consumed and revoked rows are unchanged, expired rows stay expired, a lease that is gone does not return, and a standing lease pins the password hash |
| `OneTime.AtMostOneReveal` | internal/delivery/service.go:252-343 | over all interleavings at most one Consume commits a delivery, so at most one returns its payload |
| `OneTime.NoSecondReveal` | internal/delivery/service.go:327-342 | no run reveals one delivery twice, not even to one caller |
| `OneTime.RevealIsTheInsertedPayload` | internal/delivery/service.go:312-342 | what is revealed is the decoded decryption of the ciphertext inserted for that delivery, and the row is then consumed and blank |
| `OneTime.HolderWasVerified` | internal/delivery/service.go:274-302 | every lease holder's own BeginConsume ran before the expiry, on a row with the hash its password had been accepted for, and while its lease stands the row stores that hash |
| `OneTime.RevealWasCommitted` | internal/delivery/repository.go:407-426 | every reveal goes back to a CompleteConsume of the same client that found the row under its own lease |
| `OneTime.PasswordAtCommit` | internal/delivery/repository.go:295-320 | every reveal goes back to a BeginConsume before the expiry, and at its commit the row stores exactly the hash the revealing caller's password was verified against |
| `OneTime.RevokedIsNeverRevealed` | internal/delivery/repository.go:214-243 | if any Revoke of a delivery reports success, no Consume reveals it anywhere in the run, before or after |
| `OneTime.RevokeStep` | internal/delivery/repository.go:217-231 | a Revoke that reaches the table reports success exactly on a delivery it finds active or consuming, the condition under which RevokeDelivery says so; the row is then revoked, blank and unleased, and otherwise nothing changes |
| `OneTime.RevocationTakesEffect` | internal/delivery/repository.go:214-243 | a Revoke that finds the delivery open ends it for good, whether or not its answer arrives: revoked and blank ever after, and never shown to anybody |
| `OneTime.RevokeAfterRevealReportsConsumed` | internal/delivery/repository.go:231-242 | after a reveal every Revoke reports no success and status consumed |
| `OneTime.FinalRowsAreFrozen` | internal/delivery/repository.go:328-419 | at any two points of a run: the row invariant, and consumed and revoked rows identical, expired rows still expired |
| `OneTime.ClearingReachesExpiredRowsOnly` | internal/delivery/repository.go:470-480 | no reachable consumed or revoked row is ever matched by Cleanup's clearing statement |
| `Leases.LostLeaseStaysLost` | internal/delivery/repository.go:301-313 | a lease id that has left its row never stands in it again |
| `Leases.SupersededClientIsInert` | internal/delivery/repository.go:391-426 | a superseded client's CompleteConsume or RestoreConsume changes no row, whenever it comes, and does not let it reveal |
| `Leases.OneCurrentHolder` | internal/delivery/service.go:297-302 | at any moment at most one client holds the lease that stands in the row |
| `Leases.LeaseIsExclusive` | internal/delivery/repository.go:309-313 | with a nondecreasing clock two BeginConsume commits on a delivery are more than the lease length apart unless the first holder returned its lease in between |
| `Leases.LeaseIsExclusiveInSteps` | internal/delivery/repository.go:309-313 | the same in steps: two commits of BeginConsume no more than the lease length apart have a RestoreConsume of the first holder, under its own lease, between them |
| `OneShot.StepRefines` | internal/delivery/repository.go:295-426 | every step is one action of the one-shot object on each delivery, or silence: CompleteConsume is the take, and leasing, restoring, takeover and recovery are silent |
| `OneShot.RunRefines` | internal/delivery/service.go:252-343 | the one-shot object accepts the actions of every run and ends in the state the delivery ends in |
| `OneShot.OutcomeInColumns` | internal/delivery/service.go:252-343 | what the object's state says of the row, and back: absent, available with this hash and this many attempts, taken by the recorded client, or dead |
| `OneShot.NothingFollowsTake` | internal/delivery/repository.go:407-426 | of the object: after a take every further action is silent and the taker never changes |
| `OneShot.NothingFollowsDeath` | internal/delivery/repository.go:217-227 | of the object: nor does anything follow a death |
| `OneShot.RevealIsATake` | internal/delivery/service.go:326-342 | a caller that reveals performed the take with its own password, and the delivery sees nothing after it |
| `OneShot.ConsumedWasTaken` | internal/delivery/repository.go:411-420 | every consumed row was taken by a client, and that client is recorded |
| `Attempts.AttemptsAreAccounted` | internal/delivery/repository.go:322-389 | failed_attempts is the number of failures recorded since the last password change; each such epoch gives at most max-1 invalid-password answers, a delivery's whole life at most one lock, and it locks exactly when the count reaches max, leaving the row revoked and blank |
| `Attempts.AnswerIsCounted` | internal/delivery/service.go:274-294 | a step gives a caller the invalid-password answer if and only if it records an answered, non-locking failure of that caller |
| `Attempts.InvalidAnswersAreTheFailures` | internal/delivery/service.go:274-294 | in every run the callers told that their password is invalid and the counted failures are in bijection, each pair about the delivery of the caller's token |
| `Conservation.CleanupCountsAddUp` | internal/delivery/repository.go:443-498 | the counts of all cleanup statements, those whose reply arrived and those whose reply was lost, add up to the expired rows and to the blank expired rows |
| `Conservation.CleanupReportsAddUp` | internal/delivery/repository.go:443-498 | the Expired and PayloadsCleared counts that callers receive never exceed the expired and the blank expired rows, and reach them if and only if no cleanup statement that changed a row lost its reply |
| `Conservation.ReportsFallShort` | internal/delivery/repository.go:495-497 | concrete runs of one delivery in which the returned Expired count, and the returned PayloadsCleared count, are less than what the table shows |
| `Conservation.DashboardCountsEveryInsert` | internal/delivery/repository.go:129-159 | after every run the four dashboard counts add up to the number of deliveries ever inserted |
| `Endings.ConsumedWasCommitted` | internal/delivery/repository.go:407-426 | every consumed delivery was consumed by one CompleteConsume, whose caller is its winner |
| `Endings.CommitEnds` | internal/delivery/service.go:326-342 | where the caller of a committed CompleteConsume is at any later point, by the fate of the reply, what it did since and whether the plaintext decodes |
| `Endings.ConsumedIsShownIff` | internal/delivery/service.go:326-342 | a consumed delivery has been shown to somebody if and only if the commit was answered, its caller went on to reply, and the plaintext decodes, and then to that caller; otherwise that caller is about to reply or done without the payload |
| `Endings.CanBeLost` | internal/delivery/service.go:326-342 | from every reachable state each of the three losses can befall any delivery that can be consumed |
| `Endings.LossHappens` | internal/delivery/service.go:326-342 | a concrete run for each loss: a lost reply, a caller cut off, a plaintext that does not decode |
| `Endings.CompletionIgnoresExpiry` | internal/delivery/repository.go:407-426 | whatever the time of its completion, a caller whose first two statements ran before the expiry is shown the payload |
| `Endings.LateRevealHappens` | internal/delivery/repository.go:411-420 | a concrete run that reveals a delivery at its expiry |
| `EndToEnd.StoredIsShownIff` | internal/delivery/service.go:326-342 | a consumed delivery that holds what Create stored for an accepted request has been shown if and only if its commit was answered and its caller replied, and what is shown is the payload created, with its older form |
| `EndToEnd.StoredCanBeShown` | internal/delivery/service.go:326-342 | a run that creates, consumes and shows a delivery stored for any accepted request |
| `Retention.ExpiredWasMarked` | internal/delivery/repository.go:443-480 | every expired row was marked by one cleanup; until blanked its updated_at is the marking time, and it is blanked only by a clearing at least the retention after that |
| `Retention.RetentionCountsFromMarking` | internal/delivery/repository.go:470-480 | in every reachable state a clearing matches an unblanked expired row if and only if the retention has passed since its marking |
| `Stranding.StaleLeaseIsRecoveredIff` | internal/delivery/repository.go:455-463 | Cleanup returns a stale lease if and only if the delivery is before its expiry, and otherwise leaves the row as it is |
| `Stranding.PastExpiryIsExpiredIff` | internal/delivery/repository.go:443-448 | a row past its expiry stays open after Cleanup if and only if it came in under a lease |
| `Stranding.OrphanIsStranded` | internal/delivery/repository.go:273-499 | a delivery past its expiry whose lease holder is gone is never changed by any step but a revocation, and keeps its ciphertext |
| `Stranding.CrashCanStrand` | internal/delivery/service.go:302-313 | from every reachable state a caller that could reveal a delivery can die so as to orphan it |
| `Stranding.StrandingHappens` | internal/delivery/repository.go:455-463 | a concrete run of one insert and one interrupted Consume that ends in such a delivery, and a moment at which its lease is stale, its expiry is past and no Cleanup changes it |
| `Stranding.DeadHolderIsSuperseded` | internal/delivery/repository.go:284-313 | before the expiry, from every reachable state, a new caller with the right password gets the inserted payload of a delivery whose holder is gone, once the lease has run out |
| `DeliveryRepository.Repository.Insert` | internal/delivery/repository.go:24-38 | refuses a used id, a used token or an attempt limit outside 1..20, and otherwise adds an active row with these columns, no failures and no lease |
| `DeliveryRepository.Repository.Prepare` | internal/delivery/repository.go:255-271 | says yes exactly when an active, unexpired, unlocked row has the token, and then whether it needs a password and when it expires |
| `DeliveryRepository.Repository.FindConsumeCandidate` | internal/delivery/repository.go:273-293 | finds a row if and only if one has the token, is before its expiry, has attempts left, and is active or under a lease older than the lease length; sub-second lease lengths are truncated to 0 |
| `DeliveryRepository.Repository.BeginConsume` | internal/delivery/repository.go:295-320 | takes a row if and only if one has the token and the expected hash, is before its expiry, has attempts left, and is active or under a lease that has run out; the row is then under the caller's lease from this moment, and no other changes |
| `DeliveryRepository.Repository.RecordPasswordFailure` | internal/delivery/repository.go:322-356 | counts a failure if and only if a row has the token and the verified hash and is open in the same sense; the last attempt revokes and blanks, any other frees the row |
| `DeliveryRepository.Repository.UpdatePasswordProtection` | internal/delivery/repository.go:358-389 | sets the hash and resets the failures exactly on an active unexpired row, reports the old and the new protection, and otherwise changes nothing |
| `DeliveryRepository.Repository.RestoreConsume` | internal/delivery/repository.go:391-405 | frees the row exactly when it still carries this lease |
| `DeliveryRepository.Repository.CompleteConsume` | internal/delivery/repository.go:407-426 | consumes and blanks the row, and says so, exactly when it still carries this lease |
| `DeliveryRepository.Repository.RevokeDelivery` | internal/delivery/repository.go:214-243 | revokes, blanks and frees exactly an active or consuming row, and says so; otherwise changes nothing and reports the status that was in the way |
| `DeliveryRepository.Repository.ExpireRows` | internal/delivery/repository.go:443-453 | expires the active rows past expiry and counts them |
| `DeliveryRepository.Repository.RecoverLeases` | internal/delivery/repository.go:455-468 | frees the unexpired rows under stale leases and counts them |
| `DeliveryRepository.Repository.ClearCiphertexts` | internal/delivery/repository.go:470-484 | blanks exactly the unblanked consumed, expired and revoked rows whose retention has passed, and counts the rows it blanked |
| `DeliveryRepository.Repository.Cleanup` | internal/delivery/repository.go:428-499 | runs the three statements in order at one moment; each count is that of its own statement on the table it met |
| `DeliveryRepository.Repository.Dashboard` | internal/delivery/repository.go:129-159 | each count is the number of rows with its statuses, in whatever order the groups come, and the four add up to the table |
| `DeliveryRepository.CleanupInColumns` | internal/delivery/repository.go:443-484 | what one Cleanup does to each row, by the row's own columns |
| `DeliveryRepository.CleanupPostState` | internal/delivery/repository.go:428-499 | after Cleanup no active row is past expiry, a consuming row has a fresh lease or is past expiry, and an expired row is blank exactly when its updated_at, the marking time by `Retention.ExpiredWasMarked`, plus retention has passed |
| `DeliveryRepository.CleanupIsIdempotent` | internal/delivery/repository.go:428-499 | a second Cleanup at the same moment changes nothing and its three statements match no row |
| `DeliveryRepository.StatusesPartition` | internal/delivery/repository.go:134-158 | the five statuses partition the table |
| `Service.Prepare` | internal/delivery/service.go:241-250 | says yes exactly when the token can be hashed and an active, unexpired row with attempts left has that hash, and then gives that row's protection and expiry |
| `Service.Consume` | internal/delivery/service.go:252-343 | run alone, it changes no row but the token's own. In columns: a delivery that is past its expiry, locked, final or under a live lease is unavailable and untouched; on one that is active or under a lease that has run out, a wrong password costs an attempt or the delivery, a Vault failure frees it, and the right password consumes it and returns the decoded payload |
| `SoloRuns.SoloRevealsIff` | internal/delivery/service.go:264-342 | alone, Consume reveals if and only if at both statements the delivery is before its expiry, has attempts left and is active or under a lease that has run out, the password fits, Vault decrypts and the payload decodes |
| `SoloRuns.RightPasswordReveals` | internal/delivery/service.go:302-342 | after Prepare's yes and before expiry the right password yields the payload, and every later Consume is unavailable and changes nothing |
| `SoloRuns.VaultFailureRestores` | internal/delivery/service.go:312-324 | a failing Vault leaves the delivery as it was, apart from updated_at |
| `SoloRuns.WrongPasswordTakesNoLease` | internal/delivery/service.go:274-295 | a wrong password takes no lease and costs exactly one attempt; the last one revokes and blanks |
| `SoloRuns.SoloIsARun` | internal/delivery/service.go:252-343 | the sequential Consume is, from every reachable state, a run of the protocol with the same rows and the same answer |
| `SoloRuns.StepIsStatement` | internal/delivery/repository.go:295-426 | every protocol step that reaches the table does what the repository method's statement does |
| `SoloRuns.InsertIsAStep` | internal/delivery/repository.go:24-38 | whatever Insert accepts, with a ciphertext, is a step of the protocol from every reachable state |
| `SoloRuns.OwnerIsAStep` | internal/delivery/repository.go:214-389 | so are a revocation and a password change, at any moment and with any fate of the reply |
| `SoloRuns.StatementsMayFail` | internal/delivery/service.go:274-331 | every statement of the protocol may also lose its reply or never run |
| `SoloRuns.SweepsMayInterleave` | internal/delivery/repository.go:443-484 | a cleanup statement may run on any part of the rows it matches |
| `SoloRuns.CallersComeAndGo` | internal/delivery/service.go:252-343 | any caller may arrive with any token and password, and be cut off at every point of Consume, and leaves the table as it is |
| `SoloRuns.CleanupIsARun` | internal/delivery/repository.go:428-499 | Cleanup is, from every reachable state, three steps of the protocol |
| `Visits.VisitTwice` | internal/delivery/service.go:241-343 | after Prepare's yes, over two undisturbed attempts on the repository: a wrong password is refused and a right one then succeeds, unless it was the last attempt, which locks and blanks; an unavailable Vault leaves the next attempt to succeed; a decrypted payload is shown once and the second attempt is unavailable; no other row changes |
| `Visits.TwoAttempts` | internal/delivery/service.go:252-343 | the same promise on the row |
| `Text.TrimCuts` | internal/delivery/service.go:441-444 | trimming cuts off the spaces around a text and nothing else |
| `Text.ContainsIff` | internal/email/template.go:170 | a text contains another if and only if it is that text between two others |
| `PayloadJson.FieldRoundTrip` | internal/delivery/model.go:52-58 | every structured field is read back from its JSON as it was |
| `PayloadJson.PayloadRoundTrip` | internal/delivery/model.go:45-50 | every payload is read back from its JSON as it was, with empty members left out and case-insensitive keys |
| `PayloadJson.OnTheWire` | internal/delivery/model.go:45-58 | the key each member of a payload and of a field is written under, and when it is left out |
| `PayloadJson.KeysInAnyCase` | internal/delivery/model.go:45-58 | a member is recognised whatever the case of its key |
| `PayloadCodec.HasControlCharacters` | internal/delivery/service.go:475-482 | true exactly when some character is a control character |
| `PayloadCodec.NormalizeFields` | internal/delivery/service.go:437-461 | accepts a field list exactly when every cleaned field is well named and no two names agree up to case, keeps the order, and knows whether any field is sensitive |
| `PayloadCodec.NormalizePayload` | internal/delivery/service.go:430-473 | the canonical form of a payload and its summary, or a refusal, for every type |
| `PayloadCodec.LegacyProjection` | internal/delivery/service.go:510-525 | the older form of any payload: values by name, the text, the raw value even when empty, or an error for another type |
| `PayloadCodec.NormalizeIsIdempotent` | internal/delivery/service.go:430-473 | a canonical payload is its own canonical form, with the same summary |
| `PayloadCodec.NormalizedIff` | internal/delivery/service.go:430-473 | which payloads of each type are accepted, said of the submitted names, labels and values, and what is kept of a text and of a JSON value |
| `PayloadCodec.AcceptedFieldsAreKept` | internal/delivery/service.go:440-460 | an accepted field keeps its place, value and flags; its name is the submitted one trimmed, its label the submitted one trimmed or else the name, both at most 100 bytes |
| `PayloadCodec.OneEntryPerField` | internal/delivery/service.go:510-517 | the older form of a structured payload has exactly one entry for each field, with its value |
| `PayloadCodec.StoredIsRevealed` | internal/delivery/service.go:484-497 | a stored canonical payload is revealed as stored, together with its projection |
| `PayloadCodec.AcceptedIsRevealed` | internal/delivery/service.go:393-525 | for every accepted create request the payload revealed is the one stored, and a secret in the older form comes back as the same JSON value |
| `PayloadCodec.AcceptedIff` | internal/delivery/service.go:393-416 | a request without a payload is accepted if and only if its secret is a JSON value other than null, one with a payload if and only if the payload normalises |
| `PayloadCodec.AnyJsonIsRevealed` | internal/delivery/service.go:484-508 | no valid JSON plaintext is refused; one that is no payload is returned as the value it is |
| `PayloadCodec.RevealingIsStable` | internal/delivery/service.go:484-508 | revealing a revealed payload gives the same payload, and the same secret if and only if the plaintext was not null |
| `Query.NormalizeMakesNormal` | internal/delivery/repository.go:528-550 | any options become valid ones, valid ones are left alone, and an invalid page, page size, status, sort or order becomes 1, 25, none, creation or descending |
| `Query.SelectedInColumns` | internal/delivery/repository.go:552-580 | the rows a caller asks for, with closed time bounds and the search in the title or the recipient |
| `Query.ListWhere` | internal/delivery/repository.go:552-580 | bound to its arguments the WHERE clause uses each of $1..$n and no other, can be evaluated on every row, and in SQL's three-valued logic is true of exactly the rows asked for |
| `Query.PlainSearchIsContainment` | internal/delivery/repository.go:562-566 | a search without LIKE metacharacters finds exactly the texts that contain it up to case |
| `Query.SearchIsLiteralIff` | internal/delivery/repository.go:562-566 | a search means containment up to case on every text if and only if it holds none of LIKE's special characters |
| `Listing.AnswerIsTheSelection` | internal/delivery/repository.go:84-93 | the ordered answer is strictly ordered by column and id and holds each selected row as often as the table does |
| `Listing.OrderInColumns` | internal/delivery/repository.go:84-93 | rows come by expiry or by creation, rising or falling as asked, and those of one moment by falling id |
| `Listing.Items` | internal/delivery/repository.go:95-110 | an item shows its row, with empty texts for NULL |
| `Listing.StorageOrderIsUnseen` | internal/delivery/repository.go:91-92 | the order in which the table stores its rows cannot be seen in the answer |
| `Listing.StatementsAnswer` | internal/delivery/repository.go:65-93 | the two statements List sends number their arguments correctly, LIMIT and OFFSET included, and return the count and one page of the answer |
| `Listing.PageCountIsLeast` | internal/delivery/repository.go:114-117 | the page count is the least number of pages that holds every row, and 0 for no row |
| `Listing.PagesCoverTheAnswer` | internal/delivery/repository.go:82-117 | of an unchanged table pages 1 to the last concatenate to the answer; all but the last are full, none of them is empty, all later ones are |
| `Listing.EachRowIsShownOnce` | internal/delivery/repository.go:61-127 | going through all pages shows each selected row exactly once and no other row |
| `Listing.List` | internal/delivery/repository.go:61-127 | never refused by the server; returns the page and the totals the normalised options ask for |
| `Placeholders.ScannerIsTheExpression` | internal/email/template.go:20 | a deterministic scanner accepts at a position exactly the one match the regular expression has there |
| `Placeholders.MatchesAreDisjoint` | internal/email/template.go:20 | no two matches of the expression overlap |
| `Placeholders.ScanFindsEveryMatch` | internal/email/template.go:171-172 | the leftmost scan finds every match of the expression and nothing else |
| `Placeholders.ScanIsOrdered` | internal/email/template.go:171-172 | it finds them in the order of the text |
| `Placeholders.ParseKeepsTheText` | internal/email/template.go:169-189 | literals and matches put together are the template |
| `Placeholders.HolesAreTheMatches` | internal/email/template.go:171-172 | the holes of the parse are the matches of the scan |
| `Placeholders.PassesAgree` | internal/email/template.go:177-188 | stripping and filling, which scan again and match again inside each match, cut the template where listing does |
| `Placeholders.RenderingSucceedsIff` | internal/email/template.go:169-189 | rendering succeeds if and only if every match in the text has an allowed name and the joined literals hold no doubled brace; the result replaces each placeholder once |
| `Placeholders.PlaceholderIsReplaced` | internal/email/template.go:169-189 | where the value goes: text without a doubled brace, a placeholder and a rest render to that text, the value and the rendered rest, if and only if the name is allowed, the rest renders, and no doubled brace arises where the placeholder is stripped; otherwise the error is determined too |
| `Placeholders.SeamHappens` | internal/email/template.go:177-179 | a template that is malformed only because stripping its placeholder joins two single braces |
| `Placeholders.TextWithoutPlaceholder` | internal/email/template.go:169-189 | a text the expression matches nowhere renders to itself or is malformed for its doubled braces |
| `Placeholders.GuardIsAShortcut` | internal/email/template.go:170 | without a doubled brace the template renders to itself, so the guard changes nothing |
| `Placeholders.RenderPlaceholders` | internal/email/template.go:169-189 | the guarded three-pass code computes the meaning of the template, and its errors name the first unsupported placeholder before any malformed one |
| `Placeholders.ContainsPlaceholder` | internal/email/template.go:191-198 | true exactly when the expression matches somewhere with this name |
| `Template.ResolveTemplates` | internal/email/template.go:123-149 | subject and message each come from the most specific source that has one, the footer from the most specific source that says anything, and that source is reported |
| `Template.HasDisallowedControl` | internal/email/template.go:266-273 | true exactly when some character is a control character other than tab and line ends |
| `Template.ValidateTemplateInput` | internal/email/template.go:151-167 | no fault if and only if the texts have at most 255, 10240 and 2048 bytes and no control character but tab and line ends; otherwise the first limit exceeded, in order |
| `Template.ValuesAre` | internal/email/template.go:200-228 | the value of each of the nine names, with its default |
| `Template.NamesAreRecognised` | internal/email/template.go:20-38 | each of the nine names between braces, with any blanks around it, is a placeholder of that name |
| `Template.TrimLineEndsCuts` | internal/email/template.go:105-107 | trimming the body cuts off its line ends and nothing else |
| `Template.LetterIs` | internal/email/template.go:88-121 | when a letter is rendered, and that its text is the rendered message, the notice and link if the message does not ask for the link, and the rendered footer, in this order; otherwise which error is reported |
| `Template.Render` | internal/email/template.go:88-121 | the letter composed of subject, body, footer and HTML page or the first error among them; a rendered letter has a subject of at most 255 bytes and contains the trimmed secure link |
| `Template.TextHasTheLink` | internal/email/template.go:88-121 | whatever the template says, every letter that is rendered carries the trimmed secure link |
| `Template.OnlyAllowedValuesMatter` | internal/email/template.go:169-189 | a rendered text depends on the values of allowed names only |
| `Template.SubjectIsBlindToTheLink` | internal/email/template.go:34-38 | the subject line is the same whatever the link, the recipient's name and address and the expiry are |
| `Template.HtmlSaysTheText` | internal/email/template.go:88-121 | read as HTML, the page of a letter holds no tag but the page's own and, laid out, shows the letter's subject, its paragraphs with their line ends, and the notice |
| `Html.SplitParagraphs` | internal/email/template.go:253-264 | the loop yields the non-blank chunks; none begins or ends with a line end or holds an empty line |
| `Html.TextToHtml` | internal/email/template.go:230-251 | the builder's nested loops compute the page |
| `Html.ReadsEscaped` | internal/email/template.go:235-244 | escaped text, wherever it stands, is read back as the text and as no tag |
| `Html.SplitJoins` | internal/email/template.go:253-264 | joined again by the separator, the pieces of a split are the text |
| `Html.SplitCutsEverywhere` | internal/email/template.go:253-264 | no piece of a split holds the separator |
| `Html.UnixLinesIsReplacement` | internal/email/template.go:254 | replacing the line ends is splitting at the one kind and joining by the other |
| `Html.TrimLinesCuts` | internal/email/template.go:258 | trimming a chunk cuts off the line ends around it and nothing else |
| `Html.SplitKeepsWords` | internal/email/template.go:253-264 | splitting at line ends loses nothing but spaces |
| `Html.PageIsInert` | internal/email/template.go:230-251 | whatever subject and text are, the page holds its own tags and no other; read back and laid out it is exactly the subject, the paragraphs with a break at each line end, and the notice; and no word of the text is lost or added |
| `RateLimit.Limiter.Allow` | internal/ratelimit/ratelimit.go:28-47 | within a live window grants while the count is below the limit and counts the grant, and a refusal changes nothing; otherwise grants and opens a window from now; no other key is touched |
| `RateLimit.Limiter.Cleanup` | internal/ratelimit/ratelimit.go:49-58 | removes exactly the buckets whose reset time has passed |
| `RateLimit.LimiterBound` | internal/ratelimit/ratelimit.go:28-47 | in every run each key is allowed at most 2*limit-1 calls in any closed interval of one window's length (with limit taken as 1 when smaller) |
| `RateLimit.FewGrantsAreFollowed` | internal/ratelimit/ratelimit.go:28-47 | in every run a call is granted whenever its key has had fewer grants than the limit in the closed window before it, however many calls were refused |
| `RateLimit.BoundIsTight` | internal/ratelimit/ratelimit.go:36-40 | for every limit and window a run that reaches the bound |
| `RateLimit.KeysAreIndependent` | internal/ratelimit/ratelimit.go:36-46 | what a key is allowed depends on its own calls only |
| `RateLimit.CleanupIsUnobservable` | internal/ratelimit/ratelimit.go:49-58 | two runs that differ only in their cleanups give every call the same answer |
| `Sessions.MemoryStore.CreateSession` | internal/auth/users.go:682-691 | files a fresh session under its hash and touches no other |
| `Sessions.MemoryStore.SessionByHash` | internal/auth/users.go:693-707 | accepts exactly an unrevoked session within its expiry and, if there is an idle timeout, within it of the last acceptance, whose user is active; only an accepted lookup changes anything, and only the last-seen time |
| `Sessions.MemoryStore.RevokeSession` | internal/auth/users.go:709-719 | revokes the session once, keeping the first revocation time |
| `Sessions.MemoryStore.RevokeOtherSessions` | internal/auth/users.go:721-732 | revokes exactly the user's other unrevoked sessions |
| `Sessions.MemoryStore.SetUserStatus` | internal/auth/users.go:598-630 | changes the status exactly when the user exists and the patched record is valid |
| `Sessions.DeathIsPermanent` | internal/auth/users.go:697-699 | a session rejected for revocation, expiry or idleness is rejected ever after, whatever happens to sessions and users |
| `Sessions.DeactivationIsNotDeath` | internal/auth/users.go:700-703 | a rejection for the user's status is no death: reactivation makes the session acceptable again |
| `Sessions.AcceptancesAreBounded` | internal/auth/users.go:693-707 | over any run the acceptances of a session lie within its expiry, consecutive ones at most the idle timeout apart, and last-seen is the latest |
| `Sessions.SessionLifetime` | internal/auth/users.go:682-707 | the same from the creation of a session on |
| `Sessions.AcceptedThroughoutIff` | internal/auth/users.go:682-707 | of a session that nobody revokes and whose user stays active every lookup is accepted if and only if each is within the expiry and at most the idle timeout after the one before it, or after the creation |
| `Sessions.OnlyTheCurrentSessionSurvives` | internal/auth/users.go:721-732 | at any point of a store's life, after RevokeOtherSessions no other session the user then had is ever accepted again, and the current one is untouched |

## Left out

- HTTP handlers, routing, middleware, logging, metrics, configuration loading, the browser code and the API-client accounts: plumbing that would add easy members.
- Audit events: writing them is best effort; Cleanup's DELETE of old ones and its count, and the dashboard's recent activity, are not in the model.
- SMTP, Vault transport, PostgreSQL's network protocol, Argon2, HMAC and random tokens: uninterpreted functions, freshness assumptions, or steps that may fail.
- Creating a delivery: only the payload codec and the row it inserts are modelled; token generation, encryption and the limits of validateCreate are not.
- The table row in the protocol has no title, description, recipient or payload metadata, which no lifecycle statement reads; Metadata and CountActive are single reads.
- Listing.List: works on a table of its own with the columns it filters and sorts by, rather than inside the Repository class, because those columns take no part in the lifecycle; the other columns are copied through. The offset `(Page-1)*PageSize` and the page count are computed in unbounded integers; the source multiplies machine integers and takes the ceiling of a float64 quotient, which is exact for realistic totals.
- Query.PlainSearchIsContainment: letter case is folded for ASCII only; PostgreSQL folds by locale.
- Dashboard's created-today and consumed-today counts: filters over timestamps that play no other part.
- Payload: JSON is a value, not bytes. White space, escapes, number syntax and the order in which Go writes map keys are not in the model, nor is the repair of invalid UTF-8.
- Payload: a repeated `fields` member replaces the earlier one; Go decodes the second array over the elements of the first. Plaintexts the service writes have no repeated member.
- Template.Render: the expiry is given as formatted text.
- Placeholders: Go strings are taken as valid UTF-8.
- Registry and per-area limits of the rate limiter: a map of independent limiters.
- The SQL session store: it differs from the in-memory one at the boundary instants and is not modelled. Of the user operations only SetUserStatus is a method; in the run theorems users may change in any way.
- Availability: that a Consume eventually answers is not stated; a client may crash at any point.
