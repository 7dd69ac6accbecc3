# AEP library: a verified model

The Agent Enrollment Protocol (AEP) library lets agents enroll with Services, be
granted credentials, and reach protected resources; a Platform hosts agent
identities.  Most of it is small in-memory state machines behind mutexes, joined by a
command protocol.  This project models the parts where the interesting facts span
several functions, several stores, or whole interleaved runs, and proves them.

Check it with `dafny verify dfyconfig.toml`.

## How to read it

**Stores.**  Each in-memory store is a class with the source's maps.  A store that
drops its mutex while a caller's function runs has one method for each of its
lock-held regions.  Every method is proved against specification functions on plain
maps (`Enter`, `Commit`, `Swept`, `Consume`, `Saved`, ...).

**Runs.**  Interleavings are machines over those same functions: a state, a step
datatype with one step for each lock-held region, and `After` (or `Trace`), which
folds a sequence of steps.  A step that is not enabled changes nothing, so every
sequence of steps is a run and every theorem holds for all of them.  What a caller's
`create` or `execute` returns, when a clock ticks, which waiter moves and who gives up
waiting are steps or arguments of steps, hence arbitrary.  Besides what must never
happen, each machine says what does: the lemmas named `...Decide` and `...Exactly` give
the answer and the effect of every kind of step, in any reachable state, in terms of
records, calls and clocks.

**Single flight.**  `Flights` is the part that the identity, enrollment and
idempotency stores share: pending keys, channels, waiters.  It proves once that no
waiter is lost, and that every interleaving ends with every call answered.

**Map order.**  Where Go ranges over a map, the model picks elements with `:|`, so
results hold for every iteration order.

| file | subject |
|---|---|
| `Flights`, `IdentityStore`, `IdentityRuns`, `IdentityListing`, `DIDSyntax` | the Platform's identity store |
| `IdempotencyStore`, `IdempotencyRuns` | both idempotency stores (they differ in what they call the owner) |
| `HostedVerification` | verification on the Platform, over the idempotency and replay stores |
| `Enrollment`, `EnrollmentStore`, `EnrollmentRuns` | first and repeated Enroll, and the enrollment store |
| `AssertionWindow`, `ServiceReplay` | validity windows in 64-bit seconds, and replay protection on the Service |
| `Credentials`, `CredentialRuns`, `AuthorizationSelection`, `ProtectedAccess` | Grant, Revoke and protected-resource access |
| `ResourceHeaders`, `ResourceFetch` | the agent's redirect and challenge loop |
| `OpenAPIPaths` | template selection |
| `OctetText`, `URLEscaping`, `DIDWeb`, `DIDProbe` | did:web minting, resolution, and the template probe |
| `Mailbox`, `DocumentLimits`, `ClaimLimits` | a scanner against its grammar, and two counted recursions |

## Assumptions

- Each store's clock never goes back, where a theorem says so (`IdempotencyRuns`,
  `HostedVerification`, `ServiceReplay.Ordered`).  Clocks of different stores are
  unrelated.
- Hashes, header canonicalisation, base64, JWT verification and decoding, `net/url`,
  `net.ParseIP`, UTF-8 counting and time parsing are arbitrary fixed functions, except
  for the percent-encoding of `net/url`, which is modelled octet by octet.
  `HostedVerification` assumes request hashes free of collisions in the two theorems
  that say so; `ResourceHeaders.Lawful` says that canonicalising a header name changes
  only its case, that Authorization has one canonical form, and that the two
  authorization fields have different names.
- Header names are compared by a case-folding function.

## What turned out not to hold, and exactly when it does

- **Template selection depends on order** for one input family.  `MatchOpenAPIPath`
  uses the empty string for "nothing found yet", so a template that is itself empty
  and matches (only possible at the root) makes the outcome depend on the order of the
  list, exactly when one other template matches, once
  (`OpenAPIPaths.OrderMattersExactly`).
- **The probe does not settle every identifier.**  A template that construction has
  accepted and did:web resolution still differ exactly on identifiers with one of
  `$&+,:;=@`, and only if the template is printed as it was written
  (`DIDProbe.ProbeSettlesIdentifiers`).  For unreserved identifiers construction settles
  every template exactly if the probe's text does not occur in the printed path prefix
  (`DIDProbe.ProbeSettlesExactly`).
- **A second authorization can travel.**  The agent removes the caller's Authorization
  if its first value parses; a later value that parses stays
  (`ResourceHeaders.SecondAuthorizationExactly`), and the Service then finds the request
  ambiguous (`AuthorizationSelection.StandardBesideDedicatedIsAmbiguous`).
- **Replay protection needs ordered clocks.**  Commands read the clock before they take
  the store's lock; one that is overtaken lets the store forget too early, and the same
  assertion passes twice (`ServiceReplay.OutOfOrderReplay`).  `AcceptedExactly` says
  when, for every order.
- **A mailbox with an unquoted local part and an "@" inside an address literal** is
  refused although section 4.1.2 of RFC 5321 allows it, and three families of loose
  address literals are accepted although it does not: an untagged IPv6 address with a
  dotted tail, an IPv4 address with the IPv6 tag, and any text after that tag in another
  case (`Mailbox.CodeAgainstGrammar`, `Mailbox.LiteralsAsTheCodeTakesThem`).
- **Outside saves** can replace an enrollment (`EnrollmentRuns.OutsideSavesCanReplace`).
  A step keeps every stored enrollment exactly if it writes no record, or one for an
  agent without a record, or one that names the stored enrollment
  (`EnrollmentRuns.StepPersistsExactly`); the protocol's own saves always do, and
  enrollments persist as long as outside saves start from them
  (`EnrollmentRuns.EnrollmentsPersist`).
- **Scopes can leak** between principals if Service DIDs are not checked first
  (`IdentityRuns.UncheckedScopesCanLeak`); the Platform checks them
  (`IdentityRuns.AnswersStayInScope`).
- **The window's clamped deadlines** hide an expiry at the least 64-bit instant, which
  validated claims never have (`AssertionWindow.InsideDeadlines`); the Service's
  overflow guard refuses assertions at the very end of time
  (`AssertionWindow.GuardRejectsAtTheEndOfTime`).

## Model

| member | source | states |
|---|---|---|
| Flights.StepKeepsInv | platform/stores.go:46-79 | every step of a call keeps: a pending key has exactly one live executor, and a parked call's channel is closed or pending for its own key |
| Flights.SingleFlight | platform/stores.go:46-57 | two calls running for one key are one call |
| Flights.NoLostWaiter | platform/stores.go:46-54 | the channel a parked call waits on is closed, or its opener is still running for the waiter's key |
| Flights.StepSpends | platform/stores.go:36-85 | every step of a present call lowers a budget, so nobody spins |
| Flights.SomeCallCanMove | platform/stores.go:46-54 | while some call is unfinished, some call can move without being cancelled |
| Flights.EveryCallEnds | service/stores.go:46-92 | every interleaving without arrivals is no longer than the budget, and while calls are unfinished some call can still move |
| DIDSyntax.ScanDID | platform/platform.go:596-630 | the index-jumping scanner accepts exactly the DID grammar |
| DIDSyntax.DIDHasNoNul | platform/platform.go:596-630 | a checked DID does not contain the separator of scope keys |
| DIDSyntax.ScopeKeyInjective | platform/stores.go:321-323 | scope keys of checked Service DIDs determine principal and Service DID |
| DIDSyntax.ScopeKeysCollideWithoutTheCheck | platform/stores.go:321-323 | without the check two different scopes can share a key |
| IdentityStore.IndexesAreInjective | platform/stores.go:12-19 | in exact indexes no two records share a scope, an Agent DID or an Agent DID identifier |
| IdentityStore.LookupsAgreeWithRecords | platform/stores.go:97-110 | a lookup through any exact index finds a stored record that carries the key, and none exactly if no record does |
| IdentityStore.CommitKeepsIndexed | platform/stores.go:67-79 | committing a creation for a scope that had none keeps all indexes exact and overwrites nothing |
| IdentityStore.UpdateKeepsIndexed | platform/stores.go:166-186 | a lifecycle update keeps all indexes exact and every identity's names |
| IdentityStore.MemoryIdentityStore.EnterScope | platform/stores.go:40-57 | first lock-held region: finds, waits, or claims the scope, keeping the store valid |
| IdentityStore.MemoryIdentityStore.LeaveScope | platform/stores.go:59-85 | second region: the new state and the answer are the commit of the checked outcome, the scope is released and its channel closed |
| IdentityStore.MemoryIdentityStore.FindIdentityByAgentDID | platform/stores.go:89-110 | a stored record with that Agent DID, and none exactly if no record has it |
| IdentityStore.MemoryIdentityStore.FindIdentityByAgentDIDID | platform/stores.go:93-110 | a stored record with that identifier, and none exactly if no record has it |
| IdentityStore.MemoryIdentityStore.UpdateIdentity | platform/stores.go:166-186 | refuses exactly an unknown status or a zero time; otherwise the named record gets the status and the time, is returned, and nothing else changes |
| IdentityRuns.RunKeepsInv | platform/stores.go:31-87 | in every interleaving the indexes are exact, a pending scope has no identity, and every answer names the identity of its scope |
| IdentityRuns.PendingScopeHasNoIdentity | platform/stores.go:55-81 | while a creation runs for a scope, no record has that scope |
| IdentityRuns.OneIdentityPerScope | platform/stores.go:31-87 | at most one identity for a principal and a Service DID, in every interleaving |
| IdentityRuns.IdentitiesPersist | platform/stores.go:31-87 | a stored identity and its scope entry survive every continuation; only status and update time change |
| IdentityRuns.CallsAgree | platform/stores.go:31-87 | successful calls for one scope name one identity, and at most one of them created it |
| IdentityRuns.AnswersStayInScope | platform/platform.go:250-281 | with checked Service DIDs a call receives only an identity of its own principal and Service |
| IdentityRuns.UncheckedScopesCanLeak | platform/stores.go:321-323 | without the check a run exists in which a principal receives another one's identity |
| IdentityRuns.ParkedCallsHaveALiveCreator | platform/stores.go:46-54 | no waiter of the identity store is lost |
| IdentityRuns.StepsSpendBudget | platform/stores.go:36-85 | without arrivals every step that moves the flight spends budget |
| IdentityRuns.EndedMeansAnswered | platform/stores.go:31-87 | in every interleaving a call has ended exactly if it was answered, so nobody is dropped |
| IdentityRuns.ArrivalsAreReady | platform/stores.go:32-37 | a new call gets to look exactly if it names a principal and a Service DID |
| IdentityRuns.CancellationsEnd | platform/stores.go:36-54 | a call that is not creating may give up, is told so, and stores nothing |
| IdentityRuns.LooksDecide | platform/stores.go:40-57 | a look is answered with the record of the scope if there is one; otherwise it waits for the call that is creating it, or creates |
| IdentityRuns.CreationsSucceedExactly | platform/stores.go:59-85 | a creation succeeds exactly with a valid record of its own scope whose identifiers are all new, and adds that record and nothing else |
| IdentityRuns.UpdatesTakeEffect | platform/stores.go:166-186 | an update's status and time are the identity's until the next update of it, whatever happens in between |
| IdentityRuns.RecordsStay | platform/stores.go:166-186 | without an update of it a stored record never changes |
| IdentityListing.ListIdentities | platform/stores.go:126-164 | refuses exactly the invalid queries; otherwise the total is the number of selected records and the page is cut from their ordered list |
| IdentityListing.ListingIsUnique | platform/stores.go:142-153 | the ordered list is determined by the set of records, so map order cannot show |
| IdentityListing.ListingsShow | platform/stores.go:133-153 | a listing shows exactly the principal's records for the queried Service and status, by age and then identifier, in the queried direction |
| IdentityListing.PagesCoverTheListing | platform/stores.go:154-163 | consecutive pages joined are the list: paging loses and repeats nothing |
| IdempotencyStore.MemoryIdempotencyStore.Expire | platform/stores.go:257-263 | deletes exactly the responses whose hour is over, in any map order |
| IdempotencyStore.MemoryIdempotencyStore.EnterKey | platform/stores.go:217-237 | first region on the swept table: replay, conflict, wait or execute |
| IdempotencyStore.MemoryIdempotencyStore.LeaveKey | platform/stores.go:239-253 | second region: stores and returns the response, dated by the store's clock if it was undated, unless the execution failed, and releases the key |
| IdempotencyStore.StoreKeysSeparate | platform/stores.go:212 | joined keys determine owner and key as long as no owner holds the separator |
| IdempotencyStore.VersionsMatch | platform/types.go:271-283 | requests match by canonical hashes if both have one and by published hashes otherwise |
| IdempotencyRuns.RunKeepsInv | service/stores.go:185-237 | the invariant behind the theorems below, in every interleaving |
| IdempotencyRuns.OneExecutionPerKey | service/stores.go:200-228 | at most one execution per key is in flight |
| IdempotencyRuns.CreationsAreAnHourApart | platform/stores.go:217-263 | two calls on one key that both created did not overlap, and the later one looked at least an hour after the earlier response's creation time |
| IdempotencyRuns.WithinTheHourNobodyExecutes | platform/stores.go:219-225 | within the hour every other call on the key gets exactly the stored response if the inputs match and a conflict otherwise |
| IdempotencyRuns.RunningExecutionsAreLate | service/stores.go:185-229 | no execution is still running inside the hour of a stored response of its key |
| IdempotencyRuns.ReplaysStayWithTheirOwner | platform/types.go:273-283 | a replayed response was created by a call with the same owner, operation and key, within the hour, even when joined keys collide |
| IdempotencyRuns.StepsSpendBudget | service/stores.go:185-229 | without arrivals every step that moves the flight spends budget |
| IdempotencyRuns.EndedMeansAnswered | service/stores.go:185-237 | in every interleaving a call has ended exactly if it was answered |
| IdempotencyRuns.AnswersStay | service/stores.go:185-237 | no answer is taken back |
| IdempotencyRuns.ArrivalsAreReady | platform/stores.go:209-211 | a new call gets to look exactly if no part of its input is missing |
| IdempotencyRuns.CancellationsEnd | platform/stores.go:214-232 | a call that is not executing may give up, is told so, and stores nothing |
| IdempotencyRuns.LooksDecide | platform/stores.go:217-237 | a look is answered by the response within its hour, as a replay or a conflict; otherwise it waits for the call that executes, or executes |
| IdempotencyRuns.ReturnsAnswer | platform/stores.go:239-254 | the executing call is answered with its own response and its date, or with its failure, and then nothing is stored |
| IdempotencyRuns.ReturnsAreReplayedForAnHour | platform/stores.go:217-263 | for an hour from its date, which is the clock of the return if it was undated, every later look on the key is answered with the response or with a conflict, whatever happens in between |
| IdempotencyRuns.ConflictsHaveAReason | platform/stores.go:219-223 | a conflict is due to a response under the very same joined key, within its hour, whose input does not match |
| HostedVerification.MemoryReplayStore.ConsumeReplay | platform/stores.go:274-297 | errors exactly on an empty key or zero expiry; otherwise consumes exactly an unexpired key that is not remembered, and prunes exactly the expired ones |
| HostedVerification.ReplayKeyBelongsToTheTicket | platform/verification.go:78-91 | executions past the checks whose claims agree in audience, operation, issuer, JWT identifier and expiry use one replay key, whatever the texts |
| HostedVerification.RunKeepsInv | platform/verification.go:59-108 | a verified assertion's replay key stays blocked as long as the assertion could still be consumed, in every interleaving |
| HostedVerification.ATicketIsVerifiedOnce | platform/verification.go:88-107 | at most one execution verifies assertions with those claims, for any texts, principals and keys |
| HostedVerification.AnAssertionIsVerifiedOnce | platform/verification.go:88-107 | in particular one assertion is verified at most once |
| HostedVerification.VerifiedAnswersHaveAnExecution | platform/verification.go:59-108 | a verified answer is the execution's own or the replay of one with the same principal, key and request |
| HostedVerification.VerifiedAnswersAgree | platform/verification.go:59-108 | all verified answers for one assertion, or for those claims, carry one execution's stored response |
| HostedVerification.ChecksDecide | platform/verification.go:60-108 | in every reachable state a check verifies exactly if the policy allows it, the signature is genuine, the identity is active, issuer, subject, audience, operation and resource are the request's, and the assertion is unexpired and unused; and then it is used |
| HostedVerification.VerifiedIsVouchedFor | platform/verification.go:60-107 | in every run, behind each verified execution is such a check, with all of these |
| HostedVerification.GenuineAssertionsVerify | platform/verification.go:14-108 | from any reachable state a new request with such an assertion is answered as verified, if no earlier call under its key is in the way |
| Enrollment.MissingRequiredClaimNames | claims.go:103-111 | the required names without a value, in order |
| Enrollment.MergeDocumentClaims | service/documents.go:65-88 | the merged names are the union, supplied values win and the others stay, in any map order |
| Enrollment.MissingAfterMerge | service/documents.go:27-31 | after a merge exactly the names that neither side has are missing |
| Enrollment.MissingDocumentIDs | service/documents.go:97-105 | required documents unacknowledged or due for renewal, in catalog order |
| Enrollment.AcceptedDocumentIDs | service/documents.go:107-115 | the old list stays a prefix; exactly the declared catalog identifiers are added, each once |
| Enrollment.AcceptedStaysDuplicateFree | service/documents.go:107-115 | a duplicate-free list stays so |
| Enrollment.AcceptedInOrder | service/documents.go:107-115 | new acknowledgements come in the order of their first declaration |
| Enrollment.Renewals | service/documents.go:50 | declared identifiers leave the renewal list, which keeps its order |
| Enrollment.UpdateEnrollment | service/documents.go:12-63 | which outcome a repeated Enroll has, exactly: failure, refusal, unchanged, what is lacking with its lists, or a saved record |
| Enrollment.DecidesByCases | service/documents.go:13-37 | the decision that the runs use has the same outcome, case by case |
| Enrollment.MissingAfterDeclaration | service/documents.go:49-50 | the documents missing after a declaration are those missing before that were not declared, in catalog order |
| Enrollment.SavedUpdateIsFaithful | service/documents.go:26-56 | a saved update keeps the enrollment's identity and status, takes the supplied claims and keeps the others, leaves no required claim missing, leaves exactly the undeclared missing documents, and takes over exactly what the decision sets |
| Enrollment.NewEnrollmentIsFaithful | service/commands.go:46-91 | a first Enroll that succeeds misses no claim and exactly the undeclared required documents; a rejected one is stored too and acknowledges nothing |
| Enrollment.CreatesByCases | service/commands.go:46-91 | which outcome a first Enroll has, exactly, and every field of its record; a decision without a status means active |
| EnrollmentStore.MemoryEnrollmentStore.FindEnrollment | service/stores.go:25-40 | the agent's record, if any |
| EnrollmentStore.MemoryEnrollmentStore.BeginCreate | service/stores.go:50-67 | first region of creation: finds, waits, or claims the agent |
| EnrollmentStore.MemoryEnrollmentStore.EndCreate | service/stores.go:69-91 | second region: stores a valid record of that agent, which had none, and releases the agent |
| EnrollmentStore.MemoryEnrollmentStore.SaveEnrollment | service/stores.go:95-122 | waits exactly while a creation is pending, otherwise writes exactly this record |
| EnrollmentRuns.RunKeepsInv | service/stores.go:42-122 | in every interleaving, outside saves included, an agent whose enrollment is being created has no record |
| EnrollmentRuns.CreationNeverOverwrites | service/stores.go:65-84 | a running creation's agent has no record |
| EnrollmentRuns.InsideIsFaithful | service/commands.go:36-93 | runs of Enroll calls alone satisfy the condition on outside saves of the next four rows |
| EnrollmentRuns.RunKeepsFaithful | service/commands.go:36-93 | every snapshot, every record about to be saved and every answer names its agent's stored enrollment, however stale, if outside saves start from the stored enrollment |
| EnrollmentRuns.EnrollmentsPersist | service/documents.go:12-63 | AgentDID, EnrollmentID, CreatedAt, Since and Status never change once a record exists, in every interleaving of Enroll calls and of outside saves that start from the stored enrollment |
| EnrollmentRuns.AnswersAgree | service/commands.go:36-112 | in the same interleavings successful calls of one agent answer with one enrollment, the stored one |
| EnrollmentRuns.ProtocolSavesNeverWait | service/stores.go:103-112 | in the same interleavings SaveEnrollment never finds a creation pending |
| EnrollmentRuns.StepPersistsExactly | service/stores.go:95-122 | in every reachable state, whatever was saved from outside, a step keeps every stored enrollment exactly if it writes nothing, or for an agent without a record, or a record that names the stored enrollment |
| EnrollmentRuns.OutsideSavesCanReplace | service/stores.go:95-122 | a direct save from outside the protocol can replace an enrollment |
| EnrollmentRuns.StoredRecordsAreComplete | service/commands.go:43-93 | in every interleaving each stored record has all required claims, and its acknowledgements are catalog documents, each once, if outside saves are such records |
| EnrollmentRuns.WaitersHaveALiveCreator | service/stores.go:56-67 | no waiter of the enrollment store is lost |
| EnrollmentRuns.StepsSpendBudget | service/stores.go:46-122 | without arrivals every step that moves the flight spends budget |
| EnrollmentRuns.EndedMeansAnswered | service/stores.go:42-122 | in every interleaving a call has ended exactly if it was answered |
| EnrollmentRuns.ArrivalsAreReady | service/stores.go:43-45 | a new Enroll call gets to read exactly if it names an agent |
| EnrollmentRuns.CancellationsEnd | service/stores.go:46-64 | a call that is not creating may give up, is told so, and stores nothing |
| EnrollmentRuns.ReadsDecide | service/commands.go:36-43 | a read leads to an update of the record it finds, or else to a creation |
| EnrollmentRuns.LooksDecide | service/stores.go:50-68 | the look of a creation is answered with the record if there is one by now; otherwise it waits for the creating call, or creates |
| EnrollmentRuns.CreationsSucceedExactly | service/stores.go:70-92 | a creation succeeds exactly with a valid record of its own agent, which it stores |
| EnrollmentRuns.SettlesDecide | service/documents.go:12-63 | each settled update comes to the outcome of its case, and writes nothing yet |
| EnrollmentRuns.SavesTakeEffect | service/stores.go:95-122 | a save of the protocol stores its record, and the call is told so |
| EnrollmentRuns.RepeatedEnrollsAreSaved | service/documents.go:12-63 | from any reachable state a repeated Enroll that lacks nothing and is not rejected or left alone is answered with the updated record, which is stored, with the supplied claims and the declared documents |
| AssertionWindow.ExceedsAssertionLifetime | protocol.go:221-224 | for all 64-bit inputs, true exactly when the unbounded difference exceeds 300 |
| AssertionWindow.InsideDeadlines | jwt.go:142-156 | the clamped comparison equals the unbounded window except for an expiry at the least instant; equal whenever expiry is after issuance |
| AssertionWindow.VerifyTimes | jwt.go:134-157 | accepts exactly a nonnegative tolerance, a lifetime of 1 to 300 seconds, and the unbounded window |
| AssertionWindow.InsideServiceWindow | service/commands.go:301-319 | the Service's check equals the unbounded one but for issuance within one lifetime of the greatest instant |
| AssertionWindow.GuardRejectsAtTheEndOfTime | service/commands.go:304-306 | that exception does refuse assertions inside their window |
| ServiceReplay.MemoryReplayStore.ConsumeReplay | service/stores.go:143-163 | errors exactly on an invalid record; otherwise sweeps exactly the expired records and consumes exactly an absent key |
| ServiceReplay.CheckAssertion | service/commands.go:279-320 | accepts exactly the claims, header, method and window that the specification lists |
| ServiceReplay.PassesExactly | service/commands.go:251-320 | what an assertion must say before the replay store is asked, condition by condition and in unbounded integers |
| ServiceReplay.MethodsMean | service/commands.go:322-328 | the method of a DID is the text between its first two colons |
| ServiceReplay.AuthenticateAssertion | service/commands.go:251-277 | the store's invalid-record error never arises; recognises exactly what passes and is not remembered |
| ServiceReplay.StoreRemembers | service/stores.go:152-162 | after any run a key is stored exactly if an acceptance under it was not swept since, and then with that acceptance's record |
| ServiceReplay.AcceptedExactly | service/commands.go:251-277 | for clocks in any order, an attempt is recognised exactly if it passes and every earlier acceptance of its key was swept by an attempt up to and including this one |
| ServiceReplay.AcceptancesAreSeparated | service/commands.go:265-275 | with ordered clocks two acceptances of one subject and JWT identifier are the first one's expiry plus skew apart |
| ServiceReplay.NextUseExactly | service/stores.go:143-163 | with ordered clocks the next passing assertion under the key is accepted exactly from the first one's expiry plus tolerance on |
| ServiceReplay.AcceptedAtMostOnce | service/commands.go:251-277 | with ordered clocks the same claims are accepted at most once in a run |
| ServiceReplay.ForgottenMeansExpired | service/stores.go:152-156 | once a record is swept its assertion fails the window from then on |
| ServiceReplay.OutOfOrderReplay | service/commands.go:255-269 | with clocks out of order the same assertion is accepted twice |
| ServiceReplay.OutOfOrderExample | service/commands.go:255-269 | two concrete assertions and clocks for which this happens |
| ServiceReplay.KeysSeparate | service/stores.go:157 | store keys determine subject and JWT identifier when no subject holds the separator |
| Credentials.MemoryServiceCredentialStore.SaveCredential | service/credentials.go:200-220 | saves exactly a valid record whose identifier and secret are new, and changes nothing otherwise |
| Credentials.MemoryServiceCredentialStore.HeaderPresentations | service/credentials.go:378-385 | one presentation for each value of the header, in order |
| Credentials.MemoryServiceCredentialStore.APIKeyPresentations | service/credentials.go:229-243 | a single presentation exists exactly if one advertised header has one value and the others none, in any map order |
| Credentials.MemoryServiceCredentialStore.AuthenticateCredential | service/credentials.go:222-256 | finds exactly the live record that the sole presentation names, in any map order |
| Credentials.MemoryServiceCredentialStore.RevokeCredential | service/credentials.go:275-290 | marks exactly the named record of that agent and type |
| Credentials.MemoryServiceCredentialStore.RevokeGrantType | service/credentials.go:292-308 | marks exactly the records of that agent and type, in any map order |
| Credentials.OneRecordAnswers | service/credentials.go:243-255 | with unique secrets at most one record answers a request |
| Credentials.SharedSecretsAreAmbiguous | service/credentials.go:213-217 | without unique secrets two records would answer |
| Credentials.AcceptedExactly | service/credentials.go:200-217 | a credential is accepted exactly if its record is in order and neither its identifier nor its secret is taken; what is kept is its metadata and the hash of its secret |
| Credentials.AnswersMean | service/credentials.go:219-256 | a record answers exactly if it is live and the request brings its secret: as the only Bearer or Basic value, by type, or as the only API key |
| CredentialRuns.RunKeepsValid | service/credentials.go:200-308 | over every run of operations secrets stay unique, and of a stored record only the revocation time changes, never back |
| CredentialRuns.RevokedNeverAuthenticates | service/credentials.go:243-255 | once a record is revoked, no request that presents its secret authenticates, whatever operations follow |
| CredentialRuns.RevokedSecretsAreNotReissued | service/credentials.go:213-217 | nor can the secret be stored again for anyone |
| CredentialRuns.RevokedExactly | service/credentials.go:275-308 | over every run a credential is revoked exactly by operations that name its agent, its type and, if only one is named, itself; nothing else changes a record |
| CredentialRuns.IssuedCredentialAuthenticates | service/credentials.go:200-256 | a saved bearer token, pair or API key that is shown alone, before it expires and unless it was withdrawn, is found for its agent and with its scopes, whatever else happened |
| AuthorizationSelection.SelectAuthorizationPresentation | service/authentication.go:134-164 | the choice between the dedicated and the standard field |
| AuthorizationSelection.SelectsExactly | service/authentication.go:134-164 | what is selected is exactly what the request presents alone, in one field or the other; every other request with a presentation is ambiguous |
| AuthorizationSelection.AtMostOnePresentation | service/authentication.go:20-33 | after a selection the handlers see at most one value that parses, it came with the request, and the dedicated field is gone |
| AuthorizationSelection.StandardBesideDedicatedIsAmbiguous | service/authentication.go:151-163 | a dedicated field beside any Authorization value that parses is ambiguous |
| ProtectedAccess.RunKeepsInv | service/commands.go:146-249 | the invariant behind the theorems below, over every interleaving of Grant, Revoke and access calls |
| ProtectedAccess.SessionPrincipalsAreEarned | service/authentication.go:66-98 | a session principal's credential was stored by an earlier Grant of the same agent whose check saw an active enrollment with nothing missing; it was presented alone and live at the lookup, and the enrollment was active when read afterwards |
| ProtectedAccess.SessionsWereNeverRevoked | service/authentication.go:66-98 | that credential was not revoked at any moment up to the lookup |
| ProtectedAccess.RevokeIsComplete | service/commands.go:229-247 | when Revoke answers, every credential it covers that existed when it began is revoked, although its loop is not atomic |
| ProtectedAccess.RevocationIsFinal | service/credentials.go:123-128 | an access that looks up after a revocation was let in neither by that credential nor by another with its secret |
| ProtectedAccess.OneAccessPerAssertion | service/authentication.go:34-56 | with ordered clocks the same verified claims let in at most one access, in any mix of commands |
| ProtectedAccess.AssertedPrincipalsAreSubjects | service/authentication.go:33-52 | a JWT principal is the subject of a recognised authenticate assertion, on a Service that advertises assertions, and its enrollment was active |
| ProtectedAccess.MatchesAreValid | service/credentials.go:130-143 | a handler never has to refuse what its own store matched |
| ProtectedAccess.LiveCredentialsAdmit | service/authentication.go:58-98 | from any state a request that presents a live credential of an active agent is let in as that agent, if no method advertised before finds anything |
| ProtectedAccess.PresentsDecide | service/authentication.go:17-46 | in every reachable state: an ambiguous request is refused, an assertion is refused unseen if it is not advertised and otherwise consumed and accepted or not, and any other request tries the methods |
| ProtectedAccess.ConfirmsDecide | service/authentication.go:44-52 | who was recognised is let in exactly if its enrollment is active now |
| ProtectedAccess.AssertionsAdmit | service/authentication.go:33-52 | from any reachable state an accepted assertion of an active agent lets it in as that agent |
| ProtectedAccess.DenialsHaveAReason | service/authentication.go:55-111 | a request that no method recognises is denied for exactly the reason that its scheme and the detectors give |
| ProtectedAccess.GrantChecksDecide | service/commands.go:158-178 | Grant goes on to issue exactly for an active agent that lacks no claim and no document, and a known type |
| ProtectedAccess.IssuesDecide | service/credentials.go:54-81 | a credential is granted exactly if its header is advertised and the store accepts its record, and is then in the store |
| ProtectedAccess.RevokeChecksDecide | service/commands.go:205-228 | Revoke starts exactly for an enrolled agent and a known type, over the types that it names |
| ProtectedAccess.RevokesFinish | service/commands.go:229-246 | a Revoke that starts is answered after one step for each Grant Type |
| ProtectedAccess.StepsWithdrawExactly | service/credentials.go:275-308 | every step leaves every stored credential as it is, except that a Revoke withdraws those it is about |
| ProtectedAccess.RevocationsAreAsked | service/commands.go:199-246 | in every run a revoked credential was revoked by a Revoke of its own agent, which was enrolled, for all types, its type, or this credential |
| ResourceHeaders.SameOriginIsAnEquivalence | agent/inspect.go:321-340 | same-origin is reflexive, symmetric and transitive |
| ResourceHeaders.SameOriginExactly | agent/inspect.go:321-340 | scheme and host in any case and the port make an origin; https stands for port 443 and http for 80 if none is written |
| ResourceHeaders.RemoveResourceHeaders | agent/resource.go:294-302 | removes exactly the names that fold to one of the list, in any map order |
| ResourceHeaders.ResourceHasHeader | agent/resource.go:304-311 | true exactly when some spelling of the name is present |
| ResourceHeaders.AddAuthentication | agent/resource.go:227-235 | refuses exactly conflicting names; otherwise each additional header stands in place of that canonical name, with the values of one of its spellings, unless a spelling came without values; the rest is unchanged |
| ResourceHeaders.ApplyControlled | agent/resource.go:246-249 | controlled headers replace whatever folds like them and nothing else |
| ResourceHeaders.MergeResourceHeaders | agent/resource.go:219-251 | carries the agent's headers and exactly those of the caller's part that no rule removes, or refuses because it must; with names in one spelling, refuses exactly on a condition on the request: at home, a conflict, or an additional Authorization, none of the agent's, and a first supplied value that parses |
| ResourceHeaders.RefusedExactly | agent/resource.go:227-245 | refusal by the caller's part and by that condition on the request are the same |
| ResourceHeaders.OnlyControlledAway | agent/resource.go:219-251 | away from the original origin only the agent's headers are carried |
| ResourceHeaders.ControlledHeadersTravel | agent/resource.go:219-251 | the agent's own headers are always carried with its values only, and nobody else fills the dedicated field |
| ResourceHeaders.AdditionalHeadersTravel | agent/resource.go:227-245 | at home every additional header is carried, with the values of one of its spellings, unless a spelling came without values |
| ResourceHeaders.RequestHeadersTravel | agent/resource.go:219-251 | at home the request's own headers are carried unless a rule speaks of them |
| ResourceHeaders.SecondAuthorizationExactly | agent/resource.go:237-245 | a value that parses travels beside the agent's field exactly if the agent controls no Authorization, the origin is the caller's, the caller's first Authorization value does not parse, and a later one does |
| ResourceHeaders.SecondAuthorizationIsHidden | agent/resource.go:237-245 | the same for any spellings, in terms of the caller's part |
| ResourceHeaders.SecondAuthorizationExample | agent/resource.go:238-245 | the smallest such request |
| ResourceHeaders.SecondAuthorizationIsMerged | agent/resource.go:238-245 | and it is not refused |
| ResourceFetch.RedirectTargetsAreSafe | agent/resource.go:273-292 | a followed redirect is the resolution of the last Location, within the limit, and leads to https unless every request so far and the target stayed on the local machine over http |
| ResourceFetch.RedirectsAreFollowedExactly | agent/resource.go:273-292 | a response is followed exactly if its status is 301, 302, 303, 307 or 308, the limit is not reached, and its Location resolves to an allowed target |
| ResourceFetch.AllowedMethods | agent/resource.go:147-164 | in order, exactly the methods that the policy requires or Inspect advertises, if Inspect advertises and the caller allows them |
| ResourceFetch.FetchResource | agent/resource.go:79-189 | for any network: at most two requests a hop; each request is exactly the one that is due, to a valid target linked to the one before, and https is never left; it stops only for a reason, so that an error has a cause and a delivered response could be neither followed nor answered |
| ResourceFetch.FetchProtectedResource | agent/resource.go:23-70 | the same with a default of five hops; nothing is sent for an invalid limit or target |
| ResourceFetch.CallerHeadersStayHome | agent/resource.go:98-189 | away from the original origin requests carry only headers the agent controls, and those only in answer to a challenge of the inspected Service |
| ResourceFetch.ChallengedAfterLeaving | agent/resource.go:98-138 | once a hop has left the origin, every later authenticated request answers a challenge drawn by a bare anonymous request to the same target |
| ResourceFetch.AnonymousRequestsAreHarmless | agent/resource.go:99-107 | an anonymous request carries exactly the caller's headers other than the five that may hold credentials, at home, and none away |
| ResourceFetch.AuthenticatedMethods | agent/resource.go:152-168 | an authenticated request may use exactly the methods that Inspect advertises, the caller allows and a requiring policy lists |
| ResourceFetch.DeliveredIsTheLastAnswer | agent/resource.go:107-188 | what is delivered is the answer to the last request and never a redirect |
| OpenAPIPaths.ScoreTemplate | openapi.go:36-57 | a template's score exactly when it fits the target |
| OpenAPIPaths.MatchOpenAPIPath | openapi.go:20-74 | the loop computes the fold that the lemmas below characterise |
| OpenAPIPaths.LessMeansLaterParameter | openapi.go:58-63 | a score is greater exactly when, at the first difference in kind, it has the literal |
| OpenAPIPaths.LiteralsComeFirst | openapi.go:36-63 | of two fitting templates the one with the literal in the first segment where the kinds differ scores higher |
| OpenAPIPaths.FitsSegmentwise | openapi.go:30-57 | a template fits segment by segment: a braced name takes any nonempty text, anything else only itself |
| OpenAPIPaths.SegmentsSpellThePath | openapi.go:96-101 | the segments of a path spell it out, and a trailing slash matters exactly if slashes are strict |
| OpenAPIPaths.OutcomeMeans | openapi.go:58-74 | unless the empty template fits: not documented exactly if nothing fits, ambiguous exactly if two occurrences share the top, else the unique top template |
| OpenAPIPaths.TopsHaveTheLiterals | openapi.go:62-74 | the templates at the top are those to which no fitting one prefers an earlier literal |
| OpenAPIPaths.OrderMattersExactly | openapi.go:31-74 | some permutation changes the outcome exactly if the empty template fits and exactly one other template does, once |
| OpenAPIPaths.EmptyTemplateExample | openapi.go:58-68 | the smallest such list |
| URLEscaping.UnescapeEscape | platform/document.go:134-136 | decoding undoes either encoding |
| URLEscaping.EscapeInjective | platform/document.go:134-136 | different texts never share an encoding |
| URLEscaping.EscapeDIDComponent | platform/document.go:134-136 | query escaping with plus signs rewritten is component escaping |
| URLEscaping.ComponentAndPathAgree | platform/document.go:134-136 | the two encodings agree exactly on texts without the octets that only a path leaves alone |
| DIDWeb.CreateServiceScopedAgentDID | platform/document.go:80-99 | fails exactly on an empty or invalid host or an empty identifier; otherwise mints the DID of the host and the segments |
| DIDWeb.IsDIDWebPathSegment | did_web.go:172-183 | accepts exactly single path segments |
| DIDWeb.DIDWebDocumentURL | did_web.go:41-78 | the document's location for any text |
| DIDWeb.MintedDIDResolves | did_web.go:41-78 | resolving a minted DID reaches its own host and segments, or the well-known place of a host alone, and fails exactly if one of the parts is no segment |
| DIDWeb.MintedIsInjective | platform/document.go:80-99 | different hosts or segments never share a DID |
| DIDWeb.PrefixesAreSegments | platform/document.go:80-99 | a configured prefix is the list of its segments, and slashes at its ends do not matter |
| DIDWeb.TheDefaultPrefix | platform/document.go:88-90 | no prefix means "agents" |
| DIDProbe.ValidateDIDURLTemplate | platform/platform.go:160-178 | passes exactly if the rendered and the resolved URL agree for the probe |
| DIDProbe.RendersExactly | platform/document.go:122-132 | a template renders exactly if its host is valid, its path holds no control octet, and the path with the identifier in it decodes |
| DIDProbe.ProbeOccursOnce | platform/platform.go:161-176 | the probe occurs only where it was put, unless the printed prefix holds it |
| DIDProbe.ProbeReadsTheTemplate | platform/platform.go:66-72 | acceptance at construction determines the template's text around the placeholder, if the printed prefix does not hold the probe text |
| DIDProbe.ProbeSettlesIdentifiers | platform/platform.go:152-178 | then the accepted template and resolution agree on an identifier exactly unless the template is printed as written and the identifier has an octet of `$&+,:;=@` |
| DIDProbe.ProbeSettlesUnreserved | platform/platform.go:152-178 | in particular they agree on every identifier of unreserved characters |
| DIDProbe.IntendedTemplatePasses | platform/platform.go:66-72 | the template that spells out the prefix is accepted, for every host and prefix |
| DIDProbe.CheckTemplate | platform/platform.go:37-72 | the checks of host, prefix and template accept exactly what `Constructs` says: the sample can be rendered and the probe passes |
| DIDProbe.SampleClosesPercents | platform/document.go:57-59 | a template for which the sample can be rendered leaves no percent sign open before the placeholder |
| DIDProbe.SampleRefusesOpenPercents | platform/document.go:57-59 | of the templates that pass the probe, the sample refuses exactly those with a percent sign open before the placeholder |
| DIDProbe.SampleIsNeeded | platform/platform.go:66-72 | for every host there is such a template: it passes the probe, and rendering the sample refuses it |
| DIDProbe.RepeatedProbeMisleads | platform/platform.go:160-178 | for every host and every prefix whose printed text holds the probe text, some template is accepted and is wrong on every unreserved identifier that does not begin like the probe |
| DIDProbe.ProbeSettlesExactly | platform/platform.go:152-178 | all accepted templates of a host and a prefix are right about all unreserved identifiers exactly if the printed prefix does not hold the probe text |
| Mailbox.MailboxSeparator | claims.go:154-177 | finds the only "@" of an unquoted text, or the "@" after the closing quote |
| Mailbox.IsQuotedLocalPart | claims.go:192-210 | accepts exactly the Quoted-string of section 4.1.2 of RFC 5321 |
| Mailbox.CheckLocalPart | claims.go:179-190 | accepts exactly Dot-string or Quoted-string |
| Mailbox.CheckAddressLiteral | claims.go:224-249 | accepts exactly the address literals of section 4.1.2 of RFC 5321 and the loose ones named above |
| Mailbox.LiteralsAsTheCodeTakesThem | claims.go:228-248 | the code's branches are the grammar and exactly three loose families |
| Mailbox.TaggedIPv4IsLoose | claims.go:232-234 | an IPv4 address with the IPv6 tag is accepted though no literal of the grammar |
| Mailbox.CheckDomain | claims.go:212-222 | accepts exactly dotted labels of at most 63 octets, or an address literal, loose ones included |
| Mailbox.DotListIsSplit | claims.go:183-189 | the grammar's dotted list is what splitting at dots checks |
| Mailbox.ClosingAfterContent | claims.go:161-175 | the scanner stops exactly at the quote that ends quoted content, whatever it contains |
| Mailbox.GrammarCutIsFound | claims.go:154-177 | where the grammar cuts, the scanner cuts, except for an unquoted local part with another "@" in the domain |
| Mailbox.CutIsUnique | claims.go:145-152 | a text is a mailbox in at most one way |
| Mailbox.IsEmailMailbox | claims.go:145-152 | accepts exactly the mailboxes within 64 and 255 octets, loose literals included, except those |
| Mailbox.CodeAgainstGrammar | claims.go:145-152 | where the grammar cuts, refusal exactly on an unquoted local part with an "@" in the domain; elsewhere acceptance exactly with a loose literal |
| Mailbox.AtMeansLiteral | claims.go:154-160 | such an "@" stands only in an address literal |
| Mailbox.AtInALiteral | claims.go:154-160 | such a mailbox exists and is refused |
| DocumentLimits.ValidateDocumentBlocks | service_documents.go:156-188 | accepts exactly the well-formed lists whose blocks and those counted before are at most 1024 |
| DocumentLimits.ValidateBlock | service_documents.go:157-186 | the same for one block |
| DocumentLimits.ValidatePortableBlocks | service_documents.go:144-154 | accepts exactly documents within the limits as a whole |
| DocumentLimits.CountIgnoresOrder | service_documents.go:156-188 | the count does not depend on the order of blocks |
| DocumentLimits.LimitsIgnoreOrder | service_documents.go:144-154 | nor does acceptance, across summary and content |
| DocumentLimits.AcceptedNesting | service_documents.go:168-175 | accepted documents have at most eight levels of sections |
| ClaimLimits.ResolveClaimValueLimits | service/claims.go:23-43 | negative limits are refused, zero means the default |
| ClaimLimits.ClaimValueWithinLimits | service/claims.go:63-93 | accepts exactly the values that fit and whose members and those counted before are within the limit, in any map order |
| ClaimLimits.ClaimValuesWithinLimits | service/claims.go:45-61 | the same for a whole claim value, with its encoded size |
| ClaimLimits.MembersInAnyOrder | service/claims.go:84-89 | the member count does not depend on the order of visits |
| ClaimLimits.FitsBoundsNesting | service/claims.go:63-93 | the depth argument bounds exactly the nesting of containers |

## Left out

- HTTP transport, media types, body reading, timeouts: only their outcomes appear, as arbitrary answers.
- Cancellation: a waiting or ready call may give up at any step; that a context check between two regions also fails a call changes no state and is not a step of its own.
- Signatures, key stores, random identifiers and SHA-256: arbitrary results or fixed functions.
- JSON: requests, claims and documents are values; failing encodings are the caller's error outcome, and canonical hashing is a fixed function.
- Cloning: values are immutable, so that stores return copies and not aliases is not captured.
- Validators that check one field at a time, Problem Details, response building and status codes beyond the branches named above.
- Sign, Discovery, the agent's Inspect and OpenAPI caches, and resolving public keys from did:web documents.
- Acknowledged documents under concurrent Enroll calls: a repeated Enroll writes from a possibly stale snapshot, so a concurrent declaration can be lost; the document properties are stated for one saved update.
- Panics inside a caller's create or execute function.
- IdentityListing.ListIdentities: the library sort is represented by insertion.
- EnrollmentRuns.EnrollmentsPersist: for outside saves that name the stored enrollment when they begin; StepPersistsExactly says which steps keep it otherwise.
- ServiceReplay.AcceptedAtMostOnce: for clocks that reach the store in order; AcceptedExactly covers every order.
- ProtectedAccess.SessionPrincipalsAreEarned: Grant Types with the built-in handlers over the in-memory store; custom handlers and stores are not part of this model. The idempotency store in front of Grant and Revoke is IdempotencyRuns; here each execution is a call.
- ProtectedAccess.RunKeepsInv: what HasCredentialPresentation detects is arbitrary, since it decides only the reason of a denial.
- DIDProbe.ProbeSettlesIdentifiers: the placeholder stands in the template's path; a template with it in the host, or with a query or a fragment, is not modelled.
- DIDWeb.DIDWebDocumentURL: the loopback option, which changes only the scheme.
- Mailbox.IsEmailMailbox: what an IPv4 and an IPv6 address is; assumed is that the first has a dot and the second is nonempty and made of octets that literals allow.
- ResourceFetch.FetchResource: which credential or assertion the agent selects, and the Grant it may make first, are the network's answer; replaying request bodies is left out.
- ResourceHeaders.MergeResourceHeaders: when a header map holds two spellings of one name, the order of their joined values and the choice between two additional spellings follow the map order and are left open; refusal and carried values are stated about the caller's part as it came out, and about the request itself for names in one spelling (RefusedExactly, SecondAuthorizationExactly).
