# Verification of the buckety controller

A Dafny model of the controller that owns backend resources and credentials,
and proofs of what its protocols keep over every run.

`dafny verify dfyconfig.toml` checks the project.

## What is modelled

Each file holds one module, named like the file.

- `CredentialLifecycle`: one BucketyAccess and the service account keys minted
  for it, as a machine whose steps are the calls of a pass (gate on the Secret,
  grant, write, revoke the predecessor, record), a crash, and what users, the
  clock, deletions at the server and a stale cache can do. `AccessReconciler` is the reconciler's pass,
  which drives that machine call by call.
- `DeletionProtocol`: a Buckety and its accesses under both reconcilers:
  finalizers, adoption gate, sticky stamp, teardown. Passes interleave call by
  call, may work on any version stored so far, and may crash; users edit
  anything; configuration changes with restarts. `BucketyReconciler` is the
  pass that drives it.
- `ImplicitAccess`: materialising and reclaiming the implicit access.
- `StatusConditions` and `PassOutcomes`: whether a pass writes status, for
  every way a pass of either reconciler can end.
- `DeletionBackoff`, `Breaker` (delays in `Doubling`): the teardown's requeue
  delay and the circuit breaker of the mysql driver.
- `S3Teardown`: recursive deletion of a bucket with object versions and delete
  markers.
- `ObjectStoreLifecycle` and `S3Lifecycle` (`Decimal`, `Sorting`): lifecycle
  documents, their translation, comparison and reconciliation.
- `MysqlNames`, `MysqlAccounts`, `VerifiedAccounts`, `MysqlDriver`: names and
  escaping, one pass of GrantAccess against a server, the cache of passed
  checks, and the driver's calls with any of them failing.
- `TopicAlignment` and `MetricIndex`: the kadm driver's alignment of a topic,
  and the gauges of the configuration in effect.
- `Template` and `BackendConfig`: the template resolver and a backend's view of
  parameters. `Wrappers` holds optional values.

A call into a backend or the API server is an outcome given from outside and
its effect on a modelled state. Where the program mutates an object the model
is a class whose methods are proved against functions of the old state, and
lemmas about those functions carry the properties.

## Assumptions

- A write to the API server reported as failed did not land. (Statements to
  MySQL are modelled both ways; a key whose create landed while its answer was
  lost is `MintUndecodable`, which has the same effect.)
- No access pass starts from a copy without the deletion timestamp after another
  pass has seen it, as an older cache after a restart could make one do.
- The access pass reads a current Buckety; no finalizers but the controller's
  own exist; only the controller labels accesses implicit.
- The driver behind a backend name stays the same for the access path, which
  does not compare it (pkg/controller/bucketyaccess/reconciler.go:140).
- The results about whether passes write status are about passes on a current
  copy of the object; `PassOutcomes.StatusObject.PatchStatus` also says what a
  patch from a stale copy does.
- Object listings of S3 are in key order, newest version first, and no writer
  runs beside a teardown.
- The digest in user names and the password hash are arbitrary functions. The
  cache theorem assumes that the hash tells the passwords in use apart.
- A MySQL server refuses a REVOKE only for a privilege that is not held, and an
  account's grants change only through the modelled statements.

## Where the code does less than its documentation says

Each is proved as a lemma, with the exact condition under which the code does
what is promised.

- A created service account key whose material does not decode stays live and
  is referred to by nothing (pkg/drivers/gcs/serviceaccount.go:237-240);
  `CredentialLifecycle.LeakExactly` lists this among all ways to lose a key.
- A pass on a stale copy of the access can leave the recorded key behind:
  `CredentialLifecycle.StaleCopyLeaks`; the guards in
  `CredentialLifecycle.LeakExactly` say when.
- A key deleted at the server, surplus or not, is not re-minted within one
  reconcile, as the design's section on retention semantics promises
  (pkg/drivers/gcs/serviceaccount.go:185-189 knows): see
  `CredentialLifecycle.SettlesOnDeadKey`. It is replaced only for one of the
  reasons to mint: `CredentialLifecycle.GoneKeyNotReplaced`.
- An access created after a teardown pass listed none and before it lets go a
  Buckety still Ready can lose its Buckety: `DeletionProtocol.WindowOrphans`,
  and exactly then (`DeletionProtocol.CredentialsAnchored`).
- The implicit access never appears while another Buckety's access has its
  name, because AlreadyExists counts as success: `ImplicitAccess.ConvergesExactly`.
- On a lagging list the delete of the implicit access, which goes by name alone,
  can take an access that a user has created under that name since:
  `ImplicitAccess.ApiServer.ReconcileImplicitAccess` says exactly when.
- A backend that stays "in progress" past the patience makes every pass write
  status, and exactly past it: `PassOutcomes.EveryInProgressWrites`,
  `PassOutcomes.QuietExactlyWithinPatience`.
- Recursive deletion with pages of one entry can go on for ever:
  `S3Teardown.SinglePagesDrainExactly`. Real pages hold a thousand.
- A lifecycle age beyond 2^31 - 1 is cut to 32 bits, and a date that is the zero
  time counts as no condition, so that a rule can expire more than its document
  asks for: `S3Lifecycle.RuleMeaningExactly`,
  `ObjectStoreLifecycle.ParsedMeaningExactly`.
- A bucket adopted or edited elsewhere whose lifecycle rules have tags, sizes, a
  combined filter, an expiry date, transitions or an expiry of noncurrent versions
  is taken to hold a document's rules when prefix, days and status agree:
  `S3Lifecycle.TagsOverlooked`; `S3Lifecycle.NormalFormExactly` says for which
  rules this is harmless.
- An expiry the s3 driver writes leaves noncurrent versions alone, also where the
  document does not ask for live ones only: `S3Lifecycle.MeaningPreserved`.
- An empty cleanup policy leaves its series behind: `MetricIndex.SetPolicyAgrees`.

## Model

| member | source | states |
|---|---|---|
| `CredentialLifecycle.LeakExactly` | pkg/controller/bucketyaccess/reconciler.go:261-369 | for every call of a pass, every way it can fail, a crash and every outside change: the step loses the last reference to a live key, held by Secret, status or pass, if and only if its guard, readable before the step, holds; the bookkeeping invariant is kept |
| `CredentialLifecycle.NothingLeaksFromStart` | pkg/controller/bucketyaccess/reconciler.go:316-367 | from the start, a run without a step whose guard holds ends with nothing leaked |
| `CredentialLifecycle.ReclaimsExactly` | pkg/controller/bucketyaccess/reconciler.go:345-369 | a key stops being leaked if and only if a pass on a stale copy revokes it, someone pastes it back into the Secret, or it is deleted at the server |
| `CredentialLifecycle.LeakedForGood` | pkg/controller/bucketyaccess/reconciler.go:131-184 | the controller never gets a leaked key back: while passes work on current copies and nobody pastes keys or deletes a leaked key at the server, it stays live and out of reach over every run, also past the end of the access |
| `CredentialLifecycle.RunAccounted` | pkg/controller/bucketyaccess/reconciler.go:316-367 | over any run with no step whose guard holds, no live key of the access is leaked that was not leaked before |
| `CredentialLifecycle.StaleCopyLeaks` | pkg/controller/bucketyaccess/reconciler.go:354-367 | from any settled state: the Secret lost, then one pass on a copy that predates the recorded principal, with every call succeeding, leaves the recorded key live and referred to by nothing |
| `CredentialLifecycle.SecretNeverRevoked` | pkg/drivers/gcs/serviceaccount.go:197-242 | in every run in which nobody pastes a key into the Secret, until teardown begins, the Secret never carries a key the controller revoked, whatever subset of the keys each listing returned; only keys minted for the access are ever revoked |
| `CredentialLifecycle.UntamperedRun` | pkg/controller/bucketyaccess/reconciler.go:316-367 | the invariant behind it, kept by every step of every run |
| `CredentialLifecycle.ForeignSecretKept` | pkg/controller/bucketyaccess/reconciler.go:255-277 | over every run a Secret that is not the access's own is neither overwritten nor taken along: only users remove it |
| `CredentialLifecycle.MintsBounded` | pkg/drivers/gcs/serviceaccount.go:197-242 | over any run with the service account left alone, mints plus the mint still due never exceed what was due plus the reasons: lost or edited Secrets, expiries, minted keys that did not reach the Secret |
| `CredentialLifecycle.MintsBoundedFromStart` | pkg/drivers/gcs/serviceaccount.go:197-242 | from the start, at most one key more than there were reasons |
| `CredentialLifecycle.StepPaid` | pkg/drivers/gcs/serviceaccount.go:197-242 | each single step mints, or makes a mint due, only against a reason |
| `CredentialLifecycle.SettlesOnDeadKey` | pkg/drivers/gcs/serviceaccount.go:170-189 | from any settled state whose key is usable: the key deleted at the server, the next pass, with every call succeeding, settles on the dead key and changes nothing at all |
| `CredentialLifecycle.GoneKeyNotReplaced` | pkg/drivers/gcs/serviceaccount.go:170-189 | and no run ever mints a replacement, whatever keys are deleted at the server, until the Secret is lost or edited or a key expires |
| `AccessReconciler.Reconciler.GrantAccess` | pkg/drivers/gcs/serviceaccount.go:197-242 | the Secret's key is returned as it is when it is of the Buckety's service account and not both listed and expired; otherwise exactly one key is minted, and lost when its material does not decode; a key the listing shows expired is never returned; nothing recorded changes |
| `AccessReconciler.Reconciler.WriteSecret` | pkg/controller/bucketyaccess/reconciler.go:316-343 | on success the Secret carries the result; on failure Secret and status are as before and a key minted in the pass is revoked when that call succeeds |
| `AccessReconciler.Reconciler.SettlePrincipal` | pkg/controller/bucketyaccess/reconciler.go:345-369 | the predecessor is revoked exactly when it differs and is named, and status moves to the new principal only after that succeeded |
| `AccessReconciler.Reconciler.Drop` | pkg/controller/bucketyaccess/reconciler.go:131-184 | released if and only if the finalizer update lands on a current copy, the Buckety read did not fail, and, with the Buckety there, RevokeAccess returned nil or no backend is known and nothing revocable is recorded |
| `AccessReconciler.Reconciler.Reconcile` | pkg/controller/bucketyaccess/reconciler.go:112-448 | a whole pass is a run of its own steps, so the results about untampered and current runs apply to it; it does nothing at all before the Buckety is Ready and its backend known, the Secret read and not another's; settled on a current copy it leaves exactly one live key besides those already leaked and the unrecorded one it overwrote, held by Secret and status, also in the retry after a failed status patch, and none if that key was reused and had been deleted at the server; that key is of the service account and not one its listing shows expired; releasing a settled access leaks nothing; an unexpired intact key is never re-minted |
| `DeletionProtocol.PreexistingSurvives` | pkg/controller/buckety/reconciler.go:188-242 | over every interleaving with spec edits, restarts and config changes: DeleteBuckety is called only with the frozen name on the stamped driver, never when the inspection at stamping found the resource, and a release under Delete of a resource not adopted follows a DeleteBuckety that returned nil in the same pass |
| `DeletionProtocol.RetainedSurvives` | pkg/controller/buckety/reconciler.go:430-490 | over every run each DeleteBuckety call was asked for by a stored version of the Buckety: terminating, under Delete, stamped with that driver and name, not adopted; one that was never under Delete is never asked to go |
| `DeletionProtocol.CallsExactly` | pkg/controller/buckety/reconciler.go:430-490 | no step but a teardown's delete calls DeleteBuckety, and only on such a copy with the stamped driver there; under Retain a pass lets go without a call, under Delete of a resource not adopted only after one that returned nil |
| `DeletionProtocol.RunSafe` | pkg/controller/buckety/reconciler.go:362-504 | the invariant behind it, kept by every step of every run |
| `DeletionProtocol.CredentialsAnchored` | pkg/controller/bucketyaccess/reconciler.go:131-184 | unless an access is created while a teardown pass that has listed none is about to let go a Buckety still served: a recorded revocable credential has its Buckety held by the finalizer, so no pass finds the Buckety missing, and the access is released only after RevokeAccess returned nil |
| `DeletionProtocol.NoRaceExactly` | pkg/controller/bucketyaccess/reconciler.go:131-184 | a run has no such creation if and only if each access in it is created outside the window |
| `DeletionProtocol.RunProtected` | pkg/controller/buckety/reconciler.go:362-428 | the invariant behind it, kept by every step of every run without such a creation |
| `DeletionProtocol.WindowOrphans` | pkg/controller/buckety/reconciler.go:362-504 | the condition is exact: from every state of that window, a created access ends, with every call succeeding, with a recorded revocable credential without its Buckety, and is then released with nothing revoked |
| `DeletionProtocol.WindowReached` | pkg/controller/buckety/reconciler.go:107-428 | the window is reached from any new Buckety whose backend is there, whatever resource may be claimed |
| `DeletionProtocol.OrphanedFromStart` | pkg/controller/buckety/reconciler.go:107-504 | a whole run from a new Buckety to a recorded revocable credential whose Buckety is gone |
| `DeletionProtocol.DropUnrevoked` | pkg/controller/bucketyaccess/reconciler.go:170-184 | once its Buckety is gone an access is released without any revocation |
| `BucketyReconciler.Reconciler.ReconcileDelete` | pkg/controller/buckety/reconciler.go:362-504 | a failed or blocking list destroys nothing; an implicit access is deleted first and waited for; under Retain the backend is never asked, and the release needs only the finalizer update; under Delete it is asked exactly for a stamped resource not adopted, on the stamped driver; the exact condition for the release |
| `BucketyReconciler.Reconciler.ClaimResource` | pkg/controller/buckety/reconciler.go:188-242 | a stamp is persisted exactly when the name resolves, the inspection answers, adoption is allowed and the version is the stored one; anything else leaves the sticky fields alone |
| `BucketyReconciler.Reconciler.Reconcile` | pkg/controller/buckety/reconciler.go:107-356 | a pass is a run of its own steps and keeps what holds of every run; on a copy that is not terminating it calls no delete and loses no object, and accesses change exactly as the implicit access is reconciled, after the resource was ensured; it pauses exactly when the stamped driver is not there; a pass that stops short of serving and reports it leaves Ready False; where the run invariant held, a settled pass leaves a stamped, Ready Buckety |
| `ImplicitAccess.ConvergesExactly` | pkg/controller/buckety/reconciler.go:515-576 | rounds of a pass over the Buckety and one over every access of the namespace reach the state asked for, within six and for good, if and only if the Buckety's name is not taken by a lasting access of another Buckety while no explicit access of its own lasts; otherwise no round ever does; asked for means the default's Secret and role, ReadWrite when it names none |
| `ImplicitAccess.RoundShortens` | pkg/controller/buckety/reconciler.go:515-576 | the Buckety's pass does not lengthen the distance to that state, the passes over all accesses do not either, and a round of both shortens it |
| `ImplicitAccess.PassesSweep` | pkg/controller/bucketyaccess/reconciler.go:112-200 | passes over all accesses of a namespace come to the same in any order and with repetitions |
| `ImplicitAccess.TakenStaysTaken` | pkg/controller/buckety/reconciler.go:556-556 | a taken name is never freed, whatever explicit accesses go: the ignored AlreadyExists hides it for good |
| `ImplicitAccess.ApiServer.ReconcileImplicitAccess` | pkg/controller/buckety/reconciler.go:515-576 | on a list that may lag: the pass fails exactly when a role update meets another version; what it creates or updates has the default's Secret and role; an access that is not the Buckety's implicit one is deleted exactly when the last implicit entry listed has its name, that entry is unwanted or names another Secret, and the access is not already held back by its finalizer; on a current list the pass does what the specification says |
| `StatusConditions.WritesUnlessFixed` | pkg/controller/status/status.go:84-104 | a pass writes status if and only if its edits leave something other than messages different, whatever its messages and clock |
| `StatusConditions.StoredIsFixed` | pkg/controller/status/status.go:58-104 | after a pass the same edits find nothing to write |
| `StatusConditions.Quiescent` | pkg/controller/status/status.go:58-104 | any number of passes with the same edits, messages and times arbitrary, write at most once |
| `StatusConditions.SecondPassQuiet` | pkg/controller/status/status.go:84-104 | pass by pass: the same edits once more, with any messages and times, change nothing beyond messages and leave the status as it is |
| `StatusConditions.TransitionTimesHonest` | pkg/controller/status/status.go:58-64 | a stored condition's transition time moves only in a write that changes its stored status |
| `StatusConditions.TransitionTimesExactly` | pkg/controller/status/status.go:58-64 | and every condition a pass stores has the time of the pass, unless it was stored with the same status before: then it has the time it had |
| `PassOutcomes.OutcomeQuiescent` | pkg/controller/buckety/reconciler.go:259-356 | for each way a pass can end, passes that keep ending that way write status at most once between them |
| `PassOutcomes.ReportedExactly` | pkg/controller/buckety/reconciler.go:259-504 | each condition is stored as True exactly when the pass ended in the way it reports, or when it was True and the pass does not touch it |
| `PassOutcomes.ReadyExactly` | pkg/controller/buckety/reconciler.go:259-356 | a pass leaves Ready stored as True exactly when the resource was ensured or the credentials are in place, and as False after every other end but a teardown that waits for explicit accesses, which leaves it alone |
| `PassOutcomes.QuietExactlyWithinPatience` | pkg/controller/buckety/reconciler.go:318-342 | once a first in-progress pass is stored, a run of further ones writes nothing if and only if all of them are within the patience |
| `PassOutcomes.WaitingWritesExactly` | pkg/controller/buckety/reconciler.go:629-633 | and the single such pass writes if and only if the patience is over |
| `PassOutcomes.PatientPassesQuiet` | pkg/controller/buckety/reconciler.go:318-342 | in-progress passes within the patience write at most once between them |
| `PassOutcomes.InProgressAlternates` | pkg/controller/buckety/reconciler.go:318-342 | past the patience, a backend that keeps answering "in progress" makes the stored reason alternate with every pass, the transition time kept |
| `PassOutcomes.EveryInProgressWrites` | pkg/controller/buckety/reconciler.go:629-633 | and each of these passes writes status |
| `PassOutcomes.KeepTransitionTimes` | pkg/controller/status/status.go:58-64 | the in-place loop gives a condition the stored time exactly when it is stored with the same status, leaves it its own otherwise, and changes nothing else |
| `PassOutcomes.StatusObject.PatchStatus` | pkg/controller/buckety/reconciler.go:669-677 | a patch is sent exactly when something other than a message changed against the copy, stale or not; it carries the fields and the conditions that changed and leaves the others as stored; on a current copy it stores what the pass proposes |
| `DeletionBackoff.Tracker.Next` | pkg/controller/buckety/deletebackoff.go:29-47 | the k-th stalled pass in a row of a Buckety waits min(2*2^(k-1), 120) seconds whatever other Bucketies do; progress waits two and starts over |
| `DeletionBackoff.DelaysExactly` | pkg/controller/buckety/deletebackoff.go:16-47 | 2, 4, 8, 16, 32 and 64 seconds, then two minutes for good |
| `DeletionBackoff.Tracker.Forget` | pkg/controller/buckety/deletebackoff.go:50-54 | ends the streak of that Buckety only |
| `Breaker.Conn.Cooldown` | pkg/drivers/mysql/breaker.go:69-75 | the doubling loop equals min(2*2^(f-1), 300) seconds after f failures |
| `Breaker.Conn.Admit` | pkg/drivers/mysql/breaker.go:54-67 | an operation goes through exactly when closed or past the hold, and then holds the others back for one cooldown |
| `Breaker.Conn.Report` | pkg/drivers/mysql/breaker.go:78-92 | an answer closes the breaker, the end of the caller's context changes nothing, a failure extends the hold by the next cooldown |
| `Breaker.HoldNeverShrinks` | pkg/drivers/mysql/breaker.go:54-92 | until the server answers, failures and the end of the hold only grow, in whatever order operations report |
| `Breaker.RunSane` | pkg/drivers/mysql/breaker.go:54-92 | in every run the hold reaches at most one cooldown past the last event |
| `Breaker.AdmittedInTime` | pkg/drivers/mysql/breaker.go:54-92 | after any run an operation that asks a cooldown after the last event, or later, goes through |
| `Breaker.ContextEndsUnseen` | pkg/drivers/mysql/breaker.go:84-87 | the end of a caller's context changes nothing that comes after it |
| `Breaker.AdmissionsSpaced` | pkg/drivers/mysql/breaker.go:54-75 | two admissions with no answer in between are at least the cooldown of the failures known at the first apart |
| `Breaker.OutagePaced` | pkg/drivers/mysql/breaker.go:54-92 | with attempts that fail in turn, the attempt after f failures comes no earlier than the first failure plus the sum of the f cooldowns |
| `Breaker.AttemptsPaced` | pkg/drivers/mysql/breaker.go:54-92 | the same from any open state, with held-back operations and ended contexts in between |
| `Breaker.SumFromEight` | pkg/drivers/mysql/breaker.go:21-24 | from eight failures on that sum is 300n - 1890 seconds: a hundred failed handshakes take hours |
| `Breaker.AnswerCloses` | pkg/drivers/mysql/breaker.go:82-83 | after any run an answer lets the next operation through at once |
| `S3Teardown.PassesDrain` | pkg/drivers/s3/driver.go:240-322 | for any contents, versioning off, enabled or suspended, and any page sizes of at least two: repeated passes delete the bucket, each one before removing something and never reporting a stall |
| `S3Teardown.SinglePagesDrainExactly` | pkg/drivers/s3/driver.go:240-322 | with pages of one entry they do so if and only if no object outlives a deletion by key |
| `S3Teardown.PassShrinks` | pkg/drivers/s3/driver.go:269-300 | one pass of at least two entries lowers (objects, 2 markers + 3 current objects) lexicographically |
| `S3Teardown.DurableForever` | pkg/drivers/s3/driver.go:269-300 | with pages of one entry, a bucket holding an object that survives hiding is never deleted |
| `S3Teardown.ExactDrops` | pkg/drivers/s3/driver.go:305-322 | deleting a listed page by key and version id takes away exactly the first entries of the listing |
| `S3Teardown.Driver.EmptyBucketSlice` | pkg/drivers/s3/driver.go:269-300 | what one slice deletes: its page, nothing when a call fails or nothing is listed, and all but the refused entries, reported as a failure, when some are refused |
| `S3Teardown.Driver.DeleteBuckety` | pkg/drivers/s3/driver.go:240-263 | only an empty bucket is dropped; a stalled pass deleted nothing; a failed one deleted nothing but entries not refused; every other pass is the specified one |
| `ObjectStoreLifecycle.ParseLifecycle` | pkg/drivers/objectstore/lifecycle.go:97-147 | every rule checked in order, the first bad one reported, and otherwise each rule brought into neutral form |
| `ObjectStoreLifecycle.AcceptedExactly` | pkg/drivers/objectstore/lifecycle.go:97-147 | a rule is accepted if and only if its type is one of three, a storage class is given with the one that needs it and no other, and its dates parse |
| `ObjectStoreLifecycle.ParsedMeaningExactly` | pkg/drivers/objectstore/lifecycle.go:119-143 | parsing keeps a rule's meaning over all objects if and only if none of its dates is the zero time |
| `S3Lifecycle.TranslateLifecycle` | pkg/drivers/s3/driver.go:642-681 | the first rule outside the portable subset is refused with its reason, otherwise every rule is translated in place |
| `S3Lifecycle.PortableSubsetExactly` | pkg/drivers/s3/driver.go:634-681 | a rule is refused unless it has an age, at most one prefix, no other condition and one of the two portable actions |
| `S3Lifecycle.RuleMeaningExactly` | pkg/drivers/s3/driver.go:647-677 | a translated rule expires or aborts exactly what the neutral rule does, noncurrent versions aside, if and only if its age fits 32 bits: for positive ages, at most 2^31 - 1 |
| `S3Lifecycle.MeaningPreserved` | pkg/drivers/s3/driver.go:642-681 | with such ages and no zero date, the S3 configuration expires and aborts exactly what the document asks for, and never expires a noncurrent version |
| `S3Lifecycle.LongAgeTruncated` | pkg/drivers/s3/driver.go:670-672 | an age of 2^32 + 1 days becomes one day |
| `S3Lifecycle.KeyInjective` | pkg/drivers/s3/driver.go:689-704 | the joined comparison key tells rules apart although prefixes may contain the separator |
| `S3Lifecycle.SortedKeysDecide` | pkg/drivers/s3/driver.go:705-714 | sorted joined keys are equal if and only if the two configurations hold the same rules as multisets |
| `S3Lifecycle.LifecycleEqual` | pkg/drivers/s3/driver.go:685-720 | equal if and only if the multisets of (prefix, expiry, abort, status) are equal |
| `S3Lifecycle.SameRulesSameMeaning` | pkg/drivers/s3/driver.go:683-720 | configurations found equal expire and abort the same when every rule in them is portable: disabled, or without further actions and without a narrower filter on what it does |
| `S3Lifecycle.NormalFormExactly` | pkg/drivers/s3/driver.go:689-704 | a rule S3 can hold does, on every object and for every action, what the compared tuple says, if and only if it is portable |
| `S3Lifecycle.TagsOverlooked` | pkg/drivers/s3/driver.go:689-704 | a bucket whose 30-day rule is limited to a tag is taken to hold a document's 30-day rule, which expires more |
| `S3Lifecycle.HeldMeaning` | pkg/drivers/s3/driver.go:598-720 | a bucket of portable rules found to hold a document's rules expires and aborts what the document asks for, end to end |
| `S3Lifecycle.BucketLifecycle.Reconcile` | pkg/drivers/s3/driver.go:595-632 | when the calls succeed the document's rules are put in place, unless the bucket's have the same compared tuples: then it is not written, also when they say more; refusals and failures leave it alone |
| `Sorting.SortDecides` | pkg/drivers/s3/driver.go:711-717 | sorting and comparing element by element decides equality of multisets |
| `MysqlAccounts.AlignKnown` | pkg/drivers/mysql/driver.go:338-363 | from grants read back: exactly the role's privileges and no grant option, and no statement when it was so already |
| `MysqlAccounts.AlignUnknown` | pkg/drivers/mysql/driver.go:338-394 | from grants nobody read: of the managed set exactly the role's part, everything else untouched, whichever unheld revocations the server refuses |
| `MysqlAccounts.EnsureExact` | pkg/drivers/mysql/driver.go:266-312 | from any server state: a verified pass leaves exactly the Secret's password and the role's privileges; every successful one the password and the managed part; no pass touches another account |
| `MysqlAccounts.EnsureSucceedsExactly` | pkg/drivers/mysql/driver.go:266-312 | from any server state, without failed calls: a pass from the Secret is verified if and only if its password logs in afterwards, and succeeds if and only if another account shadows the login or it logs in and the account's privileges have names fit for a statement |
| `MysqlAccounts.ThirdPassSilentExactly` | pkg/drivers/mysql/driver.go:266-363 | from any server state: after two passes without failed calls a third is verified and issues no statement if and only if the account's host admits the controller, no more specific account of the user exists, and its privileges have names fit for a statement |
| `MysqlAccounts.RevokeIfHeldRevokes` | pkg/drivers/mysql/driver.go:379-394 | one revocation each takes away exactly the listed privileges, held or not |
| `MysqlAccounts.RolesFine` | pkg/drivers/mysql/statements.go:13-20 | every privilege name of the roles passes the check on names spliced into statements |
| `MysqlAccounts.PrivilegeNameExactly` | pkg/drivers/mysql/statements.go:40-42 | a privilege name is fit for a statement if and only if it is upper-case words with single spaces between them |
| `MysqlAccounts.RoleMeans` | pkg/drivers/mysql/statements.go:10-38 | of the managed privileges Reader is SELECT alone, ReadWrite and no role are all thirteen, and any other role, Writer among them, is refused |
| `VerifiedAccounts.KeyTellsApart` | pkg/drivers/mysql/verified.go:43-46 | the joined key determines pattern, role and password hash |
| `VerifiedAccounts.CacheTransparent` | pkg/drivers/mysql/driver.go:183-252 | with no outside change, any sequence of grants and revocations gives the same answers and issues the same statements with the cache as with a check on every pass |
| `VerifiedAccounts.HitAsChecked` | pkg/drivers/mysql/verified.go:50-58 | a pass that hits leaves and answers what its check would have |
| `VerifiedAccounts.RepeatSpared` | pkg/drivers/mysql/verified.go:38-67 | the same grant again within the interval of a passed check issues no statement |
| `VerifiedAccounts.FailureLeavesNoUser` | pkg/drivers/mysql/driver.go:230-239 | a pass that fails although every call was answered leaves no user behind that was not there before |
| `VerifiedAccounts.GrantKeepsBacked` | pkg/drivers/mysql/driver.go:224-229 | what the cache holds stays true of the server after any pass |
| `VerifiedAccounts.EntriesAreChecks` | pkg/drivers/mysql/verified.go:60-73 | whatever happens to the server, each entry is that of a real check at the time of that check |
| `VerifiedAccounts.OutsideChangeSeen` | pkg/drivers/mysql/verified.go:50-67 | a hit one interval or more after an outside change stands on a real check made after the change: hits never refresh |
| `MysqlDriver.Driver.EnsureAccount` | pkg/drivers/mysql/driver.go:266-312 | whatever calls fail: a verified success is exact, a success holds the managed part, other accounts are untouched; without failures it is the specified pass |
| `MysqlDriver.Driver.RevokeIfHeld` | pkg/drivers/mysql/driver.go:383-394 | the loop is the specified sequence of single revocations |
| `MysqlDriver.Driver.AlignGrants` | pkg/drivers/mysql/driver.go:338-363 | succeeds only if no call failed, and is then the specified alignment |
| `MysqlDriver.Driver.SetPassword` | pkg/drivers/mysql/driver.go:318-330 | creates the user, or sets the password of an existing one, and reports which |
| `MysqlDriver.Driver.GrantAccess` | pkg/drivers/mysql/driver.go:183-252 | whatever calls fail: a granted answer means the account holds the answered password and of the managed privileges SELECT alone for Reader, all for ReadWrite and no role; any other role is refused, an unfit password stops the pass before the server, and no other failure drops an account that was there; the cache stays true of the server |
| `MysqlDriver.Driver.RevokeAccess` | pkg/drivers/mysql/driver.go:413-426 | success means the account is gone; its cache entry is dropped in any case |
| `MysqlNames.BoundaryExactly` | pkg/drivers/mysql/names.go:70-99 | under a validated configuration a user name is accepted if and only if it extends the prefix, fits and has only name characters; system names and the controller's own account never get that far |
| `MysqlNames.ManagedExactly` | pkg/drivers/mysql/names.go:70-105 | an account is the controller's if and only if its user is within that boundary and its host a pattern of at most 255 characters |
| `MysqlNames.UserNameTotal` | pkg/drivers/mysql/names.go:113-140 | every Kubernetes namespace and name has a user name, of at most 32 characters, inside the prefix and not reserved |
| `MysqlNames.UserNamesCollideExactly` | pkg/drivers/mysql/names.go:113-140 | two accesses share a user if and only if they are the same, or both hashed with equal digests and equal readable parts |
| `MysqlNames.FormsDisjoint` | pkg/drivers/mysql/names.go:107-112 | the plain and the hashed form never coincide |
| `MysqlNames.PrincipalRoundTrip` | pkg/drivers/mysql/names.go:147-167 | the recorded principal of a managed account reads back as that account |
| `MysqlNames.ParsedIsManaged` | pkg/drivers/mysql/names.go:155-167 | only managed accounts are read, each from its own principal alone, and a refused principal is that of none |
| `MysqlNames.GrantPatternExact` | pkg/drivers/mysql/names.go:179-181 | under LIKE the escaped pattern of a database matches that database and nothing else, for every string |
| `MysqlNames.QuotedLexes` | pkg/drivers/mysql/names.go:171-173 | any string, quoted, lexes as one backtick identifier that unquotes to it |
| `MysqlNames.GrantReaches` | pkg/drivers/mysql/statements.go:83-97 | GRANT and REVOKE on the quoted pattern reach the one database they are meant for |
| `TopicAlignment.Driver.AlignTopic` | pkg/drivers/kadm/driver.go:407-499 | the outcome, the broker's new state, the memory, the counters and the reported changes of a pass: both of the latter move by exactly what the broker acknowledged |
| `TopicAlignment.Driver.RememberAccepted` | pkg/drivers/kadm/driver.go:520-534 | the acknowledged values, and no other entry, are remembered |
| `TopicAlignment.OutcomeExactly` | pkg/drivers/kadm/driver.go:407-469 | a pass ends in drift when partitions would shrink or the replication factor change, fails when a call fails before that, and passes over a rejected growth |
| `TopicAlignment.AfterExactly` | pkg/drivers/kadm/driver.go:407-499 | partitions only grow, to the requested count; a requested key is set if and only if it is reported with another value, or not reported and not last acknowledged with this one; nothing else of the topic changes |
| `TopicAlignment.ReportExactly` | pkg/drivers/kadm/driver.go:430-498 | the growth and then each altered key is reported with its value before and after |
| `TopicAlignment.CountersExactly` | pkg/drivers/kadm/driver.go:407-499 | a counter moves by what the pass adds to it from where it was, a new one from zero, and no other moves |
| `TopicAlignment.Converges` | pkg/drivers/kadm/driver.go:407-499 | one acknowledged pass makes every reported requested key equal the request and reaches the partition count without lowering it; the next identical pass changes nothing |
| `TopicAlignment.NeverSetTwice` | pkg/drivers/kadm/driver.go:504-543 | over any run a key the broker never reports is not set twice in a row to the same value unless forgotten in between |
| `TopicAlignment.SetOnce` | pkg/drivers/kadm/driver.go:504-534 | while its requested value stays the same it is set at most once |
| `TopicAlignment.OrderIrrelevant` | pkg/drivers/kadm/driver.go:485-498 | the order of the reported changes does not depend on the order the map yields |
| `TopicAlignment.TranslateParameters` | pkg/drivers/kadm/driver.go:555-582 | accepted if and only if every key is known and parses; the result is what each parameter asks for |
| `MetricIndex.RunAgrees` | pkg/drivers/kadm/effective.go:72-180 | after any run with non-empty policies the series present are exactly those of the records: one source per key, one policy, one topic for each Buckety |
| `MetricIndex.RunShowsLast` | pkg/drivers/kadm/effective.go:72-180 | and each exported key of each Buckety shows the topic, value and source of the last operation that recorded it, or nothing; operations on other Bucketies and other keys change none of it |
| `MetricIndex.RunShowsPolicy` | pkg/drivers/kadm/effective.go:72-180 | and its one policy series is that of the last operation that recorded a policy, or there is none |
| `MetricIndex.SetPolicyAgrees` | pkg/drivers/kadm/effective.go:174-180 | setting a policy keeps series and record in agreement if and only if the policy is not empty |
| `MetricIndex.EmptyPolicyLingers` | pkg/drivers/kadm/effective.go:174-180 | an empty policy leaves a series that a later policy does not replace |
| `MetricIndex.LingersExactly` | pkg/drivers/kadm/effective.go:125-180 | such a series goes if and only if the Buckety is forgotten or changes its topic |
| `MetricIndex.EffectiveShown` | pkg/drivers/kadm/effective.go:72-97 | after a pass has read the topic each exported key shows the value and source the broker reports, and nothing when it reports no number |
| `MetricIndex.SeriesExactly` | pkg/drivers/kadm/effective.go:35-98 | for each of the ten exported keys the series present is the one with the number the broker reports and the name of the place it comes from, if it reports one |
| `MetricIndex.AlteredShown` | pkg/drivers/kadm/effective.go:103-119 | after an acknowledged alter each exported key in it shows its new value as an override of the topic, and no other source |
| `MetricIndex.PolicyShown` | pkg/drivers/kadm/effective.go:92-97 | and the one policy series is the reported one, or none |
| `MetricIndex.ForgottenGone` | pkg/drivers/kadm/effective.go:125-134 | nothing of a forgotten Buckety is left and nothing of another is lost |
| `MetricIndex.Exporter.RecordEffective` | pkg/drivers/kadm/effective.go:72-98 | the loop over the exported keys is the specified update |
| `MetricIndex.Exporter.RecordAltered` | pkg/drivers/kadm/effective.go:103-119 | the loop over acknowledged alters is the specified update |
| `MetricIndex.Exporter.ForgetBuckety` | pkg/drivers/kadm/effective.go:125-134 | series and record go together |
| `Template.Resolve` | pkg/template/template.go:40-74 | the index loop resolves to what its tokens, one after the other, stand for, or to the first error |
| `Template.LabelForm` | pkg/template/template.go:119-122 | a label reference is read with exactly its own key, and nothing else is read as one |
| `Template.DefaultForm` | pkg/template/template.go:124-125 | a backend reference is read with exactly its own key, and nothing else is read as one |
| `Template.ReferencesMean` | pkg/template/template.go:127-160 | labels stand for label values and backend references for backend defaults, missing ones are reported by key, and parameter templates refuse labels |
| `Template.PlainReferences` | pkg/template/template.go:127-138 | the name and namespace references stand for the object's own, which must not be empty |
| `Template.UnsupportedExactly` | pkg/template/template.go:127-160 | a reference is refused as unsupported if and only if it has none of the four forms |
| `Template.TokensThenValues` | pkg/template/template.go:40-74 | that is cutting into tokens first and joining their values: substituted values are never scanned again |
| `Template.EscapeRoundTrip` | pkg/template/template.go:50-54 | doubling every dollar of any text and resolving gives the text back |
| `Template.ReferenceVerbatim` | pkg/template/template.go:56-68 | a reference stands for its value as it is, also when the value looks like a template |
| `Template.ReferenceFails` | pkg/template/template.go:62-67 | a reference that does not resolve fails the template with its error, whatever follows |
| `Template.OpenFails` | pkg/template/template.go:57-61 | a reference that is never closed is reported at the offset where it opens |
| `Template.LoneDollar` | pkg/template/template.go:69-71 | a dollar sign before anything but another or a brace stands for itself |
| `Template.ResolveParameters` | pkg/template/template.go:86-117 | the lazy copy is a pointwise update of the declared keys from the parameters as given; it succeeds if and only if all of them resolve, and reports the first that does not |
| `Template.PointwiseUnique` | pkg/template/template.go:86-117 | on success the result is the same for every order of the declared keys |
| `BackendConfig.EffectiveParameters` | pkg/config/config.go:67-79 | the resource's parameters win key by key over the backend's |
| `BackendConfig.TextNames` | pkg/config/config.go:85-95 | a spec.name without dollar signs is the resource name as it stands, and any name can be had by doubling its dollars, whatever labels and defaults there are |
| `BackendConfig.LabelsOnlyInNames` | pkg/config/config.go:81-114 | a label reference stands for the label's value in spec.name and is refused in a parameter |
| `BackendConfig.ReferencesInViews` | pkg/config/config.go:81-114 | in names and parameters alike the plain references are the object's name and namespace, and a backend reference is the backend's default or reported as missing |
| `BackendConfig.ResolvedParameters` | pkg/config/config.go:103-114 | each parameter is the resource's or else the backend's, templated ones resolved; it succeeds if and only if every templated one resolves |
| `BackendConfig.ViewUnique` | pkg/config/config.go:103-114 | one view, whatever the order of the templated keys |

## Left out

- Network and SDK calls, TLS, driver factories, JSON and YAML decoding, the
  webhook, deployment, schemas and scripts.
- Events, log lines, error texts and their redaction.
- Randomness: generated passwords and delays are arbitrary values.
- Requeue times other than the teardown's, and the deferral after a start other
  than as a pass that does nothing.
- The pause on a changed driver major and parameter checks of the Buckety pass:
  part of "ensured" in `BucketyReconciler`, as outcomes of their own in
  `PassOutcomes`.
- The gcs driver's bucket deletion, binding and service account creation; its
  part in the credential protocol is modelled.
- Stale grants read through a lagging Galera node; a login refused by one is
  modelled.
- MetricIndex counters: `ForgetBuckety` also drops the change counters, which
  are modelled in `TopicAlignment` only.
- Loading and validating configuration files (`Load`, `validateOuter`,
  `withoutKeys`), and the parameter and resource name validators of the drivers.
- The text of SQL statements: a statement is a value, and its identifiers and
  patterns are the subject of `MysqlNames`.
- Creating, deleting and inspecting Kafka topics; a topic's forgotten memory is
  a step of the run in `TopicAlignment`.
- Goroutines within one method: a method is one step.
- Aliasing of maps: `ResolveParameters` and `EffectiveParameters` return maps by
  value, so "the input is not changed" holds by construction.
- DeletionProtocol.CredentialsAnchored: not for runs with an access created in the window of `DeletionProtocol.Window`, because there the code loses the Buckety first (`DeletionProtocol.WindowOrphans`).
- MetricIndex.RunAgrees: not for empty policies, because there the series and the record part (`MetricIndex.SetPolicyAgrees`).
- CredentialLifecycle.MintsBounded: not across a change of the service account parameter, because each change is a reason to mint of its own.
- VerifiedAccounts.FailureLeavesNoUser: not when a call is lost, because a CREATE USER whose answer is lost is not known to have created anything; the next pass takes the user over (`MysqlAccounts.EnsureExact`).
- VerifiedAccounts.CacheTransparent: not with outside changes or failed calls, because a check that is skipped cannot fail; `MysqlDriver.Driver.GrantAccess` states what holds then.
