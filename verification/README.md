# Clawsembly: models and proofs

This project models the parts of Clawsembly whose correctness is decided by visible code, and proves
what they promise. Every `.dfy` file holds the module of its name; `dafny verify dfyconfig.toml` checks
all of them.

**The shared worker** that connects several tabs to one runtime owner. `Coordination` holds its event
handlers as functions on the values of its module-level variables, `Coordinator` has the class that
updates those variables in place and is proved to do the same. A failing `postMessage` disconnects its
port in the middle of whatever loop it happens in; whether the n-th post fails is an arbitrary function,
so the election, the deduplication of `wizard.next`, the coalescing of `wizard.start` and the session are
proved for every pattern of failures. The request ledger (`RequestLedger`) and the exact posts
(`CoordinationPosts`) are proved for posts that go through, fresh request ids and an owner that answers
what it was given; it may answer in any order. `Outstanding` follows the messages that the owner holds
unanswered, and proves that the worker's maps describe those. `WizardReplies` says which replies change
the remembered wizard, what is kept, and who is told what.

**The snapshot store.** `Snapshots` holds a commit as the sequence of directory creations, file creations
and closes that it does, and a restore as a function of what each of its reads sees. A crash is a commit
that stops advancing. `SnapshotRoundTrip` proves commit and restore inverse, `SnapshotRuns` proves crash
consistency and isolation for any number of commits that advance in any interleaving while restores
read, and `SnapshotStore` proves that the loops, which change a disk and a guest directory in place, do
what the functions say. SHA-256, the JSON text of manifests and the sort are uninterpreted;
`CorruptionIsDetected` does not assume that digests never collide, it exhibits the collision. A `Listing`
is what a traversal reads, so a source tree that changes during a commit, or a read that throws, is a
listing too. `SnapshotChecks` states what paths, ids and manifests are accepted by their characters and
entries alone, and `ClawsemblyPaths`, `ConfigChecks` and `RedactionParts` do so for the image parser,
the configuration checker and the redaction.

**The provider broker.** Each request is a program counter that moves one step at a time over a permit, a
64-bit counter that wraps around, and a revocation flag. The clock is read before the flag, as in the
code. A method on the shared fields is proved to take the same steps. `BrokerRequests` says which requests
are forwarded, and why others are not, without the broker's own checks.

**The HTTP mailbox** between the guest's loopback server and the host. Guest calls write, rename and poll;
the host lists, reads, checks, fetches, writes and removes; every file can be caught half written.
`MailboxRuns` says what every run keeps, `MailboxGarbled` when a call ends with an unparsable response,
`MailboxRequests` what is forwarded, of any file, and what the caller is told.

**Codecs and transformations**: base64, strict UTF-8, the ClawsemblyFS image parser, JSON text and
the key of a `wizard.next` request (`JsonText`, `WizardKey`), recursive redaction, the configuration
merge and its checker, and the boot resolution on top of the snapshot store.

## What turned out not to hold without a condition

Each with its exact condition and an input at which it happens.

- Readiness of a lost owner is replayed to the next one exactly when a port connects after the last port
  left with a readiness kept, because the choice of an owner returns before it clears the board when no
  port is left (`WizardSession.ReadinessExactly`, `SessionCases.StaleReadinessReached`).
- A remembered snapshot lacks the remembered session id exactly when the result's session id is present
  but not a string (`WizardSession.CoherentExactlyUnlessOdd`, `SessionCases.OddSessionReached`).
- Starts are no longer coalesced exactly when a capability operation that names the method
  `wizard.start` goes to the owner (`WizardSession.StartExactly`, `SessionCases.MislabelledStartReached`).
- A commit may succeed and its restore still throw: exactly when a directory's path, mounted at the root,
  is longer than 4096 units, because only the restore checks mounted paths
  (`SnapshotRoundTrip.RestoreCommitted`, `SnapshotRoundTrip.CommittedButNotRestored`).
- A guest call may end with neither its reply nor a timeout: exactly when it polls while the host is
  writing its response, which is not written under a temporary name as a request is
  (`MailboxGarbled.GarbledExactlyWhen`, `MailboxGarbled.GarbledReached`).
- A secret may be left after its own pass: exactly when it is part of the replacement, contains it or
  overlaps one of its ends, with no earlier match in the way (`Redaction.SurvivableExactly`); for a
  secret without brackets, exactly over strings that contain it and only if it is part of the word
  REDACTED (`Redaction.SurvivesExactlyWhen`).

## Model

| member | source | states |
|---|---|---|
| `Coordination.Send` | src/openclaw-shared-worker.ts:99-105 | Whatever posts fail, afterwards the owner is the port connected longest (none if no port is left), and either the tenure is the same and only requests of ports that left are gone, or the owner was lost and the book is empty |
| `Coordination.Disconnect` | src/openclaw-shared-worker.ts:128-144 | The recursion through failing posts ends; the port is gone, the election holds, and the book is empty if the owner changed, also when a nested call has already replaced or emptied the owner |
| `Coordination.ChooseOwner` | src/openclaw-shared-worker.ts:111-126 | Restores the election from any set of ports, keeps nothing of the old owner for replay if a port is left, and keeps the board if none is (the early return) |
| `Coordination.Broadcast` | src/openclaw-shared-worker.ts:107-109 | A post to a copy of the port set, of which any number may leave on the way, keeps the election |
| `Coordination.Greeted` | src/openclaw-shared-worker.ts:122-125 | The notices go to the owner of the moment, who may be another port or none after the broadcast |
| `Coordination.Run` | src/openclaw-shared-worker.ts:251-348 | The owner is the port connected longest, and exists exactly when a port does, at every state of every run and under every pattern of failing posts |
| `Coordination.ConnectEvolves` | src/openclaw-shared-worker.ts:337-347 | After a port has joined, the replayed posts change what a single post may change and no more, whichever of them fail |
| `Deduplication.RememberKeepsCache` | src/openclaw-shared-worker.ts:85-97 | One more remembered reply makes the cache hold the last 32 replies in order, without duplicates, and nothing else |
| `Deduplication.CachedExactlyWhenRecent` | src/openclaw-shared-worker.ts:85-97 | A key is cached exactly when one of the last 32 successful replies since the clear was under it |
| `Deduplication.StepKeepsBook` | src/openclaw-shared-worker.ts:43-48 | Every event keeps the five collections in agreement: in-flight keys are one to one the keys of awaited requests, waiters wait only under those, cached keys are none of those, and the cache is the last 32 replies |
| `Deduplication.RunKeepsBook` | src/openclaw-shared-worker.ts:278-336 | The same at every state of every run with fresh request ids, under every pattern of failing posts |
| `Deduplication.ForwardedExactlyWhenUnknown` | src/openclaw-shared-worker.ts:279-293 | A keyed request goes to the owner exactly when its key is not outstanding and every successful reply under it since the last clear was evicted by 32 later ones |
| `JsonText.UnescapeEscape` | src/openclaw-shared-worker.ts:82 | JSON string quoting can be undone on every sequence of UTF-16 units, lone surrogates included |
| `JsonText.QuoteInjective` | src/openclaw-shared-worker.ts:82 | Two quoted strings, each followed by anything, are equal only if the strings and what follows are |
| `JsonText.TextsInjective` | src/openclaw-shared-worker.ts:74-82 | Two JSON values have the same text exactly when they are the same value, entries in order and numbers by their numeral |
| `WizardKey.AnswerTextInjective` | src/openclaw-shared-worker.ts:74-78 | Two answers have the same text exactly when both are absent, both have no JSON text, or both are the same JSON value |
| `WizardKey.KeyInjective` | src/openclaw-shared-worker.ts:50-83 | Two wizard.next requests have the same key exactly when they have the same session id, step id and answer |
| `WizardSession.StepKeepsStart` | src/openclaw-shared-worker.ts:294-327 | Every event, whichever posts fail, keeps starts coalesced: at most one wizard.start is outstanding, the flag says whether one is, and only then does anyone wait for one; the one exception is a capability operation that names the method wizard.start |
| `WizardSession.StartExactly` | src/openclaw-shared-worker.ts:294-334 | When posts go through that exception is exact: only RPC requests are held back while a start is outstanding, but every operation's method is booked |
| `WizardSession.RunKeepsStart` | src/openclaw-shared-worker.ts:225-233 | The same at every state of every run without that operation |
| `WizardSession.CoherentExactlyUnlessOdd` | src/openclaw-shared-worker.ts:163-178 | A remembered object snapshot carries the remembered session id, except exactly when a session is known and the result's session id is present but no string |
| `WizardSession.RememberedResult` | src/openclaw-shared-worker.ts:163-178 | A string session id of a result is the session from then on, an object without one gets the session's and keeps everything else, anything else is kept as it is, and the deduplication is cleared exactly when a known session is replaced by another |
| `WizardSession.StepKeepsCoherent` | src/openclaw-shared-worker.ts:180-249 | Every event keeps the snapshot and the session together, unless the owner sends such an odd result |
| `WizardSession.RunKeepsCoherent` | src/openclaw-shared-worker.ts:163-178 | The same along every run |
| `WizardSession.StepKeepsCurrent` | src/openclaw-shared-worker.ts:343-347 | Readiness kept for replay is that of the present owner after every event but one: a port connects when the last port left with a readiness kept |
| `WizardSession.ReadinessExactly` | src/openclaw-shared-worker.ts:111-113 | When posts go through the exception is exact: in that one case the stale readiness is replayed, because the choice of an owner returns before it clears it |
| `WizardSession.RunKeepsCurrent` | src/openclaw-shared-worker.ts:343-347 | Along every run without that case, replayed readiness always came from the present owner |
| `CoordinationPosts.StepPosts` | src/openclaw-shared-worker.ts:251-348 | When posts go through, every event posts exactly the stated deliveries to exactly the stated ports in the stated order |
| `CoordinationPosts.OwnerLossPosts` | src/openclaw-shared-worker.ts:111-126 | When the owner leaves: the restoring status to everybody who stays, then the notices to the first of them, and the start notice only if the runtime was requested |
| `CoordinationPosts.ConnectPosts` | src/openclaw-shared-worker.ts:337-347 | A port that connects gets its notice, the status, the result if there is one, and the readiness if there is one, rewritten for followers |
| `CoordinationPosts.AnnouncePosts` | src/openclaw-shared-worker.ts:237-242 | Readiness goes out as it is to the owner and rewritten to the others |
| `CoordinationPosts.ReplayedLater` | src/openclaw-shared-worker.ts:237-248 | What the owner last said as status, result or readiness is what the next port to connect is told |
| `RequestLedger.SettleReliably` | src/openclaw-shared-worker.ts:193-234 | A reply goes to its requester under its own id and then to each waiter under the waiter's id; a session change or cancel clears the waiters for next before they are read |
| `RequestLedger.BroadcastReliably` | src/openclaw-shared-worker.ts:107-109 | When posts go through, a broadcast posts once to every port in order and changes nothing else |
| `RequestLedger.StepKeepsSound` | src/openclaw-shared-worker.ts:278-336 | Every lawful event keeps the ledger sound: each accepted operation is really where the ledger says and nowhere else, and whoever is recorded for it is its requester |
| `RequestLedger.RunKeepsOrder` | src/openclaw-shared-worker.ts:180-249 | The ledger stays sound over every run in which ids are fresh and the owner answers only what it was given |
| `RequestLedger.EveryOperationInOnePlace` | src/openclaw-shared-worker.ts:278-336 | At every state of every such run an accepted operation is in exactly one place: with the owner, behind an in-flight next, behind a start, answered once at its requester, or discarded and nowhere |
| `RequestLedger.DiscardedExactlyWhen` | src/openclaw-shared-worker.ts:128-144 | An operation that is found in the worker and not answered is found nowhere after the next event exactly on owner loss, on its requester's disconnect while it is with the owner, or, waiting for a next, on a reply that clears the deduplication |
| `RequestLedger.AnswersStay` | src/openclaw-shared-worker.ts:193-234 | An operation answered once stays answered by that post and is found nowhere else |
| `Outstanding.RunKeepsHeld` | src/openclaw-shared-worker.ts:294-334 | At every state of every lawful run the maps of methods and keys say what the messages that the owner holds unanswered say |
| `Outstanding.HeldWasPosted` | src/openclaw-shared-worker.ts:331-334 | What the owner newly holds was posted to it by that event, unchanged |
| `Outstanding.OwnerHoldsOneNextPerKey` | src/openclaw-shared-worker.ts:279-293 | At every state of every lawful run the owner holds at most one wizard.next per key on the book, and the keys in flight are exactly those it holds |
| `Outstanding.OwnerHoldsOneStart` | src/openclaw-shared-worker.ts:294-327 | Without mislabelled operations the owner holds at most one wizard.start, and holds one exactly while the flag is set |
| `SessionCases.StaleReadinessReached` | src/openclaw-shared-worker.ts:111-113 | A run of four events from the start replays the readiness of an owner that left |
| `SessionCases.OddSessionReached` | src/openclaw-shared-worker.ts:163-178 | A run of five events from the start leaves a snapshot without the remembered session id |
| `SessionCases.MislabelledStartReached` | src/openclaw-shared-worker.ts:294-334 | A run of two events from the start has a start outstanding while the flag is not set |
| `WizardReplies.CancelForgets` | src/openclaw-shared-worker.ts:206-210 | After the reply to a cancel, whichever posts fail, neither a snapshot nor a session is remembered |
| `WizardReplies.SuccessIsRemembered` | src/openclaw-shared-worker.ts:197-205 | A successful reply to a start, a next or a status is what is remembered, field by field, unless its posts lose the owner |
| `WizardReplies.OtherRepliesLeaveIt` | src/openclaw-shared-worker.ts:197-210 | A failed reply, or one to any other method but cancel, changes neither |
| `WizardReplies.StartRouted` | src/openclaw-shared-worker.ts:294-334 | A start is answered at once with the remembered snapshot under its own id, waits if one is in flight, or goes to the owner |
| `WizardReplies.StartAfterCancel` | src/openclaw-shared-worker.ts:206-210 | After a cancel the next start goes to the owner if none is in flight |
| `WizardReplies.RunKeepsSuccesses` | src/openclaw-shared-worker.ts:212-217 | At every state of every run, whichever posts fail, nothing but successful replies is kept for repetitions |
| `WizardReplies.SuccessIsKept` | src/openclaw-shared-worker.ts:212-224 | A successful reply to a keyed next is added to what is kept, behind nothing else if it changed the session; a failed one is not; its key is free either way |
| `WizardReplies.NextRouted` | src/openclaw-shared-worker.ts:279-293 | A keyed next is answered from the cache under its own id, waits for the one in flight, or goes to the owner |
| `WizardReplies.OthersRouted` | src/openclaw-shared-worker.ts:146-150 | Capability operations, other requests, and requests without an id or a usable key go to the owner, and no other message has an effect |
| `WizardReplies.OutputRouted` | src/openclaw-shared-worker.ts:180-249 | A reply goes to its requester first; without a requester it goes to nobody while its method is known and is no start or next, and to everybody otherwise, as other output does |
| `WizardReplies.ReadinessTold` | src/openclaw-shared-worker.ts:152-161 | The owner is told its readiness as it is; the others get a copy whose boot mode is shared, with the owner's beside it and nothing else changed |
| `WizardReplies.LossIsReplayed` | src/openclaw-shared-worker.ts:111-121 | A port that connects after the loss of an owner is told to wait, and nothing of the owner that left |
| `WizardReplies.RequestedExactlyWhen` | src/openclaw-shared-worker.ts:268-277 | Whichever posts fail, a later owner is to start the runtime exactly if somebody has asked for it |
| `Coordinator.SharedWorker.Send` | src/openclaw-shared-worker.ts:99-105 | Updating the variables in place does what the function says, for every pattern of failing posts |
| `Coordinator.SharedWorker.Broadcast` | src/openclaw-shared-worker.ts:107-109 | The loop over a copy of the ports does what the function says |
| `Coordinator.SharedWorker.ChooseOwner` | src/openclaw-shared-worker.ts:111-126 | The same for the choice of an owner |
| `Coordinator.SharedWorker.Disconnect` | src/openclaw-shared-worker.ts:128-144 | The same for a disconnect, including its loop over the request owners |
| `Coordinator.SharedWorker.RememberWizardNextResponse` | src/openclaw-shared-worker.ts:85-97 | The loop that evicts the oldest entries leaves the function's cache |
| `Coordinator.SharedWorker.RememberWizardResult` | src/openclaw-shared-worker.ts:163-178 | The same for a remembered result |
| `Coordinator.SharedWorker.RouteOwnerOutput` | src/openclaw-shared-worker.ts:180-249 | The same for the owner's output, with both loops over waiters |
| `Coordinator.SharedWorker.Receive` | src/openclaw-shared-worker.ts:257-336 | The same for the message handler of a port |
| `Coordinator.SharedWorker.Connect` | src/openclaw-shared-worker.ts:251-348 | The same for a port that connects |
| `SnapshotPaths.SplitJoin` | src/opfs-directory-store.ts:142-145 | Splitting a joined path at the slashes gives its segments back |
| `SnapshotPaths.JoinInjective` | src/opfs-directory-store.ts:131-133 | Different lists of valid segments have different paths |
| `SnapshotPaths.JoinChild` | src/opfs-directory-store.ts:131-133 | The path of a child is the parent's with the name behind a slash, and its parent is found again by its last slash |
| `SnapshotPaths.MountedJoin` | src/opfs-directory-store.ts:135-140 | Mounting a relative path at a root appends its segments to the root's |
| `SnapshotPaths.JoinValid` | src/opfs-directory-store.ts:108-122 | A path of valid segments is accepted exactly when it has at most 4096 units |
| `Snapshots.ValidateDirectories` | src/opfs-directory-store.ts:306-313 | The loop over the directories accepts exactly distinct valid paths |
| `Snapshots.ValidateFiles` | src/opfs-directory-store.ts:314-337 | The loop over the files accepts exactly entries that are valid, distinct, under a listed directory and within the byte limit, and adds up their sizes |
| `Snapshots.ValidateManifest` | src/opfs-directory-store.ts:280-341 | The validation accepts exactly the manifests that the predicate describes |
| `SnapshotTrees.VisitDoes` | src/opfs-directory-store.ts:364-415 | A traversal that does not throw has recorded every directory and file once, in order, with its size and digest, and written each below the generation |
| `SnapshotTrees.VisitCompletesExactly` | src/opfs-directory-store.ts:364-415 | A traversal does not throw exactly when every name is a valid segment and each file and each directory, when it is reached, finds the counts and bytes before it within the limits |
| `SnapshotTrees.FilesStored` | src/opfs-directory-store.ts:177-194 | After the traversal's operations every file of the tree is in the store with its bytes |
| `SnapshotTrees.FilesDistinct` | src/opfs-directory-store.ts:314-326 | No two files of a well-formed tree have the same path |
| `SnapshotRoundTrip.CommitCompletesExactly` | src/opfs-directory-store.ts:343-443 | A commit does not throw exactly when root, store id and names are valid, the joined paths have at most 4096 units, and the tree is within the limits as the traversal counts it; its own manifest then passes the validation |
| `SnapshotRoundTrip.CommitStores` | src/opfs-directory-store.ts:343-443 | A completed commit, on any store, leaves its generation complete and HEAD naming it |
| `SnapshotRoundTrip.CreatesDirectory` | src/opfs-directory-store.ts:256-278 | Creating a directory makes every directory on the way that is missing, takes existing ones as they are, and fails exactly when the path is too long |
| `SnapshotRoundTrip.RestoreCommitted` | src/opfs-directory-store.ts:458-534 | Restoring a committed tree into a clear subtree at its root completes exactly when the mounted directory paths are not too long, and then rebuilds the same directories, files and bytes and nothing else |
| `SnapshotRoundTrip.RoundTrip` | src/opfs-directory-store.ts:343-534 | Commit then restore: for every committable tree the restore rebuilds it, or throws exactly when a mounted directory path exceeds 4096 units |
| `SnapshotRoundTrip.CommittedButNotRestored` | src/opfs-directory-store.ts:256-278 | Such a tree exists: its commit completes on every store, and its restore into any clear subtree throws |
| `SnapshotRoundTrip.WritesMatchTheManifest` | src/opfs-directory-store.ts:509-531 | On any store, and while others write to it, everything a restore writes matches its manifest entry, also when it throws later; if it completes it has written them all |
| `SnapshotRoundTrip.RestoreChecks` | src/opfs-directory-store.ts:463-534 | A restore touches the guest only if the head is well formed, the manifest has the digest the head names and is valid for the root and store asked for; it completes only with every file written and the byte counts equal |
| `SnapshotRoundTrip.CorruptionIsDetected` | src/opfs-directory-store.ts:479-525 | Whatever in the store was changed except HEAD, a restore that completes has written every committed file with the committed bytes, or it read a manifest or a file whose bytes are different from the committed ones and have the same digest |
| `SnapshotChecks.PathExactly` | src/opfs-directory-store.ts:108-122 | A path is valid exactly if it has at most 4096 units, starts with a slash, ends with none but the root's, has no 0 and no backslash, and no slash is followed by one or two dots and a slash or the end |
| `SnapshotChecks.ManifestExactly` | src/opfs-directory-store.ts:280-341 | A manifest is valid exactly if it is the one asked for, with distinct such directories, the root first, and at most 20,000 distinct files, each in a listed directory with a size and a digest, of 512 MiB together and as many as it states |
| `SnapshotChecks.RestoreAccepts` | src/opfs-directory-store.ts:458-531 | A restore that completes or changes anything was asked for a valid root and store id, has read a well-formed head and such a manifest, and has written its files in order, each with the stated size and digest, and all if it completes |
| `SnapshotChecks.RestoreStaysBelow` | src/opfs-directory-store.ts:526-529 | No written path leaves the root: each is behind the root and a slash, without a segment of one or two dots |
| `SnapshotRuns.PlanOwn` | src/opfs-directory-store.ts:351-443 | Only the last two operations of a commit, and only of one that does not throw, touch anything but its own generation: they are on HEAD |
| `SnapshotRuns.StepKeepsConsistent` | src/opfs-directory-store.ts:351-443 | Whatever commits run side by side, each generation holds what its own commit wrote so far, and HEAD is absent, empty, or names the generation published last |
| `SnapshotRuns.RunConsistent` | src/opfs-directory-store.ts:433-443 | The same at every state of every run of commits that begin, advance and stop anywhere |
| `SnapshotRuns.GenerationFrozen` | src/opfs-directory-store.ts:433-443 | Once HEAD has named a generation, no file below it ever changes again |
| `SnapshotRuns.RestoreIsolated` | src/opfs-directory-store.ts:458-534 | A restore that reads while commits run gives the whole tree of the one generation HEAD named at its first read, or fails because nothing was committed or another root or store was asked for; never a mixture |
| `SnapshotRuns.CrashConsistent` | src/opfs-directory-store.ts:442-443 | A commit stopped after any number of its operations leaves a store from which a restore gives exactly what it gave before, or, only after the last operation, exactly the new tree |
| `SnapshotStore.Commit.VisitAll` | src/opfs-directory-store.ts:364-415 | The recursive loop that pushes directories and files and adds up bytes in place does what the function says, also when it throws |
| `SnapshotStore.CommitTree` | src/opfs-directory-store.ts:343-443 | The commit does exactly the operations of the plan, in order, and returns its manifest |
| `SnapshotStore.GuestDirectory.CreateWasmerDirectory` | src/opfs-directory-store.ts:256-278 | The loop over the segments does what the function says |
| `SnapshotStore.GuestDirectory.WriteFiles` | src/opfs-directory-store.ts:509-531 | The loop over the manifest's files writes what the function says and counts its bytes |
| `SnapshotStore.RestoreTree` | src/opfs-directory-store.ts:458-534 | The restore changes the guest in place as the function says |
| `Broker.BrokerSafe` | provider-broker/src/main.rs:258-339 | In every interleaving: at most one request is between taking the permit and the end of its stream; forwards are of different, authorized, valid requests whose denial check preceded revocation and expiry; below 2^64 admissions they have distinct numbers up to the budget, so there are no more of them |
| `Broker.RunSafe` | provider-broker/src/main.rs:258-349 | The invariants behind it hold at every state of every run: the permit is free exactly when nobody holds it, the counter is the admissions modulo 2^64, and the numbers of forwards increase |
| `Broker.StepKeepsPermit` | provider-broker/src/main.rs:270-276 | A step takes the permit only when it is free and gives it back only when it holds it |
| `Broker.StepKeepsNumbers` | provider-broker/src/main.rs:273-276 | Because of the permit nobody is numbered while a number waits, so forwards get increasing numbers |
| `Broker.StepKeepsChecked` | provider-broker/src/main.rs:341-355 | Every request past the denial check read a clock before expiry and was checked before the revocation |
| `Broker.ForwardedExactlyWhen` | provider-broker/src/main.rs:258-294 | Alone, a request is forwarded exactly when it is authorized, not revoked, not expired, finds the permit, is in the budget, has JSON content and a valid body; else it is answered with the first reason against it and the permit is as before; the budget is used whenever the permit was taken |
| `BrokerRequests.ForwardedIsGranted` | provider-broker/src/main.rs:413-449 | In every interleaving each forwarded request bears the broker's token and has JSON content and a body that is an object with the granted model, stream true, a temperature of zero and a non-empty list of messages |
| `BrokerRequests.FirstReason` | provider-broker/src/main.rs:431-449 | A request that is admitted within the budget is forwarded exactly when its body is all that, and is otherwise told the first thing wrong with it, in order |
| `BrokerRequests.EarlierReasons` | provider-broker/src/main.rs:258-281 | Before the body: the token, revocation, expiry, the permit, the budget and the content, in order |
| `BrokerRequests.RevokedExactlyWhen` | provider-broker/src/main.rs:351-375 | At every state of every run the capability is revoked exactly if somebody has asked with the admin's token |
| `BrokerRequests.RunKeepsStreams` | provider-broker/src/main.rs:395-406 | No stream of any run has passed on more than 2 MiB |
| `BrokerRequests.StreamEndsExactly` | provider-broker/src/main.rs:389-410 | A stream goes on after its chunks exactly if they are within 2 MiB together, and is cut otherwise |
| `BrokerRequests.ForwardEnds` | provider-broker/src/main.rs:283-339 | How a forward and a stream end for each answer of the environment, with the permit free afterwards |
| `Broker.BrokerState.ChatCompletions` | provider-broker/src/main.rs:258-294 | The handler on the shared fields takes exactly the steps of the program counter |
| `Broker.BrokerState.RevokeCapability` | provider-broker/src/main.rs:351-375 | Revokes exactly with the admin token, says whether it was revoked before, and nothing un-revokes |
| `Broker.GuardedStream` | provider-broker/src/main.rs:389-410 | The stream sends chunks in order and unaltered within 2 MiB, ends well exactly when it sent all, and fails exactly at an upstream error or a chunk that would exceed the limit |
| `Broker.SentIsLongest` | provider-broker/src/main.rs:389-410 | No longer prefix of the chunks is within the limit |
| `Base64.DecodesExactly` | src/byok-http-bridge.ts:56-65 | A text decodes to some bytes exactly when it is their encoding |
| `Base64.EncodeInChunks` | src/byok-http-bridge.ts:56-65 | The loop in chunks of 0x8000 gives the encoding of the whole, which decodes to the same bytes |
| `Base64.EncodesGroups` | src/byok-http-bridge.ts:56-65 | Each four symbols of an encoding are the digits in base 64, by the alphabet of RFC 4648, of the 24 bits of their three bytes, padded where bytes are missing |
| `Mailbox.BodyFidelity` | src/byok-http-bridge.ts:203-216 | For every upstream body within the limit the guest's caller gets the identical bytes |
| `Mailbox.FixedLengthEqual` | src/byok-http-bridge.ts:67-74 | The XOR and OR loop decides string equality |
| `Mailbox.FineIsGranted` | src/byok-http-bridge.ts:76-105 | Of any file content whatever, only a request whose path, model, payload, size and authorization the capability grants, under the file's own id, is forwarded |
| `Mailbox.FineExactly` | src/byok-http-bridge.ts:166-177 | A record the guest wrote is forwarded, unchanged, exactly when the capability grants it |
| `MailboxRequests.ForwardedExactly` | src/byok-http-bridge.ts:76-105 | Of any file, exactly a record of version 1 by POST for the granted path, with a plain id that is the file's, the capability's key, and at most 2 MiB of body that parses to an object with the granted model and a list of input or messages, is forwarded, and as it is |
| `MailboxRequests.FirstRefusal` | src/byok-http-bridge.ts:76-105 | Everything else is refused for the first of the reasons, in order |
| `MailboxRequests.RunKeepsGranted` | src/byok-http-bridge.ts:165-198 | In every run, also when directory operations fail, nothing else is fetched for |
| `MailboxRequests.RunCountsForwarded` | src/byok-http-bridge.ts:190-217 | In every run the count of forwarded requests is that of the fetches that brought at most 2 MiB |
| `MailboxRequests.AskedExactly` | src/byok-loopback-broker.ts:18-27 | The guest passes on exactly what is asked under one of two paths with at most 2 MiB |
| `MailboxRequests.AnswerTold` | src/byok-http-bridge.ts:178-224 | A refused caller is told 401 without the key and 400 otherwise, a forwarded one the upstream's status, content type and bytes, or 502 if it was not reached or sent too much |
| `Mailbox.IdInjective` | src/byok-loopback-broker.ts:28 | Ids of different sequence numbers differ, whatever the clock says |
| `MailboxRuns.MailboxCorrect` | src/byok-http-bridge.ts:154-227 | If directory operations succeed, in every interleaving: request files the host can read are whole records; there is at most one fetch per call, with the call's own granted record; and a call delivers the refusal of its own record or the reply to its one fetch |
| `MailboxGarbled.PollGarblesExactly` | src/byok-loopback-broker.ts:43-47 | A poll finds a response it cannot parse exactly when the host is in the middle of writing that response |
| `MailboxGarbled.GarbledExactlyWhen` | src/byok-loopback-broker.ts:43-51 | In every run without failing directory operations a call ends with an unparsable response exactly when it polled while the host wrote its response |
| `MailboxGarbled.CallOutcome` | src/byok-loopback-broker.ts:28-51 | So every call is under way, timed out, delivered the answer to its own record, or polled while the host wrote its response, and the last exactly in its own case |
| `MailboxGarbled.GarbledReached` | src/byok-http-bridge.ts:123-132 | Such a run exists on every platform and capability: nine events from the empty mailbox, none of which fails |
| `MailboxRuns.RunCounts` | src/byok-http-bridge.ts:165-224 | At every state, also when directory operations fail, requestsSeen is failed plus forwarded plus the one request in progress |
| `MailboxRuns.StepKeepsCorrect` | src/byok-loopback-broker.ts:28-51 | Every step of guest or host keeps that |
| `MailboxRuns.ExchangeFetches` | src/byok-http-bridge.ts:190-217 | What is fetched for is the whole record of a call for which nothing was fetched before |
| `MailboxRuns.RenameMoves` | src/byok-loopback-broker.ts:33-36 | A record appears under its request name whole and for the first time |
| `MailboxRuns.PollDelivers` | src/byok-loopback-broker.ts:43-47 | What a poll delivers is the answer to the polling call |
| `MailboxRuns.WriteKeepsResponses` | src/byok-http-bridge.ts:123-132 | A response the host is still writing cannot be parsed; afterwards it is the whole answer |
| `MailboxHost.RoundCounts` | src/byok-http-bridge.ts:231-239 | After every round of the poll loop the counters add up, whatever failed in it |
| `MailboxHost.Bridge.ProcessRequest` | src/byok-http-bridge.ts:154-227 | Processing a request in place takes exactly the host's steps, one after the other |
| `MailboxHost.Bridge.PollOnce` | src/byok-http-bridge.ts:231-239 | The loop over a listing does the steps of the round, keeps the counters, and ends at the first error or when it finds the bridge stopped |
| `Utf8.DecodesExactly` | src/clawsemblyfs.ts:93 | Bytes decode to a string exactly when they are its encoding: no overlong form, no surrogate |
| `Utf8.EncodesByTable` | src/clawsemblyfs.ts:93 | The bytes of every scalar value are those of the table in section 3 of RFC 3629 |
| `ClawsemblyFs.BoundsExact` | src/clawsemblyfs.ts:16-31 | The bounds test is exact although the sum of offset and length is rounded to binary64 |
| `ClawsemblyFs.ReadEntryExactly` | src/clawsemblyfs.ts:78-108 | What one round of the loop accepts, without rounding |
| `ClawsemblyFs.ParseClawsemblyFs` | src/clawsemblyfs.ts:53-120 | The loops over magic, offset, files and byte count give the function's result |
| `ClawsemblyFs.ParsesImage` | src/clawsemblyfs.ts:75-119 | Parsing the image of any list of valid, distinct entries gives their files in order and the sum of their sizes |
| `ClawsemblyFs.AcceptedIsImage` | src/clawsemblyfs.ts:75-113 | Every accepted image is tiled exactly by preamble, headers, paths and contents, and re-encodes to itself from its entries, with their mode words and byte order marks |
| `ClawsemblyFs.ParsesExactlyImages` | src/clawsemblyfs.ts:53-120 | The parser accepts exactly the images of valid entries and gives back their files |
| `ClawsemblyPaths.ValidExactly` | src/clawsemblyfs.ts:33-51 | A path is valid exactly if it starts with a slash, has no 0 and no backslash, and no slash is followed by none, one or two dots and then a slash or the end |
| `ClawsemblyPaths.ParsedIsHarmless` | src/clawsemblyfs.ts:93-95 | No parsed file has another path |
| `ClawsemblyPaths.HarmlessIsParsed` | src/clawsemblyfs.ts:53-120 | Every such path of up to 16384 bytes is parsed, with any content |
| `ClawsemblyPaths.FailsExactly` | src/clawsemblyfs.ts:53-120 | A rejected image has the first thing wrong in its preamble, or in the entry behind some that were read, or bytes left; and each of these is rejected for that reason |
| `Redaction.SurvivesExactlyWhen` | src/openclaw-gateway-health-probe.ts:415-421 | A bracket-free secret is left after its own pass exactly when it was there and is part of the word REDACTED |
| `Redaction.NothingNew` | src/openclaw-gateway-health-probe.ts:417-421 | A pass makes no other such secret occur, so later passes never recreate an earlier secret |
| `Redaction.Redacts` | src/openclaw-gateway-health-probe.ts:415-436 | No such secret is left in any string of any JSON value, and arrays, objects, keys and other values are as they were |
| `Redaction.SurvivableExactly` | src/openclaw-gateway-health-probe.ts:417-421 | For any secret with or without brackets: it can be left after its own pass over some string exactly when it is part of the replacement, begins with an end of it, or, from some place on, begins it or begins with it, with no match of the secret earlier in what precedes that place and the secret itself |
| `RedactionParts.ReplacesExactly` | src/openclaw-gateway-health-probe.ts:417-421 | A pass cuts a text at the occurrences of the secret, leftmost first, keeps the parts and puts the replacement between them, and an empty secret has it before every unit and at the end |
| `RedactionParts.ValueRedacted` | src/openclaw-gateway-health-probe.ts:415-436 | Every string of a JSON value is what the passes of all secrets, in turn, make of it, and everything else is as it was |
| `Redaction.BracketsMatter` | src/openclaw-gateway-health-probe.ts:417-421 | Both happen with brackets: ]x can be left, a]b cannot |
| `Redaction.OthersKept` | src/openclaw-gateway-health-probe.ts:417-421 | A string without any of the secrets is left as it is by all passes |
| `ConfigMerge.PatchSetsTwoPlaces` | src/openclaw-wizard-rpc-bridge.ts:82-89 | For any current configuration whatever, the merge with the generated patch sets the primary model and one provider and is otherwise a copy |
| `ConfigMerge.CheckerAcceptsExactly` | src/openclaw-capability-config.ts:76-101 | The checker accepts the merged configuration with the capability's key and with no other, whatever the configuration was |
| `ConfigChecks.AcceptsExactly` | src/openclaw-capability-config.ts:76-101 | Any configuration is accepted exactly if five places hold what the capability says: the primary model, the provider's api, key and url, and a list of models with one of the id |
| `ConfigChecks.OtherPrimaryRejected` | src/openclaw-capability-config.ts:95 | A configuration whose primary model is set to anything else is rejected |
| `ConfigChecks.SpreadExactly` | src/openclaw-wizard-rpc-bridge.ts:82-89 | What the merge copies of a node: an object's entries, an array's elements or a string's units in order under their indices, and of anything else nothing |
| `ConfigChecks.PatchWritesModel` | src/openclaw-capability-config.ts:30-62 | Whatever the configuration was, the merge leaves the provider with the capability's model alone, with its name, inputs, zero costs and limits |
| `ConfigMerge.PatchChangesNothingElse` | src/openclaw-wizard-rpc-bridge.ts:82-89 | Where the touched nodes are objects, null or absent, every place apart from those two is as it was |
| `ConfigMerge.PatchIdempotent` | src/openclaw-wizard-rpc-bridge.ts:82-89 | Applying the patch twice is applying it once |
| `Boot.BootStoreIds` | src/openclaw-boot-cache.ts:7-20 | The store id is one the store accepts, and is the same exactly when artifact and image agree in their first twelve digits |
| `Boot.BootsExactly` | src/openclaw-gateway-health-probe.ts:945-997 | While commits run and crash, and may publish between the presence check and the restore, the automatic boot is warm exactly if HEAD was there when asked and the generation it names when the restore reads it can be mounted and has the database; then the directory is the image with that whole tree, the workspace and the evidence, else it is what the install lifecycle makes of the image and the evidence is unset |
| `Boot.ColdBootExactly` | src/openclaw-gateway-health-probe.ts:951-963 | The cold boot makes the state root and the workspace on the image and runs the install lifecycle on the result, whose outcome is the boot's; it fails if there is no room for them |
| `Boot.BootsExplicitlyExactly` | src/openclaw-gateway-health-probe.ts:945-949 | With an explicit store, while commits run, the boot succeeds exactly if the generation HEAD names can be mounted and the inspection in the guest accepts the image with that whole tree and the workspace |
| `Boot.PresentExactly` | src/opfs-directory-store.ts:72-86 | On every run a snapshot is present exactly if the store has a HEAD, and has one once a generation was published |
| `Boot.Gateway.BootAutomatically` | src/openclaw-gateway-health-probe.ts:951-997 | The boot block reassigns directory, evidence and mode as the function says; a cold boot has a fresh directory, that of a boot that never tried to restore, and no evidence, at whatever step a restore failed |
| `Boot.Gateway.BootExplicitly` | src/openclaw-gateway-health-probe.ts:945-949 | With an explicit store there is no fallback, and the evidence is set exactly if the tree was restored |
| `Boot.Gateway.RestoreBootState` | src/openclaw-gateway-health-probe.ts:888-941 | The evidence is set as soon as the tree is restored, before the checks that may still fail |

## Left out

- Coordination.Receive: a message event whose data is null or undefined throws in the handler; every message here is an object.
- WizardSession.StepKeepsStart: assumes that request ids are fresh, which the source leaves to its clients.
- WizardKey.KeyInjective: an answer is what JSON.stringify makes of it, so that values with one JSON text, such as NaN and null, are one value here.
- RequestLedger.EveryOperationInOnePlace: operations without a string request id pass through to the owner and are not on the ledger, as the worker itself keeps no record of them.
- SnapshotRoundTrip.RestoreCommitted: for subtree roots without empty inner segments; `/a//b` is accepted by the source, but whether its directory is that of `/a/b` is decided by the guest's directory interface, which is not part of this model.
- SnapshotRuns.RestoreIsolated: what a restore rebuilds is stated for a guest that is clear below the root; on any guest, what it writes is covered by SnapshotRoundTrip.WritesMatchTheManifest.
- Broker.BrokerSafe: interleavings are sequentially consistent, so the acquire and release orderings of the atomics are not modelled; content types and constant-time comparison are their results.
- MailboxRuns.MailboxCorrect: for runs in which no directory operation fails, since after a failing one a request may be read again; UTF-8 between file contents and strings is not modelled, nor that a call's answer arrives before its deadline.
- ConfigMerge.PatchSetsTwoPlaces: the order in which a JavaScript object lists integer-like keys; entries keep insertion order here.
- ClawsemblyFs.ParsesExactlyImages: that contents share the image's buffer; byte strings here are values. Paths are sequences of Unicode scalar values, which is what well-formed strings are.
- Boot.Gateway.RestoreBootState: the inspection of the database in the guest is a parameter and changes nothing.
- The serial operation queue of the owner page, of which the ledger uses only that it answers what it was given.
- The guest's accumulation of request chunks, whose size is a parameter of a call.
- The configuration's hash check and file, and the mailbox loop around the merge; the merge itself is modelled.
- Full JSON parsing and printing: values are a datatype, and only printing in keys is modelled, other texts are uninterpreted.
- The fixed-length session and lifecycle pages, the onboarding UI, SQLite, the relay, nested WebAssembly, real cryptography, fetch, WebSocket and timers.
