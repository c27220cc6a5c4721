# DMZ storage function: verdict-driven blob move, in Dafny

This project models the Azure Function `MoveBlobEventTrigger` of the Defender for
Storage DMZ solution. It receives a Defender for Storage malware-scanning result
from Event Grid, then moves the scanned blob out of the DMZ account. A
"Malicious" blob goes to the quarantine account `quarantinestoragesc`. A
"No threats found" blob goes to the clean account `securestoragesc`. The move
proceeds as follows:

1. Create the destination container if it is absent.
2. Stop if the source blob is gone.
3. Build a read-only user-delegation SAS for the source.
4. Under an infinite lease, start a server-side copy and wait for it.
5. In a `finally` block, release the lease and delete the source.

The model is functional. The storage service is an immutable `Blobs.Store`: a set of
containers and a map from (account, container, blob name) to content plus a lease
flag. Every SDK call takes an injected `Fault` (none, `RequestFailedException`, or
any other exception). The store changes only when a call succeeds. Each operation
returns a `Run`: the new store, the storage calls made in order, and whether it
returned or raised.

Files:

- `outcomes.dfy`: `Option`, `Result`, faults, the .NET exceptions that can escape, and completions.
- `blobs.dfy`: the store and the effects of successful SDK calls.
- `sas.dfy`: the delegation key, the SAS token, and how the service judges a SAS (`Grants`).
- `relocator.dfy`: `MoveBlobAsync` (`Move`), split into the try block (`ProtectedCopy`) and the finally block (`Cleanup`).
- `router.dfy`: `RunAsync` (`Route`), the verdict table, and delivering the same event several times.

The model follows the code, including where its behaviour differs from what the move is meant to achieve:

- The SAS is built before the try block and before the lease is acquired (line 109, then line 113). It is not built after the lease.
- A failed copy does not produce a distinct outcome. A `RequestFailedException` from the copy is swallowed, the source is still deleted, and the function returns normally. A copy that finishes with a failed status is not noticed either, because the code never reads the copy status.
- A missing source is not free of side effects: the destination container has already been created (line 95).
- The token's own window is one day (line 151). The key that signs it is valid for one hour (line 142), so the token is usable for at most an hour. `Sas.TokenUsableForAtMostAnHour`
- "No lease is left behind" holds only when the release call itself succeeds. A failing release propagates from the `finally` block with the lease still held, and the delete is skipped.
- `Relocator.Move` takes a `DeletePolicy`. `AlwaysDelete` is the code as written, and `Router.Route` uses it. `DeleteAfterCopy` is the corrected variant of the findings below. It deletes the source only when `Relocator.Landed` holds: the wait returned, the copy reports success, and the destination is not the source itself.

## Model

| member | source | states |
|---|---|---|
| Sas.UserDelegationKey | DmzStorageFunction-CleanAndMalicious/DmzStorageFunction-CleanAndMalicious.cs:139-142 | the delegation key belongs to the source's account and is valid from the first clock reading until one hour after the second |
| Sas.GenerateUserDelegationSas | DmzStorageFunction-CleanAndMalicious/DmzStorageFunction-CleanAndMalicious.cs:134-166 | the token has resource "b" and only Read; the service lets it read exactly the source blob (same account, container and name) and nothing else, and only while both the token's one-day window and the key's one-hour window are open |
| Sas.TokenUsableForAtMostAnHour | DmzStorageFunction-CleanAndMalicious/DmzStorageFunction-CleanAndMalicious.cs:139-155 | with the clock read in order, the token works from its start time until the key's expiry, so for at most one hour, although its own expiry is a day away |
| Relocator.DestinationOf | DmzStorageFunction-CleanAndMalicious/DmzStorageFunction-CleanAndMalicious.cs:86-87 | the destination keeps the source's container and blob name and changes only the account; it equals the source exactly when the source already lives in the destination account |
| Relocator.ProtectedCopy | DmzStorageFunction-CleanAndMalicious/DmzStorageFunction-CleanAndMalicious.cs:111-118 | the try block makes acquire, start-copy, wait in that order and stops at the first that fails: one call after a failed acquisition (so no copy starts), two after a failed start, three otherwise; it completes exactly when none of them fails, otherwise it raises the first failure; the source keeps its content and is leased after a successful acquire; only a completed copy that reports success writes the destination, with the source's content; no other blob changes |
| Relocator.Cleanup | DmzStorageFunction-CleanAndMalicious/DmzStorageFunction-CleanAndMalicious.cs:119-131 | the catch and finally blocks: release always comes first, and delete follows exactly when release succeeded (and, in the corrected variant, the copy is known to have landed at another blob); a failing release leaves the store and lease as the try block left them and its exception wins; a successful release leaves no lease; the source is gone exactly when release and delete both succeeded, and otherwise keeps its content; a failing delete raises its own exception, replacing any pending one; the block returns normally exactly when its own calls succeed and the pending exception was a RequestFailedException; no other blob changes |
| Relocator.Move | DmzStorageFunction-CleanAndMalicious/DmzStorageFunction-CleanAndMalicious.cs:80-132 | a failing call before the try block is the last call the move makes (one, two or three calls for the container creation, the existence check and the key request); a failing container creation raises its exception and changes nothing; a failing existence check raises its exception after only the container creation; once container creation succeeds the destination container exists; a failing delegation-key request means no lease, copy or delete and no blob change; a missing source changes no blob and makes at most the container-create and existence calls, returns normally once both succeeded, and changes nothing at all once the destination container exists; with no faults the move returns normally, and for a destination other than the source the source is gone and its content is at the destination; a RequestFailedException escapes only from container creation, the existence check, the key request, the release or the delete |
| Relocator.MoveFollowsProtocol | DmzStorageFunction-CleanAndMalicious/DmzStorageFunction-CleanAndMalicious.cs:94-131 | every run's calls are the protocol's calls in its order: a prefix of create, exists, key, acquire, copy, wait, followed by release (and possibly delete) exactly when the lease acquisition was attempted |
| Relocator.TryAndCleanupFollowProtocol | DmzStorageFunction-CleanAndMalicious/DmzStorageFunction-CleanAndMalicious.cs:109-131 | after the token is built, the try block's calls are protocol steps 4 to 6, and release or release-then-delete come next |
| Relocator.CleanupFollowsTry | DmzStorageFunction-CleanAndMalicious/DmzStorageFunction-CleanAndMalicious.cs:111-131 | if the lease acquisition was attempted then release was attempted, even when the acquisition or the copy threw; a delete is always the last call, right after the release; as written, a successful release is always followed by a delete attempt |
| Relocator.TryThenCleanupOrder | DmzStorageFunction-CleanAndMalicious/DmzStorageFunction-CleanAndMalicious.cs:111-131 | the try and finally blocks always make acquire and release, a delete only as the last call after the release, and, as written, a delete whenever the release succeeds |
| Relocator.LeaseReleasedUnlessReleaseFails | DmzStorageFunction-CleanAndMalicious/DmzStorageFunction-CleanAndMalicious.cs:113-127 | with a successful release the source ends without a lease, unless it already had one; a failing release after a successful acquisition leaves the lease held and the source in place, skips the delete and raises the release's exception |
| Relocator.MoveTouchesOnlySourceAndDestination | DmzStorageFunction-CleanAndMalicious/DmzStorageFunction-CleanAndMalicious.cs:86-131 | only the source and destination blobs can change, only the destination container can appear, and every blob stays inside an existing container |
| Relocator.TryThenFinallyTouchesOnlySourceAndDestination | DmzStorageFunction-CleanAndMalicious/DmzStorageFunction-CleanAndMalicious.cs:111-131 | the try and finally blocks change only the source and destination blobs, no container, and keep every blob inside an existing container |
| Relocator.TryExceptionDisposition | DmzStorageFunction-CleanAndMalicious/DmzStorageFunction-CleanAndMalicious.cs:111-131 | once the try block runs and the cleanup calls succeed, the source is deleted; the move returns normally exactly when the try block raised nothing or a RequestFailedException; any other exception is rethrown |
| Relocator.FailedCopyStillDeletesSource | DmzStorageFunction-CleanAndMalicious/DmzStorageFunction-CleanAndMalicious.cs:119-130 | as written, a RequestFailedException from the copy, or a copy that finishes with a failed status, still ends in a normal return after a successful release and delete, with the content neither at the source nor at the destination; the model also admits a failed lease acquisition here (see "## Left out") |
| Relocator.GuardedMoveKeepsContent | DmzStorageFunction-CleanAndMalicious/DmzStorageFunction-CleanAndMalicious.cs:111-130 | in the corrected variant the source's content always survives, at the source or at a destination blob other than the source, whatever fails, whatever status the copy reports and whichever account the source is in |
| Relocator.SameAccountMoveErasesBlob | DmzStorageFunction-CleanAndMalicious/DmzStorageFunction-CleanAndMalicious.cs:82-130 | a blob that already lives in the destination account is copied onto itself; as written it is then deleted, so a move that raises nothing erases it; the corrected variant keeps it with its content |
| Relocator.MoveAgainChangesNothing | DmzStorageFunction-CleanAndMalicious/DmzStorageFunction-CleanAndMalicious.cs:95-101 | after a move that deleted the source (as written: whenever the cleanup calls succeed; corrected: when the copy also landed at another blob), running it again with any faults changes nothing |
| Router.GetString | DmzStorageFunction-CleanAndMalicious/DmzStorageFunction-CleanAndMalicious.cs:39-40 | reading a property succeeds exactly for a string or a JSON null, a string reads as its value and null as no value; a missing property raises KeyNotFoundException and a non-string one InvalidOperationException |
| Router.VerdictTarget | DmzStorageFunction-CleanAndMalicious/DmzStorageFunction-CleanAndMalicious.cs:48-77 | "Malicious" and only it selects the quarantine account; "No threats found" and only it selects the clean account; every other verdict selects nothing |
| Router.Route | DmzStorageFunction-CleanAndMalicious/DmzStorageFunction-CleanAndMalicious.cs:27-78 | another event type returns normally with no storage call; undecodable data, a missing or non-string property, or a null raises before any storage call; a null property with the other present raises ArgumentException, and a missing or non-string URI property raises its own exception even when the verdict is null; an unrecognised verdict returns normally and touches nothing |
| Router.RouteFollowsVerdictTable | DmzStorageFunction-CleanAndMalicious/DmzStorageFunction-CleanAndMalicious.cs:48-77 | for a well-formed scan event the handler's result is exactly that of the one move the verdict table names (or nothing), so at most one move happens and its exception is rethrown unchanged |
| Router.SettledRouteChangesNothing | DmzStorageFunction-CleanAndMalicious/DmzStorageFunction-CleanAndMalicious.cs:95-101 | an event whose blob is gone and whose destination container exists changes nothing when delivered, whatever its calls do |
| Router.FaultFreeRouteSettles | DmzStorageFunction-CleanAndMalicious/DmzStorageFunction-CleanAndMalicious.cs:80-131 | a delivery with no faults leaves the event settled: its blob is gone and its destination container exists |
| Router.RedeliveryChangesNothing | DmzStorageFunction-CleanAndMalicious/DmzStorageFunction-CleanAndMalicious.cs:95-101 | after one fault-free delivery, any number of redeliveries, with any faults, leave the store unchanged |
| Router.RedeliveryOfSettledEvent | DmzStorageFunction-CleanAndMalicious/DmzStorageFunction-CleanAndMalicious.cs:95-101 | redelivering a settled event any number of times leaves the store unchanged |

## Left out

- Azure SDK calls (`BlobClient`, `BlobContainerClient`, `BlobLeaseClient`, `StartCopyFromUriAsync`, `WaitForCompletionAsync`, `GetUserDelegationKeyAsync`). Each one is an abstract store step, and whether it fails is an input. Service-side rules are not modelled: a lease conflict, releasing a lease that was never acquired, deleting a leased blob, and copying onto a leased destination.
- Copy transfer: a copy whose wait returns normally either reports success and lands atomically, or reports a failed status and writes nothing; which one is an input. A started copy whose wait fails leaves the destination unchanged. The service's partial destination blob is not modelled.
- SAS signing and the query string (`ToSasQueryParameters`), because they are cryptography inside the SDK. The token is a record of its scope, resource, permissions and times.
- `BlobUriBuilder` and `new Uri` parsing. The decoded `blobUri` is either a parsed (account, container, name) or unparsable. The destination URI at line 87 is built by string interpolation from the decoded names. The model assumes it parses back to the same container and name, so blob names containing URI-reserved characters such as `#` or `?` are not examined.
- JSON decoding of the twice-encoded event data (lines 37-38). It is modelled as a payload that is either undecodable or gives two optional properties.
- `DefaultAzureCredential` (line 84): credential failures show up only as an `OtherFailure` fault of the call that needs them.
- The subject's account name (line 35), logging, async scheduling and the Functions host.
- The wall clock: the four `DateTimeOffset.UtcNow` readings are integer seconds, passed in as inputs.
- Concurrency between invocations and lease contention between processes.
- Relocator.Move: its contract leaves protocol order, cleanup and lease facts to the lemmas MoveFollowsProtocol, CleanupFollowsTry and LeaseReleasedUnlessReleaseFails, to keep each proof small.
- Relocator.FailedCopyStillDeletesSource: its hypothesis also admits a failed lease acquisition, which in the model reaches the delete. The service refuses to release a lease that was never acquired, so there the release would throw and the delete would be skipped; that rule is not modelled.
- Sas.GenerateUserDelegationSas: the service check `Grants` treats start times as inclusive and expiry times as exclusive. The service's clock-skew allowance is not modelled.

## Findings

| source | as written | input that shows it | evidently intended | confidence | as-written member | corrected member |
|---|---|---|---|---|---|---|
| DmzStorageFunction-CleanAndMalicious/DmzStorageFunction-CleanAndMalicious.cs:119-130 | The `finally` block deletes the source even when the copy failed. The `RequestFailedException` was swallowed, or the copy finished with a failed status that is never read, so the function logs "moved successfully" and returns normally. | The source exists and is not yet at the destination. `StartCopyFromUriAsync` throws `RequestFailedException`. Release and delete succeed. Result: normal return, with the blob at neither the source nor the destination. | Release the lease always, but delete the source only after the copy completed with a success status. | high; not executed | Relocator.FailedCopyStillDeletesSource | Relocator.GuardedMoveKeepsContent |
| DmzStorageFunction-CleanAndMalicious/DmzStorageFunction-CleanAndMalicious.cs:86-129 | The destination is built from the destination account and the source's container and name, and the source is deleted after the copy without comparing the two. | An event for a blob that already lives in `securestoragesc`, with the verdict "No threats found". The copy goes onto the blob itself, then the delete removes it. Result: normal return, and the blob is gone. | Leave a blob that is already in its destination account where it is. | medium (needs an event for a blob outside the DMZ account); not executed | Relocator.SameAccountMoveErasesBlob | Relocator.GuardedMoveKeepsContent |
