/** MoveBlobAsync: move one blob into the destination account chosen by the verdict,
    under a lease, by a server-side copy authorised with a read-only SAS, and with
    lease release and source deletion in a finally block.

    The move is a pure function of the store, the faults each SDK call ends with, and
    the clock readings. It returns the new store, the calls it made in order, and
    whether it returned or raised. */
module Relocator {
  import opened Outcomes
  import opened Blobs
  import opened Sas

  const CleanStorageAccount := "securestoragesc"
  const QuarantineStorageAccount := "quarantinestoragesc"

  /** One call to the storage service, named after the SDK method. */
  datatype Call =
    | CreateContainerIfNotExists(container: ContainerId)
    | Exists(blob: Locator)
    | GetUserDelegationKey(account: string)
    | AcquireLease(blob: Locator)
    | StartCopyFromUri(dest: Locator, source: Locator, token: SasToken)
    | WaitForCompletion(dest: Locator)
    | ReleaseLease(blob: Locator)
    | DeleteBlob(blob: Locator)

  /** The status a finished copy reports. The wait returns normally whichever it is;
      the code never reads it. */
  datatype CopyStatus = CopySucceeded | CopyFailed

  /** How each call of one move ends, and how the copy itself ends. */
  datatype Faults = Faults(
    createContainer: Fault,
    existence: Fault,
    delegationKey: Fault,
    acquire: Fault,
    startCopy: Fault,
    waitForCopy: Fault,
    copyStatus: CopyStatus,
    release: Fault,
    delete: Fault)

  const NoFaults := Faults(NoFault, NoFault, NoFault, NoFault, NoFault, NoFault, CopySucceeded, NoFault, NoFault)

  datatype Run = Run(store: Store, calls: seq<Call>, completion: Completion)

  /** What the finally block does about the source: the code deletes it always;
      DeleteAfterCopy is the corrected variant that deletes it only once its content
      is known to be at another blob (see Landed). */
  datatype DeletePolicy = AlwaysDelete | DeleteAfterCopy

  function DestinationAccount(isClean: bool): string {
    if isClean then CleanStorageAccount else QuarantineStorageAccount
  }

  /** The destination locator: the source's container and blob name under another account. */
  function DestinationOf(src: Locator, account: string): (dest: Locator)
    ensures dest.account == account && dest.container == src.container && dest.name == src.name
    ensures dest == src <==> src.account == account
  {
    Locator(account, src.container, src.name)
  }

  /** Every call a move can make, in the order the code makes them. */
  function Protocol(src: Locator, dest: Locator, token: SasToken): (p: seq<Call>)
    ensures |p| == 8
  {
    [ CreateContainerIfNotExists(ContainerOf(dest)), Exists(src), GetUserDelegationKey(src.account),
      AcquireLease(src), StartCopyFromUri(dest, src, token), WaitForCompletion(dest),
      ReleaseLease(src), DeleteBlob(src) ]
  }

  /** The first `reached` calls of the protocol before the cleanup, then the first
      `cleaned` calls of the cleanup. */
  function Shape(p: seq<Call>, reached: nat, cleaned: nat): seq<Call>
    requires |p| == 8 && reached <= 6 && cleaned <= 2
  {
    p[..reached] + p[6..6 + cleaned]
  }

  /** The calls follow the protocol: a prefix of its first six calls, and, exactly when
      the try block was entered (the lease acquisition was attempted), the release and
      possibly the delete after it. */
  ghost predicate FollowsProtocol(calls: seq<Call>, p: seq<Call>)
    requires |p| == 8
  {
    exists reached: nat, cleaned: nat ::
      reached <= 6 && cleaned <= 2 && (4 <= reached <==> 1 <= cleaned) && calls == Shape(p, reached, cleaned)
  }

  /** The first failing call of the try block, if any. */
  function TryFault(f: Faults): Fault {
    if f.acquire != NoFault then f.acquire
    else if f.startCopy != NoFault then f.startCopy
    else f.waitForCopy
  }

  /** The try block, after the calls `before`: acquire an infinite lease, start the copy
      and wait for it. */
  function ProtectedCopy(s: Store, before: seq<Call>, src: Locator, dest: Locator, token: SasToken, f: Faults): (r: Run)
    requires src in s.blobs
    // The block makes a prefix of its three calls, stopping at the first that fails.
    ensures |r.calls| - |before| == if f.acquire != NoFault then 1 else if f.startCopy != NoFault then 2 else 3
    ensures r.calls == before + [AcquireLease(src), StartCopyFromUri(dest, src, token), WaitForCompletion(dest)][..|r.calls| - |before|]
    // It completes exactly when none of its calls fails, and otherwise raises what the
    // first failing call raised.
    ensures r.completion.Returned? <==> TryFault(f) == NoFault
    ensures r.completion.Raised? ==> r.completion == Raised(Thrown(TryFault(f)))
    // The source keeps its content and is leased once the acquisition succeeded.
    ensures r.store.containers == s.containers
    ensures src in r.store.blobs && r.store.blobs[src].content == s.blobs[src].content
    ensures r.store.blobs[src].leased == (f.acquire == NoFault || s.blobs[src].leased)
    // Only a completed, successful copy writes the destination, with the source's content.
    ensures r.completion == Returned && f.copyStatus == CopySucceeded ==>
      dest in r.store.blobs && r.store.blobs[dest].content == s.blobs[src].content
    ensures r.completion.Raised? || f.copyStatus == CopyFailed ==> r.store.blobs - {src} == s.blobs - {src}
    ensures r.store.blobs - {src, dest} == s.blobs - {src, dest}
  {
    var acquire := before + [AcquireLease(src)];
    if f.acquire != NoFault then Run(s, acquire, Raised(Thrown(f.acquire)))
    else
      var leased := SetLease(s, src, true);
      var started := acquire + [StartCopyFromUri(dest, src, token)];
      if f.startCopy != NoFault then Run(leased, started, Raised(Thrown(f.startCopy)))
      else
        var waited := started + [WaitForCompletion(dest)];
        if f.waitForCopy != NoFault then Run(leased, waited, Raised(Thrown(f.waitForCopy)))
        else if f.copyStatus == CopyFailed then Run(leased, waited, Returned)
        else Run(CopyBlob(leased, src, dest), waited, Returned)
  }

  /** The corrected variant's test after the try block: the wait returned, the copy
      reports success, and the destination is not the source itself. */
  predicate Landed(attempt: Run, f: Faults, src: Locator, dest: Locator) {
    attempt.completion == Returned && f.copyStatus == CopySucceeded && dest != src
  }

  /** The catch clause: a RequestFailedException is logged and swallowed. */
  function AfterCatch(c: Completion): Completion {
    if c == Raised(RequestFailed) then Returned else c
  }

  /** The finally block: release the lease, then delete the source. An exception
      thrown here replaces the one still pending from the try block. `copied` is the
      corrected variant's test of the copy; the code does not look at it. */
  function Cleanup(policy: DeletePolicy, attempt: Run, copied: bool, src: Locator, f: Faults): (r: Run)
    // The release always comes first; the delete follows it only when the release succeeded.
    ensures r.calls == attempt.calls + [ReleaseLease(src)] || r.calls == attempt.calls + [ReleaseLease(src), DeleteBlob(src)]
    ensures f.release == NoFault && (policy == AlwaysDelete || copied) ==>
      r.calls == attempt.calls + [ReleaseLease(src), DeleteBlob(src)]
    ensures r.calls == attempt.calls + [ReleaseLease(src), DeleteBlob(src)] ==>
      f.release == NoFault && (policy == AlwaysDelete || copied)
    // A failing release leaves the store as the try block left it, lease included.
    ensures f.release != NoFault ==> r.store == attempt.store && r.completion == Raised(Thrown(f.release))
    ensures f.release == NoFault ==> src !in r.store.blobs || !r.store.blobs[src].leased
    ensures f.release == NoFault && f.delete == NoFault && policy == AlwaysDelete ==> src !in r.store.blobs
    // The block returns normally exactly when its own calls succeed and the try block's
    // exception, if any, was a RequestFailedException.
    ensures r.completion == Returned <==>
      && f.release == NoFault
      && (f.delete == NoFault || (policy == DeleteAfterCopy && !copied))
      && attempt.completion in {Returned, Raised(RequestFailed)}
    ensures r.completion.Raised? && f.release == NoFault && r.completion != attempt.completion ==>
      f.delete != NoFault && r.completion == Raised(Thrown(f.delete))
    // A failing delete raises its own exception, replacing any still pending.
    ensures f.release == NoFault && (policy == AlwaysDelete || copied) && f.delete != NoFault ==>
      r.completion == Raised(Thrown(f.delete))
    // The source is gone exactly when release and delete both succeeded; otherwise it
    // keeps the content the try block left it.
    ensures src in r.store.blobs <==>
      src in attempt.store.blobs && !(f.release == NoFault && (policy == AlwaysDelete || copied) && f.delete == NoFault)
    ensures src in r.store.blobs ==> r.store.blobs[src].content == attempt.store.blobs[src].content
    ensures r.store.containers == attempt.store.containers
    ensures r.store.blobs - {src} == attempt.store.blobs - {src}
  {
    var pending := AfterCatch(attempt.completion);
    var released := attempt.calls + [ReleaseLease(src)];
    if f.release != NoFault then Run(attempt.store, released, Raised(Thrown(f.release)))
    else
      var unleased := SetLease(attempt.store, src, false);
      if policy == DeleteAfterCopy && !copied then Run(unleased, released, pending)
      else
        var deleted := attempt.calls + [ReleaseLease(src), DeleteBlob(src)];
        assert policy == AlwaysDelete || copied;
        if f.delete != NoFault then Run(unleased, deleted, Raised(Thrown(f.delete)))
        else Run(RemoveBlob(unleased, src), deleted, pending)
  }

  /** The calls made before the try block: create the destination container, probe
      the source, fetch the delegation key for the token. */
  function CallsBeforeTry(src: Locator, dest: Locator): seq<Call> {
    [CreateContainerIfNotExists(ContainerOf(dest)), Exists(src), GetUserDelegationKey(src.account)]
  }

  /** The try block followed by the finally block, after the calls `before`. */
  function TryThenFinally(policy: DeletePolicy, s: Store, before: seq<Call>, src: Locator, dest: Locator, token: SasToken, f: Faults): Run
    requires src in s.blobs
  {
    var attempt := ProtectedCopy(s, before, src, dest, token, f);
    Cleanup(policy, attempt, Landed(attempt, f, src, dest), src, f)
  }

  /** MoveBlobAsync(src, isClean). */
  function Move(policy: DeletePolicy, s: Store, src: Locator, isClean: bool, f: Faults, clock: ClockReadings): (r: Run)
    // Each call before the try block that fails ends the move with its exception, after
    // at most the container creation changed the store.
    ensures f.createContainer != NoFault ==> r.store == s && r.completion == Raised(Thrown(f.createContainer))
    ensures f.createContainer == NoFault && f.existence != NoFault ==>
      && r.store == CreateIfNotExists(s, ContainerOf(DestinationOf(src, DestinationAccount(isClean))))
      && r.completion == Raised(Thrown(f.existence))
    // The token is built before the try block: when that fails nothing is leased, copied or deleted.
    ensures f.createContainer == NoFault && f.existence == NoFault && src in s.blobs && f.delegationKey != NoFault ==>
      r.completion == Raised(Thrown(f.delegationKey)) && AcquireLease(src) !in r.calls && DeleteBlob(src) !in r.calls &&
      r.store.blobs == s.blobs
    // A failing call before the try block is the last call: the move stops there.
    ensures f.createContainer != NoFault ==> |r.calls| == 1
    ensures f.createContainer == NoFault && (f.existence != NoFault || src !in s.blobs) ==> |r.calls| == 2
    ensures f.createContainer == NoFault && f.existence == NoFault && src in s.blobs && f.delegationKey != NoFault ==>
      |r.calls| == 3
    // Once its creation call succeeded, the destination container exists.
    ensures f.createContainer == NoFault ==> ContainerOf(DestinationOf(src, DestinationAccount(isClean))) in r.store.containers
    // A missing source: at most the destination container is created, and the move
    // returns normally once the probe succeeded.
    ensures src !in s.blobs ==> r.store.blobs == s.blobs && |r.calls| <= 2
    ensures src !in s.blobs && ContainerOf(DestinationOf(src, DestinationAccount(isClean))) in s.containers ==> r.store == s
    ensures f.createContainer == NoFault && f.existence == NoFault && src !in s.blobs ==> r.completion == Returned
    // Without faults the content ends up at the destination and the source is gone.
    ensures f == NoFaults && src in s.blobs ==>
      var dest := DestinationOf(src, DestinationAccount(isClean));
      && r.completion == Returned
      && (dest != src ==> src !in r.store.blobs && dest in r.store.blobs && r.store.blobs[dest].content == s.blobs[src].content)
    // A RequestFailedException from the lease acquisition or the copy never escapes.
    ensures r.completion == Raised(RequestFailed) ==>
      RequestFailure in {f.createContainer, f.existence, f.delegationKey, f.release, f.delete}
  {
    var dest := DestinationOf(src, DestinationAccount(isClean));
    var before := CallsBeforeTry(src, dest);
    if f.createContainer != NoFault then Run(s, before[..1], Raised(Thrown(f.createContainer)))
    else
      var prepared := CreateIfNotExists(s, ContainerOf(dest));
      if f.existence != NoFault then Run(prepared, before[..2], Raised(Thrown(f.existence)))
      else if src !in prepared.blobs then Run(prepared, before[..2], Returned)
      else if f.delegationKey != NoFault then Run(prepared, before, Raised(Thrown(f.delegationKey)))
      else TryThenFinally(policy, prepared, before, src, dest, GenerateUserDelegationSas(src, clock), f)
  }

  /** The calls of any move are the protocol's calls in the protocol's order: a prefix
      of the steps up to the copy, then, exactly when the lease acquisition was
      attempted, the release and possibly the delete. */
  lemma MoveFollowsProtocol(policy: DeletePolicy, s: Store, src: Locator, isClean: bool, f: Faults, clock: ClockReadings)
    ensures FollowsProtocol(Move(policy, s, src, isClean, f, clock).calls,
                            Protocol(src, DestinationOf(src, DestinationAccount(isClean)), GenerateUserDelegationSas(src, clock)))
  {
    var dest := DestinationOf(src, DestinationAccount(isClean));
    var token := GenerateUserDelegationSas(src, clock);
    var p := Protocol(src, dest, token);
    var r := Move(policy, s, src, isClean, f, clock);
    var prepared := CreateIfNotExists(s, ContainerOf(dest));
    if f.createContainer != NoFault {
      assert r.calls == Shape(p, 1, 0);
    } else if f.existence != NoFault || src !in prepared.blobs {
      assert r.calls == Shape(p, 2, 0);
    } else if f.delegationKey != NoFault {
      assert r.calls == Shape(p, 3, 0);
    } else {
      TryAndCleanupFollowProtocol(policy, prepared, src, dest, token, f);
    }
  }

  /** The part of MoveFollowsProtocol once the token is built. */
  lemma TryAndCleanupFollowProtocol(policy: DeletePolicy, s: Store, src: Locator, dest: Locator, token: SasToken, f: Faults)
    requires src in s.blobs
    ensures var p := Protocol(src, dest, token);
      var attempt := ProtectedCopy(s, CallsBeforeTry(src, dest), src, dest, token, f);
      var r := TryThenFinally(policy, s, CallsBeforeTry(src, dest), src, dest, token, f);
      4 <= |attempt.calls| <= 6 && (r.calls == Shape(p, |attempt.calls|, 1) || r.calls == Shape(p, |attempt.calls|, 2))
  {
    var p := Protocol(src, dest, token);
    var before := CallsBeforeTry(src, dest);
    var attempt := ProtectedCopy(s, before, src, dest, token, f);
    var reached := |attempt.calls|;
    assert before == p[..3];
    assert attempt.calls == p[..reached] by {
      assert attempt.calls[3..] == p[3..reached];
    }
    assert p[6..7] == [ReleaseLease(src)];
    assert p[6..8] == [ReleaseLease(src), DeleteBlob(src)];
  }

  /** A move whose source exists and whose token is built runs the try block and then the
      finally block. */
  lemma MoveEntersTry(policy: DeletePolicy, s: Store, src: Locator, isClean: bool, f: Faults, clock: ClockReadings)
    requires src in s.blobs
    requires f.createContainer == NoFault && f.existence == NoFault && f.delegationKey == NoFault
    ensures var dest := DestinationOf(src, DestinationAccount(isClean));
      var prepared := CreateIfNotExists(s, ContainerOf(dest));
      Move(policy, s, src, isClean, f, clock) ==
        TryThenFinally(policy, prepared, CallsBeforeTry(src, dest), src, dest, GenerateUserDelegationSas(src, clock), f)
  {
  }

  /** Once the try block is entered the lease release is attempted, whatever the lease
      acquisition and the copy did; a delete comes only last, straight after the
      release; and the code, unlike the corrected variant, always attempts the delete
      after a successful release. */
  lemma CleanupFollowsTry(policy: DeletePolicy, s: Store, src: Locator, isClean: bool, f: Faults, clock: ClockReadings)
    ensures var r := Move(policy, s, src, isClean, f, clock);
      && (AcquireLease(src) in r.calls ==> ReleaseLease(src) in r.calls)
      && (DeleteBlob(src) in r.calls ==>
            |r.calls| >= 2 && r.calls[|r.calls| - 2] == ReleaseLease(src) && r.calls[|r.calls| - 1] == DeleteBlob(src))
      && (policy == AlwaysDelete && AcquireLease(src) in r.calls && f.release == NoFault ==> DeleteBlob(src) in r.calls)
  {
    var dest := DestinationOf(src, DestinationAccount(isClean));
    if f.createContainer == NoFault && f.existence == NoFault && src in s.blobs && f.delegationKey == NoFault {
      MoveEntersTry(policy, s, src, isClean, f, clock);
      TryThenCleanupOrder(policy, CreateIfNotExists(s, ContainerOf(dest)), CallsBeforeTry(src, dest), src, dest,
                          GenerateUserDelegationSas(src, clock), f);
    }
  }

  /** CleanupFollowsTry for the try and finally blocks after any earlier calls. */
  lemma TryThenCleanupOrder(policy: DeletePolicy, s: Store, before: seq<Call>, src: Locator, dest: Locator, token: SasToken, f: Faults)
    requires src in s.blobs && DeleteBlob(src) !in before
    ensures var r := TryThenFinally(policy, s, before, src, dest, token, f);
      && AcquireLease(src) in r.calls && ReleaseLease(src) in r.calls
      && (DeleteBlob(src) in r.calls ==>
            |r.calls| >= 2 && r.calls[|r.calls| - 2] == ReleaseLease(src) && r.calls[|r.calls| - 1] == DeleteBlob(src))
      && (policy == AlwaysDelete && f.release == NoFault ==> DeleteBlob(src) in r.calls)
  {
    var attempt := ProtectedCopy(s, before, src, dest, token, f);
    var r := TryThenFinally(policy, s, before, src, dest, token, f);
    assert attempt.calls[|before|] == AcquireLease(src);
    assert DeleteBlob(src) !in attempt.calls by {
      var tried := attempt.calls[|before|..];
      assert attempt.calls == before + tried;
      assert forall i :: 0 <= i < |tried| ==> tried[i] != DeleteBlob(src);
    }
    assert r.calls[|attempt.calls|] == ReleaseLease(src);
  }

  /** The lease is not left behind: with a successful release the source ends without
      a lease unless it had one to begin with. A failing release after a successful
      acquisition leaves the lease held and the source in place, and its exception
      escapes. */
  lemma LeaseReleasedUnlessReleaseFails(policy: DeletePolicy, s: Store, src: Locator, isClean: bool, f: Faults, clock: ClockReadings)
    ensures var r := Move(policy, s, src, isClean, f, clock);
      && (f.release == NoFault && (src in s.blobs ==> !s.blobs[src].leased) ==>
            src !in r.store.blobs || !r.store.blobs[src].leased)
      && (AcquireLease(src) in r.calls && f.acquire == NoFault && f.release != NoFault ==>
            && src in r.store.blobs && r.store.blobs[src].leased
            && DeleteBlob(src) !in r.calls
            && r.completion == Raised(Thrown(f.release)))
  {
    if f.createContainer == NoFault && f.existence == NoFault && src in s.blobs && f.delegationKey == NoFault {
      MoveEntersTry(policy, s, src, isClean, f, clock);
      var dest := DestinationOf(src, DestinationAccount(isClean));
      TryThenCleanupOrder(policy, CreateIfNotExists(s, ContainerOf(dest)), CallsBeforeTry(src, dest), src, dest,
                          GenerateUserDelegationSas(src, clock), f);
    }
  }

  /** Only the source blob and the destination blob can change, only the destination
      container can appear, and every blob stays inside an existing container. */
  lemma MoveTouchesOnlySourceAndDestination(policy: DeletePolicy, s: Store, src: Locator, isClean: bool, f: Faults, clock: ClockReadings)
    ensures var r := Move(policy, s, src, isClean, f, clock);
      var dest := DestinationOf(src, DestinationAccount(isClean));
      && r.store.blobs - {src, dest} == s.blobs - {src, dest}
      && r.store.containers - {ContainerOf(dest)} == s.containers - {ContainerOf(dest)}
      && (WellFormed(s) ==> WellFormed(r.store))
  {
    if f.createContainer == NoFault && f.existence == NoFault && src in s.blobs && f.delegationKey == NoFault {
      MoveEntersTry(policy, s, src, isClean, f, clock);
      var dest := DestinationOf(src, DestinationAccount(isClean));
      TryThenFinallyTouchesOnlySourceAndDestination(policy, CreateIfNotExists(s, ContainerOf(dest)), CallsBeforeTry(src, dest),
                                                   src, dest, GenerateUserDelegationSas(src, clock), f);
    }
  }

  /** MoveTouchesOnlySourceAndDestination for the try and finally blocks, which keep
      the containers as they are. */
  lemma TryThenFinallyTouchesOnlySourceAndDestination(policy: DeletePolicy, s: Store, before: seq<Call>, src: Locator,
                                                     dest: Locator, token: SasToken, f: Faults)
    requires src in s.blobs && ContainerOf(dest) in s.containers
    ensures var r := TryThenFinally(policy, s, before, src, dest, token, f);
      && r.store.blobs - {src, dest} == s.blobs - {src, dest}
      && r.store.containers == s.containers
      && (WellFormed(s) ==> WellFormed(r.store))
  {
    var attempt := ProtectedCopy(s, before, src, dest, token, f);
    var r := TryThenFinally(policy, s, before, src, dest, token, f);
    if WellFormed(s) {
      forall loc | loc in r.store.blobs
        ensures ContainerOf(loc) in r.store.containers
      {
        if loc != src && loc != dest {
          assert loc in s.blobs;
        }
      }
    }
  }

  /** The exceptions of the try block: a RequestFailedException from the lease
      acquisition or the copy is swallowed and the move returns normally, having
      deleted the source; any other exception escapes once the source is deleted. */
  lemma TryExceptionDisposition(s: Store, src: Locator, isClean: bool, f: Faults, clock: ClockReadings)
    requires src in s.blobs
    requires f.createContainer == NoFault && f.existence == NoFault && f.delegationKey == NoFault
    requires f.release == NoFault && f.delete == NoFault
    ensures var r := Move(AlwaysDelete, s, src, isClean, f, clock);
      && src !in r.store.blobs
      && (r.completion == Returned <==> TryFault(f) != OtherFailure)
      && (TryFault(f) == OtherFailure ==> r.completion == Raised(OtherSdkError))
  {
    MoveEntersTry(AlwaysDelete, s, src, isClean, f, clock);
  }

  /** The data-loss path of the code: when the copy fails with a RequestFailedException,
      or finishes with a failed status, the move still returns normally and the content
      is neither at the source nor at the destination. The model lets a failed lease
      acquisition take the same path, because it does not model the service's refusal
      to release a lease that was never acquired. */
  lemma FailedCopyStillDeletesSource(s: Store, src: Locator, isClean: bool, f: Faults, clock: ClockReadings)
    requires src in s.blobs && DestinationOf(src, DestinationAccount(isClean)) !in s.blobs
    requires f.createContainer == NoFault && f.existence == NoFault && f.delegationKey == NoFault
    requires f.release == NoFault && f.delete == NoFault
    requires TryFault(f) == RequestFailure || (TryFault(f) == NoFault && f.copyStatus == CopyFailed)
    ensures var r := Move(AlwaysDelete, s, src, isClean, f, clock);
      && r.completion == Returned
      && src !in r.store.blobs
      && DestinationOf(src, DestinationAccount(isClean)) !in r.store.blobs
  {
    MoveEntersTry(AlwaysDelete, s, src, isClean, f, clock);
  }

  /** The corrected variant never loses the content: whatever fails, however the copy
      ends and whichever account the source is in, the source's content is still at
      the source or has arrived at a different destination blob. */
  lemma GuardedMoveKeepsContent(s: Store, src: Locator, isClean: bool, f: Faults, clock: ClockReadings)
    requires src in s.blobs
    ensures var r := Move(DeleteAfterCopy, s, src, isClean, f, clock);
      var dest := DestinationOf(src, DestinationAccount(isClean));
      || (src in r.store.blobs && r.store.blobs[src].content == s.blobs[src].content)
      || (dest != src && dest in r.store.blobs && r.store.blobs[dest].content == s.blobs[src].content)
  {
    if f.createContainer == NoFault && f.existence == NoFault && f.delegationKey == NoFault {
      MoveEntersTry(DeleteAfterCopy, s, src, isClean, f, clock);
    }
  }

  /** A blob that already lives in the destination account is copied onto itself. The
      code then deletes it, so a move that raises nothing erases it; the corrected
      variant keeps it. */
  lemma SameAccountMoveErasesBlob(s: Store, src: Locator, isClean: bool, clock: ClockReadings)
    requires src in s.blobs && src.account == DestinationAccount(isClean)
    ensures var r := Move(AlwaysDelete, s, src, isClean, NoFaults, clock);
      r.completion == Returned && src !in r.store.blobs && DestinationOf(src, DestinationAccount(isClean)) !in r.store.blobs
    ensures var r := Move(DeleteAfterCopy, s, src, isClean, NoFaults, clock);
      r.completion == Returned && src in r.store.blobs && r.store.blobs[src].content == s.blobs[src].content
  {
  }

  /** Running the move again after it deleted the source changes nothing, whatever the
      second run's calls do. */
  lemma MoveAgainChangesNothing(policy: DeletePolicy, s: Store, src: Locator, isClean: bool, f: Faults, g: Faults,
                                clock: ClockReadings, later: ClockReadings)
    requires src in s.blobs && f.createContainer == NoFault && f.existence == NoFault && f.delegationKey == NoFault
    requires f.release == NoFault && f.delete == NoFault
    requires policy == AlwaysDelete ||
             (TryFault(f) == NoFault && f.copyStatus == CopySucceeded && src.account != DestinationAccount(isClean))
    ensures var first := Move(policy, s, src, isClean, f, clock);
      && src !in first.store.blobs
      && Move(policy, first.store, src, isClean, g, later).store == first.store
  {
    MoveEntersTry(policy, s, src, isClean, f, clock);
  }
}
