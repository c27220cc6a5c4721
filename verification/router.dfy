/** RunAsync: the Event Grid handler. It ignores events of other types, decodes the
    scan result, and moves the scanned blob to the quarantine account when the verdict
    is "Malicious" or to the clean account when it is "No threats found"; any other
    verdict is left alone. Exceptions from the move are logged and rethrown. */
module Router {
  import opened Outcomes
  import opened Blobs
  import opened Sas
  import opened Relocator

  const ScanEventType := "Microsoft.Security.MalwareScanningResult"
  const MaliciousVerdict := "Malicious"
  const CleanVerdict := "No threats found"

  /** A property of the decoded event data, as JsonElement.GetProperty and GetString see it. */
  datatype Field<+T> = Absent | JsonNull | JsonString(value: T) | NotAString

  /** The text of the blobUri property: whether new Uri(...) accepts it, and which blob it
      names when it does. */
  datatype BlobUri = ParsedUri(blob: Locator) | UnparsableUri

  /** The event data after both JSON decodings, or a failure to decode it. */
  datatype Payload = Undecodable | Decoded(scanResultType: Field<string>, blobUri: Field<BlobUri>)

  /** An Event Grid event. The subject only names the scanned account for logging. */
  datatype Event = Event(eventType: string, subject: string, data: Payload)

  /** GetProperty(name).GetString(): a missing property throws KeyNotFoundException, a
      value that is neither a string nor null throws InvalidOperationException, and a
      JSON null reads as null. */
  function GetString<T>(field: Field<T>): (r: Result<Option<T>>)
    ensures r.Ok? <==> field.JsonNull? || field.JsonString?
    ensures r == Ok(None) <==> field == JsonNull
    ensures field.JsonString? ==> r == Ok(Some(field.value))
    // A missing property and a property that is not a string raise different exceptions.
    ensures field == Absent ==> r == Err(KeyNotFound)
    ensures field == NotAString ==> r == Err(InvalidOperation)
  {
    match field
    case Absent => Err(KeyNotFound)
    case NotAString => Err(InvalidOperation)
    case JsonNull => Ok(None)
    case JsonString(v) => Ok(Some(v))
  }

  /** The event data is usable only when both properties are present strings. */
  predicate HasBothFields(data: Payload) {
    data.Decoded? && data.scanResultType.JsonString? && data.blobUri.JsonString?
  }

  /** The verdict table: which move a verdict calls for, as the isClean flag of
      MoveBlobAsync, or none. */
  function VerdictTarget(verdict: string): (target: Option<bool>)
    ensures target == Some(false) <==> verdict == MaliciousVerdict
    ensures target == Some(true) <==> verdict == CleanVerdict
    ensures verdict == MaliciousVerdict ==> target.Some? && DestinationAccount(target.value) == QuarantineStorageAccount
    ensures verdict == CleanVerdict ==> target.Some? && DestinationAccount(target.value) == CleanStorageAccount
  {
    if verdict == MaliciousVerdict then Some(false)
    else if verdict == CleanVerdict then Some(true)
    else None
  }

  /** new Uri(blobUriString) followed by MoveBlobAsync. */
  function ParseAndMove(s: Store, uri: BlobUri, isClean: bool, f: Faults, clock: ClockReadings): Run {
    match uri
    case UnparsableUri => Run(s, [], Raised(UriFormatError))
    case ParsedUri(blob) => Move(AlwaysDelete, s, blob, isClean, f, clock)
  }

  /** Runs `second` after `first` returned normally. */
  function Then(first: Run, second: Run): Run {
    Run(second.store, first.calls + second.calls, second.completion)
  }

  /** RunAsync. The two verdict tests are separate if statements, as in the code. */
  function Route(e: Event, s: Store, f: Faults, clock: ClockReadings): (r: Run)
    // Events of any other type return normally and touch nothing.
    ensures e.eventType != ScanEventType ==> r == Run(s, [], Returned)
    // Data that cannot be decoded, or lacks either property, or holds null in either,
    // raises before any storage call.
    ensures e.eventType == ScanEventType && !HasBothFields(e.data) ==>
      r.completion.Raised? && r.calls == [] && r.store == s
    // A verdict that is neither recognised value returns normally and touches nothing.
    ensures HasBothFields(e.data) && VerdictTarget(e.data.scanResultType.value).None? ==> r == Run(s, [], Returned)
    // Both properties present, but one of them null: the ArgumentException.
    ensures
      && e.eventType == ScanEventType && e.data.Decoded?
      && GetString(e.data.scanResultType).Ok? && GetString(e.data.blobUri).Ok?
      && (e.data.scanResultType == JsonNull || e.data.blobUri == JsonNull)
      ==> r == Run(s, [], Raised(ArgumentError))
    // Both properties are read before the null test, so a bad URI property raises its
    // own exception even when the verdict is null.
    ensures
      && e.eventType == ScanEventType && e.data.Decoded?
      && GetString(e.data.scanResultType).Ok? && GetString(e.data.blobUri).Err?
      ==> r == Run(s, [], Raised(GetString(e.data.blobUri).error))
  {
    if e.eventType != ScanEventType then Run(s, [], Returned)
    else
      match e.data
      case Undecodable => Run(s, [], Raised(JsonError))
      case Decoded(verdictField, uriField) =>
        match GetString(verdictField)
        case Err(x) => Run(s, [], Raised(x))
        case Ok(verdict) =>
          match GetString(uriField)
          case Err(x) => Run(s, [], Raised(x))
          case Ok(uri) =>
            if verdict.None? || uri.None? then Run(s, [], Raised(ArgumentError))
            else
              var first :=
                if verdict.value == MaliciousVerdict then ParseAndMove(s, uri.value, false, f, clock)
                else Run(s, [], Returned);
              if first.completion.Raised? || verdict.value != CleanVerdict then first
              else Then(first, ParseAndMove(first.store, uri.value, true, f, clock))
  }

  /** The router performs at most one move, the one the verdict table names, and passes
      on whatever that move raises. */
  lemma RouteFollowsVerdictTable(e: Event, s: Store, f: Faults, clock: ClockReadings)
    requires e.eventType == ScanEventType && HasBothFields(e.data)
    ensures Route(e, s, f, clock) ==
      match VerdictTarget(e.data.scanResultType.value)
      case None => Run(s, [], Returned)
      case Some(isClean) => ParseAndMove(s, e.data.blobUri.value, isClean, f, clock)
  {
    var verdict := e.data.scanResultType.value;
    if verdict == CleanVerdict {
      assert verdict != MaliciousVerdict;
      var second := ParseAndMove(s, e.data.blobUri.value, true, f, clock);
      assert Then(Run(s, [], Returned), second) == second by {
        assert [] + second.calls == second.calls;
      }
    }
  }

  /** One delivery of the same event, with the faults and clock of that attempt. */
  datatype Delivery = Delivery(faults: Faults, clock: ClockReadings)

  /** The store after the event is delivered once per element of `deliveries`, as an
      at-least-once event service may do. */
  function Redeliver(e: Event, s: Store, deliveries: seq<Delivery>): Store
    decreases |deliveries|
  {
    if deliveries == [] then s
    else Redeliver(e, Route(e, s, deliveries[0].faults, deliveries[0].clock).store, deliveries[1..])
  }

  /** The event has nothing left to move: it is not acted on, or its blob is gone and its
      destination container exists. */
  ghost predicate Settled(e: Event, s: Store) {
    e.eventType == ScanEventType && HasBothFields(e.data) && e.data.blobUri.value.ParsedUri? ==>
      var src := e.data.blobUri.value.blob;
      match VerdictTarget(e.data.scanResultType.value)
      case None => true
      case Some(isClean) =>
        src !in s.blobs && ContainerOf(DestinationOf(src, DestinationAccount(isClean))) in s.containers
  }

  /** Delivering an event whose move has nothing left to do changes nothing. */
  lemma SettledRouteChangesNothing(e: Event, s: Store, f: Faults, clock: ClockReadings)
    requires Settled(e, s)
    ensures Route(e, s, f, clock).store == s
  {
    if e.eventType == ScanEventType && HasBothFields(e.data) {
      RouteFollowsVerdictTable(e, s, f, clock);
    }
  }

  /** A delivery that meets no fault settles the event. */
  lemma FaultFreeRouteSettles(e: Event, s: Store, clock: ClockReadings)
    ensures Settled(e, Route(e, s, NoFaults, clock).store)
  {
    if e.eventType == ScanEventType && HasBothFields(e.data) {
      RouteFollowsVerdictTable(e, s, NoFaults, clock);
      var verdict := e.data.scanResultType.value;
      var uri := e.data.blobUri.value;
      if VerdictTarget(verdict).Some? && uri.ParsedUri? {
        var isClean := VerdictTarget(verdict).value;
        var src := uri.blob;
        var dest := DestinationOf(src, DestinationAccount(isClean));
        if src in s.blobs {
          MoveEntersTry(AlwaysDelete, s, src, isClean, NoFaults, clock);
        }
      }
    }
  }

  /** Redelivering an event after one delivery met no fault changes nothing more, however
      often it is redelivered and whatever those deliveries meet: the first delivery
      moved the blob (or had nothing to move), and every later one finds no source. */
  lemma {:induction false} RedeliveryChangesNothing(e: Event, s: Store, clock: ClockReadings, later: seq<Delivery>)
    ensures var settled := Route(e, s, NoFaults, clock).store;
      Redeliver(e, settled, later) == settled
  {
    FaultFreeRouteSettles(e, s, clock);
    RedeliveryOfSettledEvent(e, Route(e, s, NoFaults, clock).store, later);
  }

  lemma {:induction false} RedeliveryOfSettledEvent(e: Event, s: Store, deliveries: seq<Delivery>)
    requires Settled(e, s)
    ensures Redeliver(e, s, deliveries) == s
    decreases |deliveries|
  {
    if deliveries != [] {
      SettledRouteChangesNothing(e, s, deliveries[0].faults, deliveries[0].clock);
      RedeliveryOfSettledEvent(e, s, deliveries[1..]);
    }
  }
}
