/** The storage service as the function sees it: accounts hold containers, containers
    hold blobs, and a blob has content and may carry a lease. The operations are the
    effects of successful SDK calls; failures are decided by the caller. */
module Blobs {
  type Bytes = seq<bv8>

  /** Where a blob lives: storage account, container and blob name. */
  datatype Locator = Locator(account: string, container: string, name: string)

  datatype ContainerId = ContainerId(account: string, container: string)

  datatype Blob = Blob(content: Bytes, leased: bool)

  datatype Store = Store(containers: set<ContainerId>, blobs: map<Locator, Blob>)

  function ContainerOf(loc: Locator): ContainerId {
    ContainerId(loc.account, loc.container)
  }

  /** Every blob sits in a container that exists. */
  predicate WellFormed(s: Store) {
    forall loc :: loc in s.blobs ==> ContainerOf(loc) in s.containers
  }

  /** BlobContainerClient.CreateIfNotExistsAsync. */
  function CreateIfNotExists(s: Store, c: ContainerId): (r: Store)
    ensures c in r.containers && r.blobs == s.blobs
    ensures c in s.containers ==> r == s
    ensures WellFormed(s) ==> WellFormed(r)
  {
    Store(s.containers + {c}, s.blobs)
  }

  /** BlobLeaseClient.AcquireAsync (held == true) or ReleaseAsync (held == false). */
  function SetLease(s: Store, loc: Locator, held: bool): (r: Store)
    ensures r.containers == s.containers && r.blobs.Keys == s.blobs.Keys
    ensures loc in r.blobs ==> r.blobs[loc].leased == held && r.blobs[loc].content == s.blobs[loc].content
  {
    if loc in s.blobs then Store(s.containers, s.blobs[loc := s.blobs[loc].(leased := held)]) else s
  }

  /** A server-side copy that completed: the destination holds the source's content.
      A lease already on the destination stays. */
  function CopyBlob(s: Store, src: Locator, dest: Locator): (r: Store)
    requires src in s.blobs
    ensures r.containers == s.containers
    ensures dest in r.blobs && r.blobs[dest].content == s.blobs[src].content
  {
    var keepLease := dest in s.blobs && s.blobs[dest].leased;
    Store(s.containers, s.blobs[dest := Blob(s.blobs[src].content, keepLease)])
  }

  /** BlobClient.DeleteAsync. */
  function RemoveBlob(s: Store, loc: Locator): (r: Store)
    ensures r.containers == s.containers && loc !in r.blobs
    ensures WellFormed(s) ==> WellFormed(r)
  {
    Store(s.containers, s.blobs - {loc})
  }
}
