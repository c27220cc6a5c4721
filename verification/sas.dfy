/** The user-delegation shared access signature the relocator hands to the copy:
    how it is built from the source blob and the clock, and what the storage
    service lets it do. Times are seconds on one integer clock. */
module Sas {
  import opened Blobs

  const Hour: int := 3600
  const Day: int := 24 * Hour

  /** The signed-resource values of a blob SAS: one blob, or a whole container. */
  const BlobResource := "b"
  const ContainerResource := "c"

  datatype Permission = Read | Add | Create | Write | Delete | Tag | List

  /** The four readings of the wall clock the token builder takes, in order:
      the key's start and expiry, then the token's start and expiry. Nothing
      forces them to be equal or even ordered. */
  datatype ClockReadings = ClockReadings(keyStart: int, keyEnd: int, tokenStart: int, tokenEnd: int)

  /** A user delegation key of an account, valid on [startsOn, expiresOn). */
  datatype DelegationKey = DelegationKey(account: string, startsOn: int, expiresOn: int)

  datatype SasToken = SasToken(
    key: DelegationKey,
    container: string,
    blobName: string,
    resource: string,
    permissions: set<Permission>,
    startsOn: int,
    expiresOn: int)

  function Max(a: int, b: int): int { if a < b then b else a }
  function Min(a: int, b: int): int { if a < b then a else b }

  /** How the storage service judges a request made with a user-delegation SAS:
      the blob must be in the token's scope, the permission granted, and the
      time inside both the token's and its signing key's validity. */
  predicate Grants(token: SasToken, loc: Locator, p: Permission, t: int) {
    && (token.resource == BlobResource || token.resource == ContainerResource)
    && loc.account == token.key.account
    && loc.container == token.container
    && (token.resource == BlobResource ==> loc.name == token.blobName)
    && p in token.permissions
    && token.startsOn <= t < token.expiresOn
    && token.key.startsOn <= t < token.key.expiresOn
  }

  /** GetUserDelegationKeyAsync(now, now + 1 hour) on the source's account. */
  function UserDelegationKey(account: string, clock: ClockReadings): (k: DelegationKey)
    ensures k.account == account
    // Valid from the first clock reading until an hour after the second.
    ensures k.startsOn == clock.keyStart && k.expiresOn == clock.keyEnd + Hour
  {
    DelegationKey(account, clock.keyStart, clock.keyEnd + Hour)
  }

  /** GenerateUserDelegationSAS: a token signed with a fresh delegation key that lets
      its holder read the source blob, and nothing else, while both the token
      (now .. now + 1 day) and the key (now .. now + 1 hour) are valid. */
  function GenerateUserDelegationSas(src: Locator, clock: ClockReadings): (token: SasToken)
    ensures token.resource == BlobResource && token.permissions == {Read}
    ensures forall loc, p, t :: Grants(token, loc, p, t) <==>
      && loc == src
      && p == Read
      && Max(clock.keyStart, clock.tokenStart) <= t < Min(clock.keyEnd + Hour, clock.tokenEnd + Day)
  {
    SasToken(UserDelegationKey(src.account, clock), src.container, src.name, BlobResource, {Read},
             clock.tokenStart, clock.tokenEnd + Day)
  }

  /** Although the token itself is set to expire after a day, it can be used for at
      most one hour: the key signing it expires first. */
  lemma TokenUsableForAtMostAnHour(src: Locator, clock: ClockReadings)
    requires clock.keyStart <= clock.keyEnd <= clock.tokenStart <= clock.tokenEnd
    ensures forall t :: Grants(GenerateUserDelegationSas(src, clock), src, Read, t) <==>
      clock.tokenStart <= t < clock.keyEnd + Hour
    ensures forall t :: Grants(GenerateUserDelegationSas(src, clock), src, Read, t) ==>
      t < clock.tokenStart + Hour
  {
  }
}
