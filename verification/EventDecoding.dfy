/**
 Decoding one block's raw events: which are looked at, what they become, and that no
 membership change is lost when a decode fails.
 */
module EventDecoding {
  import opened Wrappers

  type BucketId = nat
  type Account = nat

  /** The event names that are told apart by name, without decoding. */
  datatype Name =
    | NameBucketCreated | NameMemberSet | NameMemberRemoved | NameBucketDeleted | NameBucketVisibilityChanged
    | NameChallengeCreated | NameReplicaAgreementEstablished | NameBucketCheckpointed
    | NameProviderRegistered | NameProviderSettingsUpdated | NameProviderMultiaddrUpdated
    | NameDeregisterAnnounced | NameDeregisterCancelled | NameProviderDeregistered
    | NameOtherOfPallet | NameOfOtherPallet

  /** A decoded storage-provider event, with the fields that are used. */
  datatype PalletEvent =
    | BucketCreated(bucketId: BucketId)
    | MemberSet(bucketId: BucketId)
    | MemberRemoved(bucketId: BucketId)
    | BucketDeleted(bucketId: BucketId)
    | BucketVisibilityChanged(bucketId: BucketId)
    | ChallengeCreated(deadline: nat, index: nat, bucketId: BucketId, provider: Account)
    | ReplicaAgreementEstablished(bucketId: BucketId, provider: Account)
    | BucketCheckpointed(bucketId: BucketId)
    | ProviderRegistered(provider: Account)
    | ProviderSettingsUpdated(provider: Account)
    | ProviderMultiaddrUpdated(provider: Account)
    | DeregisterAnnounced(provider: Account)
    | DeregisterCancelled(provider: Account)
    | ProviderDeregistered(provider: Account)
    | OtherOfPallet

  datatype Decoded = StorageProvider(event: PalletEvent) | OtherPallet | Undecodable

  /** An event of a block, as far as it can be iterated: its name, and what decoding it gives. */
  datatype RawEvent = RawEvent(name: Name, decoded: Decoded)

  /** What the coordinators are told. */
  datatype BlockEvent =
    | ChallengeRaised(deadline: nat, index: nat, bucketId: BucketId, provider: Account)
    | ReplicaEstablished(bucketId: BucketId, provider: Account)
    | Checkpointed(bucketId: BucketId)
    | MembershipChanged(bucketId: BucketId)
    | Resubscribed(atBlock: nat)
    | MembershipScopeUnknown(atBlock: nat)

  datatype BlockContents = BlockContents(events: seq<BlockEvent>, lifecycle: seq<Account>)

  function NameOf(e: PalletEvent): Name {
    match e
    case BucketCreated(_) => NameBucketCreated
    case MemberSet(_) => NameMemberSet
    case MemberRemoved(_) => NameMemberRemoved
    case BucketDeleted(_) => NameBucketDeleted
    case BucketVisibilityChanged(_) => NameBucketVisibilityChanged
    case ChallengeCreated(_, _, _, _) => NameChallengeCreated
    case ReplicaAgreementEstablished(_, _) => NameReplicaAgreementEstablished
    case BucketCheckpointed(_) => NameBucketCheckpointed
    case ProviderRegistered(_) => NameProviderRegistered
    case ProviderSettingsUpdated(_) => NameProviderSettingsUpdated
    case ProviderMultiaddrUpdated(_) => NameProviderMultiaddrUpdated
    case DeregisterAnnounced(_) => NameDeregisterAnnounced
    case DeregisterCancelled(_) => NameDeregisterCancelled
    case ProviderDeregistered(_) => NameProviderDeregistered
    case OtherOfPallet => NameOtherOfPallet
  }

  /** Decoding respects names: the static bindings find an event by its pallet and name. */
  predicate WellNamed(raw: RawEvent) {
    match raw.decoded
    case StorageProvider(e) => raw.name == NameOf(e)
    case OtherPallet => raw.name == NameOfOtherPallet
    case Undecodable => true
  }

  predicate IsMembershipEvent(name: Name) {
    name in {NameBucketCreated, NameMemberSet, NameMemberRemoved, NameBucketDeleted, NameBucketVisibilityChanged}
  }

  predicate IsOtherRelevantEvent(name: Name) {
    name in {NameChallengeCreated, NameReplicaAgreementEstablished, NameBucketCheckpointed, NameProviderRegistered,
             NameProviderSettingsUpdated, NameProviderMultiaddrUpdated, NameDeregisterAnnounced,
             NameDeregisterCancelled, NameProviderDeregistered}
  }

  /** The provider of a lifecycle event. */
  function LifecycleAccount(e: PalletEvent): Option<Account> {
    match e
    case ProviderDeregistered(p) => Some(p)
    case ProviderRegistered(p) => Some(p)
    case ProviderSettingsUpdated(p) => Some(p)
    case ProviderMultiaddrUpdated(p) => Some(p)
    case DeregisterAnnounced(p) => Some(p)
    case DeregisterCancelled(p) => Some(p)
    case _ => None
  }

  function BlockEventOf(e: PalletEvent): Option<BlockEvent> {
    match e
    case ChallengeCreated(deadline, index, bucketId, provider) =>
      Some(ChallengeRaised(deadline, index, bucketId, provider))
    case ReplicaAgreementEstablished(bucketId, provider) => Some(ReplicaEstablished(bucketId, provider))
    case BucketCheckpointed(bucketId) => Some(Checkpointed(bucketId))
    case BucketCreated(bucketId) => Some(MembershipChanged(bucketId))
    case MemberSet(bucketId) => Some(MembershipChanged(bucketId))
    case MemberRemoved(bucketId) => Some(MembershipChanged(bucketId))
    case BucketDeleted(bucketId) => Some(MembershipChanged(bucketId))
    case BucketVisibilityChanged(bucketId) => Some(MembershipChanged(bucketId))
    case _ => None
  }

  /** The filter by name passes exactly the events that mean something to a coordinator. */
  lemma FilterIsExact(e: PalletEvent)
    ensures IsMembershipEvent(NameOf(e)) || IsOtherRelevantEvent(NameOf(e))
      <==> BlockEventOf(e).Some? || LifecycleAccount(e).Some?
    ensures IsMembershipEvent(NameOf(e)) <==> BlockEventOf(e).Some? && BlockEventOf(e).value.MembershipChanged?
  {
  }

  // ---- A whole block, without the filter ----

  function Listed<T>(o: Option<T>): seq<T> { if o.Some? then [o.value] else [] }

  /** What one raw event becomes: decoded ones are mapped, and an undecodable membership change has unknown scope. */
  function EventFor(raw: RawEvent, blockNumber: nat): Option<BlockEvent> {
    match raw.decoded
    case StorageProvider(e) => BlockEventOf(e)
    case OtherPallet => None
    case Undecodable => if IsMembershipEvent(raw.name) then Some(MembershipScopeUnknown(blockNumber)) else None
  }

  function AccountFor(raw: RawEvent): Option<Account> {
    if raw.decoded.StorageProvider? then LifecycleAccount(raw.decoded.event) else None
  }

  /** Items that cannot be iterated are `None`. */
  function EventsFor(items: seq<Option<RawEvent>>, blockNumber: nat): seq<BlockEvent> {
    if items == [] then []
    else
      var last := items[|items| - 1];
      EventsFor(items[..|items| - 1], blockNumber)
      + if last.Some? then Listed(EventFor(last.value, blockNumber)) else []
  }

  function AccountsFor(items: seq<Option<RawEvent>>): seq<Account> {
    if items == [] then []
    else
      var last := items[|items| - 1];
      AccountsFor(items[..|items| - 1]) + if last.Some? then Listed(AccountFor(last.value)) else []
  }

  /**
   The follower's view of one block. Skipping events by their names first changes
   nothing: the result is the mapping of all events, in the order of the block.
   */
  method DecodeBlockContents(items: seq<Option<RawEvent>>, blockNumber: nat) returns (contents: BlockContents)
    requires forall item <- items :: item.Some? ==> WellNamed(item.value)
    ensures contents == BlockContents(EventsFor(items, blockNumber), AccountsFor(items))
  {
    hide IsMembershipEvent, IsOtherRelevantEvent, BlockEventOf, LifecycleAccount, NameOf;
    var events: seq<BlockEvent>, lifecycle: seq<Account> := [], [];
    var i := 0;
    while i < |items|
      invariant 0 <= i <= |items|
      invariant events == EventsFor(items[..i], blockNumber) && lifecycle == AccountsFor(items[..i])
    {
      var item := items[i];
      i := i + 1;
      assert items[..i][..i - 1] == items[..i - 1];
      if item.None? {
        continue;
      }
      var raw := item.value;
      assert WellNamed(raw) by { assert item in items; }
      var membership := IsMembershipEvent(raw.name);
      Irrelevant(raw, blockNumber);
      if !membership && !IsOtherRelevantEvent(raw.name) {
        continue;
      }
      match raw.decoded {
        case StorageProvider(e) =>
          lifecycle := lifecycle + Listed(LifecycleAccount(e));
          events := events + Listed(BlockEventOf(e));
        case OtherPallet =>
        case Undecodable =>
          if membership {
            events := events + [MembershipScopeUnknown(blockNumber)];
          }
      }
    }
    assert items[..i] == items;
    return BlockContents(events, lifecycle);
  }

  lemma Irrelevant(raw: RawEvent, blockNumber: nat)
    requires WellNamed(raw)
    ensures !IsMembershipEvent(raw.name) && !IsOtherRelevantEvent(raw.name) ==>
      EventFor(raw, blockNumber) == None && AccountFor(raw) == None
  {
    if raw.decoded.StorageProvider? {
      FilterIsExact(raw.decoded.event);
    }
  }

  // ---- No membership change is lost ----

  /** The bucket whose membership `raw` changes, if it can be decoded. */
  function MembershipBucket(raw: RawEvent): Option<BucketId> {
    if IsMembershipEvent(raw.name) && raw.decoded.StorageProvider? && BlockEventOf(raw.decoded.event).Some?
    then Some(BlockEventOf(raw.decoded.event).value.bucketId) else None
  }

  lemma {:induction false} EventIsKept(items: seq<Option<RawEvent>>, blockNumber: nat, raw: RawEvent)
    requires Some(raw) in items && EventFor(raw, blockNumber).Some?
    ensures EventFor(raw, blockNumber).value in EventsFor(items, blockNumber)
    decreases |items|
  {
    hide EventFor;
    var (init, last) := (items[..|items| - 1], items[|items| - 1]);
    if last != Some(raw) {
      EventIsKept(init, blockNumber, raw);
    }
  }

  /** Every iterable membership event of a block, decodable or not, is among what the coordinators are told. */
  lemma MembershipIsTold(items: seq<Option<RawEvent>>, blockNumber: nat, raw: RawEvent)
    requires Some(raw) in items && WellNamed(raw) && IsMembershipEvent(raw.name)
    ensures var told := EventsFor(items, blockNumber);
      if raw.decoded.Undecodable? then MembershipScopeUnknown(blockNumber) in told
      else raw.decoded.StorageProvider? && MembershipChanged(raw.decoded.event.bucketId) in told
  {
    if raw.decoded.StorageProvider? {
      FilterIsExact(raw.decoded.event);
    }
    EventIsKept(items, blockNumber, raw);
  }

  /** And nothing is told that no event of the block says. */
  lemma {:induction false} OnlyWhatHappened(items: seq<Option<RawEvent>>, blockNumber: nat, e: BlockEvent)
    requires e in EventsFor(items, blockNumber)
    ensures exists item <- items :: item.Some? && EventFor(item.value, blockNumber) == Some(e)
    decreases |items|
  {
    hide EventFor;
    var (init, last) := (items[..|items| - 1], items[|items| - 1]);
    if e in EventsFor(init, blockNumber) {
      OnlyWhatHappened(init, blockNumber, e);
      var item :| item in init && item.Some? && EventFor(item.value, blockNumber) == Some(e);
      assert item in items;
    } else {
      assert last in items;
    }
  }

  // ---- What the events of a block say ----

  /** `e` is what the event `raw` of this block says to the coordinators. */
  predicate Says(raw: RawEvent, blockNumber: nat, e: BlockEvent) {
    match e
    case ChallengeRaised(deadline, index, bucketId, provider) =>
      raw.decoded == StorageProvider(ChallengeCreated(deadline, index, bucketId, provider))
    case ReplicaEstablished(bucketId, provider) =>
      raw.decoded == StorageProvider(ReplicaAgreementEstablished(bucketId, provider))
    case Checkpointed(bucketId) => raw.decoded == StorageProvider(BucketCheckpointed(bucketId))
    case MembershipChanged(bucketId) =>
      || raw.decoded == StorageProvider(BucketCreated(bucketId))
      || raw.decoded == StorageProvider(MemberSet(bucketId))
      || raw.decoded == StorageProvider(MemberRemoved(bucketId))
      || raw.decoded == StorageProvider(BucketDeleted(bucketId))
      || raw.decoded == StorageProvider(BucketVisibilityChanged(bucketId))
    case MembershipScopeUnknown(atBlock) =>
      && raw.decoded == Undecodable && atBlock == blockNumber
      && (raw.name == NameBucketCreated || raw.name == NameMemberSet || raw.name == NameMemberRemoved
          || raw.name == NameBucketDeleted || raw.name == NameBucketVisibilityChanged)
    case Resubscribed(_) => false
  }

  /** The event `raw` is about the registration of this provider. */
  predicate IsAbout(raw: RawEvent, provider: Account) {
    || raw.decoded == StorageProvider(ProviderRegistered(provider))
    || raw.decoded == StorageProvider(ProviderSettingsUpdated(provider))
    || raw.decoded == StorageProvider(ProviderMultiaddrUpdated(provider))
    || raw.decoded == StorageProvider(DeregisterAnnounced(provider))
    || raw.decoded == StorageProvider(DeregisterCancelled(provider))
    || raw.decoded == StorageProvider(ProviderDeregistered(provider))
  }

  /** An event says what it becomes, and nothing else. */
  lemma SaysWhatItBecomes(raw: RawEvent, blockNumber: nat)
    ensures forall e :: Says(raw, blockNumber, e) <==> EventFor(raw, blockNumber) == Some(e)
    ensures forall provider: Account :: IsAbout(raw, provider) <==> AccountFor(raw) == Some(provider)
  {
  }

  /** Item number `at[i]` of the block gave `told[i]`; the numbers ascend, so items keep their order and tell once. */
  ghost predicate Picks<T(!new)>(
    items: seq<Option<RawEvent>>, told: seq<T>, at: seq<nat>, says: (RawEvent, T) -> bool)
  {
    && |at| == |told|
    && (forall i, j | 0 <= i < j < |at| :: at[i] < at[j])
    && (forall i | 0 <= i < |at| :: at[i] < |items| && items[at[i]].Some? && says(items[at[i]].value, told[i]))
    && (forall n: nat, e: T | n < |items| && items[n].Some? && says(items[n].value, e) :: n in at)
  }

  lemma OneMorePick<T(!new)>(
    items: seq<Option<RawEvent>>, told: seq<T>, at: seq<nat>, says: (RawEvent, T) -> bool, more: Option<T>)
    returns (at': seq<nat>)
    requires items != [] && Picks(items[..|items| - 1], told, at, says)
    requires var last := items[|items| - 1];
      forall e: T :: (last.Some? && says(last.value, e)) <==> more == Some(e)
    ensures Picks(items, told + Listed(more), at', says)
  {
    var n := |items| - 1;
    at' := at + (if more.Some? then [n] else []);
    forall m: nat, e: T | m < |items| && items[m].Some? && says(items[m].value, e) ensures m in at' {
      if m < n {
        assert items[..n][m] == items[m];
      }
    }
    forall i | 0 <= i < |at'|
      ensures at'[i] < |items| && items[at'[i]].Some? && says(items[at'[i]].value, (told + Listed(more))[i])
    {
      if i < |at| {
        assert items[..n][at[i]] == items[at[i]];
      }
    }
  }

  /**
   The coordinators are told exactly what the events of the block say, each event once
   and in the order of the block: challenges, replica agreements and checkpoints with
   their fields, membership changes by bucket, and undecodable ones as such.
   */
  lemma {:induction false} BlockIsTold(items: seq<Option<RawEvent>>, blockNumber: nat) returns (at: seq<nat>)
    ensures Picks(items, EventsFor(items, blockNumber), at, (raw: RawEvent, e: BlockEvent) => Says(raw, blockNumber, e))
    decreases |items|
  {
    hide EventFor, Says;
    var says := (raw: RawEvent, e: BlockEvent) => Says(raw, blockNumber, e);
    if items == [] {
      at := [];
    } else {
      var (init, last) := (items[..|items| - 1], items[|items| - 1]);
      at := BlockIsTold(init, blockNumber);
      if last.Some? { SaysWhatItBecomes(last.value, blockNumber); }
      at := OneMorePick(items, EventsFor(init, blockNumber), at, says,
                        if last.Some? then EventFor(last.value, blockNumber) else None);
    }
  }

  /** And the providers of the lifecycle events of the block, each event once and in order. */
  lemma {:induction false} LifecycleIsTold(items: seq<Option<RawEvent>>) returns (at: seq<nat>)
    ensures Picks(items, AccountsFor(items), at, IsAbout)
    decreases |items|
  {
    hide AccountFor, IsAbout;
    if items == [] {
      at := [];
    } else {
      var (init, last) := (items[..|items| - 1], items[|items| - 1]);
      at := LifecycleIsTold(init);
      if last.Some? { SaysWhatItBecomes(last.value, 0); }
      at := OneMorePick(items, AccountsFor(init), at, IsAbout, if last.Some? then AccountFor(last.value) else None);
    }
  }
}
