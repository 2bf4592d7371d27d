/**
 * What the registry holds, told from what happened alone: which workers are known and listed, what they were started
 * with, who a request is subscribed to, whose turn it is and when a worker was last used.
 */
module WorkerHistories {
  import opened WorkerRegistries

  // ----- where the workers are -----

  /** The starts, in the order that numbers the workers. */
  function StartsOf(events: seq<Event>): (starts: seq<Event>)
    ensures forall i :: 0 <= i < |starts| ==> starts[i].Starts?
  {
    if events == [] then []
    else
      var last := events[|events| - 1];
      StartsOf(events[..|events| - 1]) + if last.Starts? then [last] else []
  }

  /** The workers that were started and not removed since. */
  ghost function Known(events: seq<Event>): set<nat> {
    if events == [] then {}
    else
      var before := events[..|events| - 1];
      match events[|events| - 1]
      case Starts(_, _, _, _) => Known(before) + {|StartsOf(before)|}
      case Removes(worker) => Known(before) - {worker}
      case _ => Known(before)
  }

  /** The workers that were started and neither unlisted nor removed since. */
  ghost function Listed(events: seq<Event>): set<nat> {
    if events == [] then {}
    else
      var before := events[..|events| - 1];
      match events[|events| - 1]
      case Starts(_, _, _, _) => Listed(before) + {|StartsOf(before)|}
      case Removes(worker) => Listed(before) - {worker}
      case Unlists(worker) => Listed(before) - {worker}
      case _ => Listed(before)
  }

  predicate StartedAt(starts: seq<Event>, worker: nat, workerPath: string, id: string) {
    worker < |starts| && starts[worker].Starts? && starts[worker].workerPath == workerPath && starts[worker].id == id
  }

  predicate StartedWith(starts: seq<Event>, worker: nat, channel: nat) {
    worker < |starts| && starts[worker].Starts? && starts[worker].channel == channel
  }

  ghost predicate EntriesAre(entries: map<nat, Entry>, starts: seq<Event>, known: set<nat>) {
    && entries.Keys == known
    && forall worker: nat, p, i ::
         HasPlace(entries, worker, p, i) <==> worker in known && StartedAt(starts, worker, p, i)
  }

  ghost predicate ChannelsAre(channels: map<nat, nat>, starts: seq<Event>, known: set<nat>) {
    && channels.Keys == known
    && forall worker: nat :: worker in channels ==> StartedWith(starts, worker, channels[worker])
  }

  ghost predicate ListingsAre(workers: Listings, starts: seq<Event>, listed: set<nat>) {
    forall p, i, worker: nat :: IsListed(workers, p, i, worker) <==> worker in listed && StartedAt(starts, worker, p, i)
  }

  /** Who is known has an entry and a channel as it was started, and who is listed is under the path and id it got. */
  ghost predicate PlacesAre(w: World, starts: seq<Event>, known: set<nat>, listed: set<nat>) {
    && w.nextWorker == |starts|
    && EntriesAre(w.registry.entries, starts, known)
    && ChannelsAre(w.registry.channels, starts, known)
    && ListingsAre(w.registry.workers, starts, listed)
  }

  lemma StartPlaces(w: World, e: Event, starts: seq<Event>, known: set<nat>, listed: set<nat>)
    requires Valid(w) && IsAllowed(w, e) && e.Starts? && PlacesAre(w, starts, known, listed)
    ensures PlacesAre(Step(w, e), starts + [e], known + {|starts|}, listed + {|starts|})
  {
    hide KeepNoEmptyPath, AreHeld, LoadsAreHeld, HaveOwnPlaces, IsListed, HasPlace, EntriesAre, ListingsAre;
    FreePlace(w, e);
    OneMoreEntry(w.registry, Entry(e.workerPath, e.id, e.now), e, starts, known);
    OneMoreListing(w.registry, Entry(e.workerPath, e.id, e.now), e, starts, listed);
  }

  lemma OneMoreEntry(r: Registry, entry: Entry, e: Event, starts: seq<Event>, known: set<nat>)
    requires e.Starts? && entry.workerPath == e.workerPath && entry.id == e.id
    requires EntriesAre(r.entries, starts, known)
    ensures EntriesAre(r.entries[|starts| := entry], starts + [e], known + {|starts|})
  {
    hide HasPlace, StartedAt;
    var after := r.entries[|starts| := entry];
    forall other: nat, p, i
      ensures HasPlace(after, other, p, i) <==> other in known + {|starts|} && StartedAt(starts + [e], other, p, i)
    {
      OneMoreStart(starts, e, other, p, i);
      OneMorePlace(r.entries, |starts|, entry, other, p, i);
    }
  }

  lemma OneMorePlace(entries: map<nat, Entry>, worker: nat, entry: Entry, other: nat, p: string, i: string)
    ensures HasPlace(entries[worker := entry], other, p, i) <==>
      if other == worker then p == entry.workerPath && i == entry.id else HasPlace(entries, other, p, i)
  {
  }

  lemma OneMoreStart(starts: seq<Event>, e: Event, other: nat, p: string, i: string)
    requires e.Starts?
    ensures StartedAt(starts + [e], other, p, i) <==>
      if other == |starts| then p == e.workerPath && i == e.id else StartedAt(starts, other, p, i)
    ensures !StartedAt(starts, |starts|, p, i)
  {
  }

  lemma OneMoreListing(r: Registry, entry: Entry, e: Event, starts: seq<Event>, listed: set<nat>)
    requires e.Starts? && entry.workerPath == e.workerPath && entry.id == e.id
    requires ListingsAre(r.workers, starts, listed) && AreKnown(r.workers, r.entries)
    requires forall other: nat :: !HasPlace(r.entries, other, entry.workerPath, entry.id)
    ensures ListingsAre(Add(r, |starts|, entry, e.channel).workers, starts + [e], listed + {|starts|})
  {
    hide HasPlace, StartedAt, IsListed, Add;
    var after := Add(r, |starts|, entry, e.channel).workers;
    forall p, i, other: nat
      ensures IsListed(after, p, i, other) <==> other in listed + {|starts|} && StartedAt(starts + [e], other, p, i)
    {
      OneMoreStart(starts, e, other, p, i);
      AddsOne(r, |starts|, entry, e.channel, p, i, other);
    }
  }

  lemma AddsOne(r: Registry, worker: nat, entry: Entry, channel: nat, p: string, i: string, other: nat)
    ensures IsListed(Add(r, worker, entry, channel).workers, p, i, other) <==>
      if p == entry.workerPath && i == entry.id then other == worker else IsListed(r.workers, p, i, other)
  {
  }

  lemma FreePlace(w: World, e: Event)
    requires IsAllowed(w, e) && e.Starts?
    ensures forall other: nat :: !HasPlace(w.registry.entries, other, e.workerPath, e.id)
  {
  }

  lemma UnlistPlaces(w: World, e: Event, starts: seq<Event>, known: set<nat>, listed: set<nat>)
    requires Valid(w) && e.Unlists? && PlacesAre(w, starts, known, listed)
    ensures PlacesAre(Step(w, e), starts, known, listed - {e.worker})
  {
    hide KeepNoEmptyPath, AreHeld, LoadsAreHeld, HaveOwnPlaces, IsListed, EntriesAre, ChannelsAre, StartedAt, Unlist;
    UnlistOnly(w.registry, e.worker);
    UnlistedIsNowhere(w.registry, e.worker);
  }

  lemma RemovePlaces(w: World, e: Event, starts: seq<Event>, known: set<nat>, listed: set<nat>)
    requires Valid(w) && e.Removes? && PlacesAre(w, starts, known, listed)
    ensures PlacesAre(Step(w, e), starts, known - {e.worker}, listed - {e.worker})
  {
    hide KeepNoEmptyPath, AreHeld, LoadsAreHeld, HaveOwnPlaces, IsListed, StartedAt, StartedWith, Unlist, Without;
    UnlistOnly(w.registry, e.worker);
    UnlistedIsNowhere(w.registry, e.worker);
    assert Step(w, e).registry.entries.Keys == known - {e.worker};
    assert Step(w, e).registry.channels.Keys == known - {e.worker};
  }

  lemma OtherPlaces(w: World, e: Event, starts: seq<Event>, known: set<nat>, listed: set<nat>)
    requires !e.Starts? && !e.Unlists? && !e.Removes? && PlacesAre(w, starts, known, listed)
    ensures PlacesAre(Step(w, e), starts, known, listed)
  {
    hide EntriesAre, ChannelsAre, ListingsAre, Without;
    if e.Releases? && e.lease < |w.workerOf| && w.workerOf[e.lease] in w.registry.entries {
      UsedPlaces(w.registry.entries, w.workerOf[e.lease], e.now, starts, known);
    }
  }

  lemma UsedPlaces(entries: map<nat, Entry>, worker: nat, now: int, starts: seq<Event>, known: set<nat>)
    requires worker in entries && EntriesAre(entries, starts, known)
    ensures EntriesAre(entries[worker := entries[worker].(lastUsed := now)], starts, known)
  {
    hide StartedAt;
    var after := entries[worker := entries[worker].(lastUsed := now)];
    assert forall other: nat, p, i :: HasPlace(after, other, p, i) <==> HasPlace(entries, other, p, i);
  }

  /**
   * In every run that the pool allows itself a worker is in the registry exactly when it was started and not removed,
   * under the path, the id and the channel it was started with, and it is listed there exactly when it was not unlisted
   * either.
   */
  lemma {:induction false} EveryWorkerHasItsPlace(events: seq<Event>)
    requires IsAllowedRun(events)
    ensures PlacesAre(Run(events), StartsOf(events), Known(events), Listed(events))
  {
    hide Valid, Step, PlacesAre, IsAllowed;
    if events == [] {
      NoPlaces();
    } else {
      var before, e := events[..|events| - 1], events[|events| - 1];
      EveryWorkerHasItsPlace(before);
      EveryRunIsValid(before);
      var w, starts, known, listed := Run(before), StartsOf(before), Known(before), Listed(before);
      assert starts + [] == starts;
      match e
      case Starts(_, _, _, _) => StartPlaces(w, e, starts, known, listed);
      case Unlists(_) => UnlistPlaces(w, e, starts, known, listed);
      case Removes(_) => RemovePlaces(w, e, starts, known, listed);
      case _ => OtherPlaces(w, e, starts, known, listed);
    }
  }

  lemma NoPlaces()
    ensures PlacesAre(Run([]), [], {}, {})
  {
  }

  // ----- who a request is subscribed to -----

  /** The lease that subscribed last with the id of the request. */
  function LastSubscribed(events: seq<Event>, requestId: string): int {
    if events == [] then -1
    else
      match events[|events| - 1]
      case Subscribes(lease, id) =>
        if id == requestId then lease else LastSubscribed(events[..|events| - 1], requestId)
      case _ => LastSubscribed(events[..|events| - 1], requestId)
  }

  ghost predicate IsLastSubscribed(w: World, requestId: string, last: int) {
    var subscriptions := w.registry.subscriptions;
    && last < |w.workerOf|
    && (requestId in subscriptions <==> last in w.held)
    && (requestId in subscriptions ==> subscriptions[requestId] == last)
  }

  lemma StepSubscribed(w: World, e: Event, requestId: string, last: int)
    requires Valid(w) && IsAllowed(w, e) && IsLastSubscribed(w, requestId, last)
    ensures IsLastSubscribed(Step(w, e), requestId,
      if e.Subscribes? && e.requestId == requestId then e.lease else last)
  {
    hide HaveOwnPlaces, AreKnown, KeepNoEmptyPath, AreTheSame, IsLoad, Without, Unlist, AreHeld;
    var r := w.registry;
    match e
    case Removes(worker) =>
      WithoutMeaning(r.subscriptions, r.requestOf, w.held, LeasesOf(r, worker));
      WithoutSame(r.subscriptions, r.requestOf, LeasesOf(r, worker));
    case Releases(lease, _) =>
      WithoutMeaning(r.subscriptions, r.requestOf, w.held, {lease});
      WithoutSame(r.subscriptions, r.requestOf, {lease});
    case Unlists(worker) => UnlistOnly(r, worker);
    case _ =>
  }

  lemma WithoutSame(subscriptions: Subscriptions, requestOf: map<nat, string>, leases: set<nat>)
    ensures forall requestId :: requestId in Without(subscriptions, requestOf, leases) ==>
      requestId in subscriptions && Without(subscriptions, requestOf, leases)[requestId] == subscriptions[requestId]
  {
  }

  /**
   * In every such run a request is subscribed exactly while the lease that took its id last is held, and to that one.
   */
  lemma {:induction false} TheLastSubscriptionHolds(events: seq<Event>, requestId: string)
    requires IsAllowedRun(events)
    ensures IsLastSubscribed(Run(events), requestId, LastSubscribed(events, requestId))
  {
    hide Valid, Step, IsLastSubscribed, IsAllowed;
    if events == [] {
      NoneSubscribed(requestId);
    } else {
      var before := events[..|events| - 1];
      TheLastSubscriptionHolds(before, requestId);
      EveryRunIsValid(before);
      StepSubscribed(Run(before), events[|events| - 1], requestId, LastSubscribed(before, requestId));
    }
  }

  lemma NoneSubscribed(requestId: string)
    ensures IsLastSubscribed(Run([]), requestId, -1)
  {
  }

  // ----- turns and times -----

  /** How many turns were taken of the path since it has workers. */
  ghost function TurnsOf(events: seq<Event>, workerPath: string): nat {
    if events == [] then 0
    else
      var before, starts := TurnsOf(events[..|events| - 1], workerPath), StartsOf(events);
      if forall worker: nat, id :: worker in Listed(events) ==> !StartedAt(starts, worker, workerPath, id) then 0
      else before + if events[|events| - 1] == Turns(workerPath) then 1 else 0
  }

  lemma StepTurns(w: World, e: Event, workerPath: string)
    requires Valid(w) && IsAllowed(w, e)
    ensures CursorOf(Step(w, e).registry, workerPath) ==
      if workerPath !in Step(w, e).registry.workers then 0
      else CursorOf(w.registry, workerPath) + if e == Turns(workerPath) then 1 else 0
  {
    hide HaveOwnPlaces, AreKnown, AreTheSame, AreHeld, LoadsAreHeld, Without, Unlist;
    match e
    case Unlists(worker) => UnlistTurns(w.registry, worker, workerPath);
    case Removes(worker) => UnlistTurns(w.registry, worker, workerPath);
    case _ =>
  }

  lemma UnlistTurns(r: Registry, worker: nat, workerPath: string)
    requires KeepNoEmptyPath(r.workers, r.cursors)
    ensures CursorOf(Unlist(r, worker), workerPath) ==
      if workerPath !in Unlist(r, worker).workers then 0 else CursorOf(r, workerPath)
  {
  }

  lemma PathHasWorkers(w: World, workerPath: string, starts: seq<Event>, known: set<nat>, listed: set<nat>)
    requires Valid(w) && PlacesAre(w, starts, known, listed)
    ensures workerPath !in w.registry.workers <==>
      forall worker: nat, id :: worker in listed ==> !StartedAt(starts, worker, workerPath, id)
  {
    hide HaveOwnPlaces, AreKnown, AreTheSame, AreHeld, LoadsAreHeld, StartedAt, EntriesAre, ChannelsAre;
    if workerPath in w.registry.workers {
      var id :| id in w.registry.workers[workerPath];
      assert IsListed(w.registry.workers, workerPath, id, w.registry.workers[workerPath][id]);
    } else {
      assert forall worker: nat, id :: !IsListed(w.registry.workers, workerPath, id, worker);
    }
  }

  /** In every such run the turns of a path are counted from the start of its first worker to the end of its last. */
  lemma {:induction false} TurnsAreCounted(events: seq<Event>, workerPath: string)
    requires IsAllowedRun(events)
    ensures CursorOf(Run(events).registry, workerPath) == TurnsOf(events, workerPath)
  {
    hide Valid, Step, IsAllowed, PlacesAre, StartedAt;
    if events != [] {
      var before := events[..|events| - 1];
      TurnsAreCounted(before, workerPath);
      EveryRunIsValid(before);
      EveryRunIsValid(events);
      EveryWorkerHasItsPlace(events);
      PathHasWorkers(Run(events), workerPath, StartsOf(events), Known(events), Listed(events));
      StepTurns(Run(before), events[|events| - 1], workerPath);
    }
  }

  /** When the worker was started, or was last left without a request by one that was released. */
  ghost function UsedAt(events: seq<Event>, worker: nat): int {
    if events == [] then 0
    else
      var before := events[..|events| - 1];
      match events[|events| - 1]
      case Starts(_, _, _, now) => if worker == |StartsOf(before)| then now else UsedAt(before, worker)
      case Releases(lease, now) =>
        if LeftFree(Run(before), worker, lease) then now else UsedAt(before, worker)
      case _ => UsedAt(before, worker)
  }

  /** The lease is one of the worker, and no other is held. */
  ghost predicate LeftFree(w: World, worker: nat, lease: nat) {
    && lease < |w.workerOf| && w.workerOf[lease] == worker
    && forall other :: other in w.held && other != lease && other < |w.workerOf| ==> w.workerOf[other] != worker
  }

  lemma ReleaseUses(w: World, lease: nat, now: int, worker: nat)
    requires Valid(w) && worker in w.registry.entries
    ensures var after := Step(w, Releases(lease, now)).registry;
      worker in after.entries && after.entries[worker].lastUsed
        == if LeftFree(w, worker, lease) then now else w.registry.entries[worker].lastUsed
  {
    hide HaveOwnPlaces, AreKnown, KeepNoEmptyPath, AreHeld, Without;
    var leases := w.registry.leases;
    if lease < |w.workerOf| && w.workerOf[lease] == worker {
      var left := leases[worker] - {lease};
      if LeftFree(w, worker, lease) {
        forall other ensures other !in left {
          assert other in leases[worker] ==> IsLoad(leases, worker, other);
        }
        assert left == {};
      } else {
        var other :| other in w.held && other != lease && other < |w.workerOf| && w.workerOf[other] == worker;
        assert IsLoad(leases, worker, other) && other in left;
      }
    }
  }

  lemma OthersUse(w: World, e: Event, worker: nat)
    requires Valid(w) && worker in w.registry.entries && worker in Step(w, e).registry.entries && !e.Releases?
    ensures Step(w, e).registry.entries[worker] == w.registry.entries[worker]
  {
    hide HaveOwnPlaces, AreKnown, KeepNoEmptyPath, AreHeld, LoadsAreHeld, Without, Unlist;
    match e
    case Unlists(other) => UnlistOnly(w.registry, other);
    case Removes(other) => UnlistOnly(w.registry, other);
    case _ =>
  }

  /** In every such run the worker that is idle is so since then. */
  lemma {:induction false} LastUsedIsWhenItGotFree(events: seq<Event>, worker: nat)
    requires IsAllowedRun(events) && worker in Run(events).registry.entries
    ensures Run(events).registry.entries[worker].lastUsed == UsedAt(events, worker)
  {
    hide Valid, IsAllowed, PlacesAre, LeftFree, Add, Unlist, Remove, AddLease, Release, Subscribe, NextCursor;
    if events != [] {
      var before, e := events[..|events| - 1], events[|events| - 1];
      EveryRunIsValid(before);
      EveryWorkerHasItsPlace(before);
      NumberOf(before);
      if e.Starts? && worker == |StartsOf(before)| {
        AddUses(Run(before).registry, worker, Entry(e.workerPath, e.id, e.now), e.channel);
      } else {
        StaysKnown(Run(before), e, worker);
        LastUsedIsWhenItGotFree(before, worker);
        if e.Releases? {
          ReleaseUses(Run(before), e.lease, e.now, worker);
        } else {
          OthersUse(Run(before), e, worker);
        }
      }
    }
  }

  lemma NumberOf(events: seq<Event>)
    requires PlacesAre(Run(events), StartsOf(events), Known(events), Listed(events))
    ensures Run(events).nextWorker == |StartsOf(events)|
  {
  }

  lemma AddUses(r: Registry, worker: nat, entry: Entry, channel: nat)
    ensures Add(r, worker, entry, channel).entries == r.entries[worker := entry]
  {
  }

  lemma StaysKnown(w: World, e: Event, worker: nat)
    requires worker in Step(w, e).registry.entries && !(e.Starts? && worker == w.nextWorker)
    ensures worker in w.registry.entries
  {
    hide Without, Unlist;
    match e
    case Unlists(other) => UnlistOnly(w.registry, other);
    case Removes(other) => UnlistOnly(w.registry, other);
    case _ =>
  }

  // ----- which leases are held -----

  /** The workers that leases were asked for, in the order that numbers the leases. */
  function MadeFor(events: seq<Event>): seq<nat> {
    if events == [] then []
    else
      var last := events[|events| - 1];
      MadeFor(events[..|events| - 1]) + if last.Leases? then [last.worker] else []
  }

  /** The leases made for a known worker that were not released, and whose worker was not removed since. */
  ghost function StillHeld(events: seq<Event>): set<nat> {
    if events == [] then {}
    else
      var before := events[..|events| - 1];
      match events[|events| - 1]
      case Leases(worker) => StillHeld(before) + if worker in Known(before) then {|MadeFor(before)|} else {}
      case Releases(lease, _) => StillHeld(before) - {lease}
      case Removes(worker) => StillHeld(before) - OfWorker(StillHeld(before), MadeFor(before), worker)
      case _ => StillHeld(before)
  }

  ghost function OfWorker(leases: set<nat>, madeFor: seq<nat>, worker: nat): set<nat> {
    set lease | lease in leases && lease < |madeFor| && madeFor[lease] == worker
  }

  lemma LeasesAreOfWorker(w: World, worker: nat)
    requires Valid(w)
    ensures LeasesOf(w.registry, worker) == OfWorker(w.held, w.workerOf, worker)
  {
    hide HaveOwnPlaces, AreKnown, KeepNoEmptyPath, AreHeld, AreTheSame;
    forall lease ensures lease in LeasesOf(w.registry, worker) <==> lease in OfWorker(w.held, w.workerOf, worker) {
      assert lease in LeasesOf(w.registry, worker) <==> IsLoad(w.registry.leases, worker, lease);
    }
  }

  lemma StepHolds(w: World, e: Event)
    requires Valid(w)
    ensures Step(w, e).workerOf == w.workerOf + if e.Leases? then [e.worker] else []
    ensures Step(w, e).held == match e
      case Leases(worker) => w.held + if worker in w.registry.entries then {|w.workerOf|} else {}
      case Releases(lease, _) => w.held - {lease}
      case Removes(worker) => w.held - OfWorker(w.held, w.workerOf, worker)
      case _ => w.held
  {
    hide HaveOwnPlaces, AreKnown, KeepNoEmptyPath, AreHeld, Without, OfWorker;
    if e.Removes? {
      LeasesAreOfWorker(w, e.worker);
    }
  }

  lemma {:induction false} HeldAreStillHeld(events: seq<Event>)
    requires IsAllowedRun(events)
    ensures Run(events).held == StillHeld(events) && Run(events).workerOf == MadeFor(events)
  {
    hide Valid, Step, IsAllowed, OfWorker;
    if events != [] {
      var before := events[..|events| - 1];
      HeldAreStillHeld(before);
      EveryRunIsValid(before);
      EveryWorkerHasItsPlace(before);
      StepHolds(Run(before), events[|events| - 1]);
    }
  }

  /** In every such run the load of a worker, known or not, is the number of its leases that are still held. */
  lemma LoadIsWhatIsHeld(events: seq<Event>, worker: nat)
    requires IsAllowedRun(events)
    ensures GetLoad(Run(events).registry, worker) == |OfWorker(StillHeld(events), MadeFor(events), worker)|
  {
    hide Valid, OfWorker, Run;
    EveryRunIsValid(events);
    HeldAreStillHeld(events);
    LeasesAreOfWorker(Run(events), worker);
  }
}
