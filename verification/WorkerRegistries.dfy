/**
 * What the pool keeps of its workers: six maps that are changed together, and the leases that hold the workers.
 * Workers, channels and leases are numbers; the request of a lease is a property of the lease itself.
 */
module WorkerRegistries {

  datatype Entry = Entry(workerPath: string, id: string, lastUsed: int)

  datatype Registry = Registry(
    workers: map<string, map<string, nat>>,
    entries: map<nat, Entry>,
    channels: map<nat, nat>,
    leases: map<nat, set<nat>>,
    subscriptions: map<string, nat>,
    cursors: map<string, nat>,
    requestOf: map<nat, string>)

  const EMPTY := Registry(map[], map[], map[], map[], map[], map[], map[])

  // ----- the operations -----

  function ListedFor(r: Registry, workerPath: string): map<string, nat> {
    if workerPath in r.workers then r.workers[workerPath] else map[]
  }

  function GetLoad(r: Registry, worker: nat): nat {
    if worker in r.leases then |r.leases[worker]| else 0
  }

  function Add(r: Registry, worker: nat, entry: Entry, channel: nat): Registry {
    r.(workers := r.workers[entry.workerPath := ListedFor(r, entry.workerPath)[entry.id := worker]],
       entries := r.entries[worker := entry], channels := r.channels[worker := channel],
         leases := r.leases[worker := {}])
  }

  type Listings = map<string, map<string, nat>>

  /** The workers of the paths without the one with the id, and without the path when it was the last one there. */
  function Delisted(workers: Listings, workerPath: string, id: string): Listings {
    if workerPath !in workers then workers
    else
      var listed := workers[workerPath] - {id};
      if |listed| == 0 then workers - {workerPath} else workers[workerPath := listed]
  }

  /** Takes the worker out of the listing of its path; the last one out takes the listing and the turn with it. */
  function Unlist(r: Registry, worker: nat): Registry {
    if worker !in r.entries || r.entries[worker].workerPath !in r.workers then r
    else
      var entry := r.entries[worker];
      var workers := Delisted(r.workers, entry.workerPath, entry.id);
      r.(workers := workers, cursors := if entry.workerPath in workers then r.cursors
        else r.cursors - {entry.workerPath})
  }

  type Subscriptions = map<string, nat>

  /** A lease is found under the id of its request. */
  predicate IsSubscribed(subscriptions: Subscriptions, requestOf: map<nat, string>, lease: nat, requestId: string) {
    && lease in requestOf && requestOf[lease] == requestId
    && requestId in subscriptions && subscriptions[requestId] == lease
  }

  /** The subscriptions of the leases are gone, the ones that others took over with the same id stay. */
  function Without(subscriptions: Subscriptions, requestOf: map<nat, string>, leases: set<nat>): Subscriptions {
    map requestId | requestId in subscriptions
                    && !(subscriptions[requestId] in leases
                      && IsSubscribed(subscriptions, requestOf, subscriptions[requestId], requestId))
                  :: subscriptions[requestId]
  }

  function LeasesOf(r: Registry, worker: nat): set<nat> {
    if worker in r.leases then r.leases[worker] else {}
  }

  function Remove(r: Registry, worker: nat): Registry {
    Unlist(r, worker).(leases := r.leases - {worker}, channels := r.channels - {worker},
      entries := r.entries - {worker},
                       subscriptions := Without(r.subscriptions, r.requestOf, LeasesOf(r, worker)))
  }

  function AddLease(r: Registry, worker: nat, lease: nat): Registry {
    if worker in r.leases then r.(leases := r.leases[worker := r.leases[worker] + {lease}]) else r
  }

  function RemoveLease(r: Registry, worker: nat, lease: nat): Registry {
    r.(leases := if worker in r.leases then r.leases[worker := r.leases[worker] - {lease}] else r.leases,
       subscriptions := Without(r.subscriptions, r.requestOf, {lease}))
  }

  function Subscribe(r: Registry, lease: nat, requestId: string): Registry {
    r.(requestOf := r.requestOf[lease := requestId], subscriptions := r.subscriptions[requestId := lease])
  }

  function CursorOf(r: Registry, workerPath: string): nat {
    if workerPath in r.cursors then r.cursors[workerPath] else 0
  }

  function NextCursor(r: Registry, workerPath: string): Registry {
    r.(cursors := r.cursors[workerPath := CursorOf(r, workerPath) + 1])
  }

  /** A lease is released: a worker without requests is idle from then on. */
  function Release(r: Registry, worker: nat, lease: nat, now: int): Registry {
    var removed := RemoveLease(r, worker, lease);
    if worker in removed.entries && GetLoad(removed, worker) == 0 then
      removed.(entries := removed.entries[worker := removed.entries[worker].(lastUsed := now)])
    else removed
  }

  // ----- whole runs -----

  /**
   * The registry, with the worker that each lease was made for, in the order they were made, and the leases not given
   * back yet.
   */
  datatype World = World(registry: Registry, workerOf: seq<nat>, held: set<nat>, nextWorker: nat)

  datatype Event =
    | Starts(workerPath: string, id: string, channel: nat, now: int)
    | Unlists(worker: nat)
    | Removes(worker: nat)
    | Leases(worker: nat)
    | Subscribes(lease: nat, requestId: string)
    | Releases(lease: nat, now: int)
    | Turns(workerPath: string)

  function Step(w: World, event: Event): World {
    match event
    case Starts(workerPath, id, channel, now) =>
      w.(registry := Add(w.registry, w.nextWorker, Entry(workerPath, id, now), channel), nextWorker := w.nextWorker + 1)
    case Unlists(worker) => w.(registry := Unlist(w.registry, worker))
    case Removes(worker) => w.(registry := Remove(w.registry, worker), held := w.held - LeasesOf(w.registry, worker))
    case Leases(worker) =>
      var lease := |w.workerOf|;
      w.(registry := AddLease(w.registry, worker, lease), workerOf := w.workerOf + [worker],
         held := if worker in w.registry.leases then w.held + {lease} else w.held)
    case Subscribes(lease, requestId) => w.(registry := Subscribe(w.registry, lease, requestId))
    case Releases(lease, now) =>
      if lease >= |w.workerOf| then w
      else w.(registry := Release(w.registry, w.workerOf[lease], lease, now), held := w.held - {lease})
    case Turns(workerPath) => w.(registry := NextCursor(w.registry, workerPath))
  }

  /**
   * What the pool keeps to: no two workers it knows have a path and an id in common, a lease that is held subscribes
   * once, and only the workers of a path take turns.
   */
  predicate IsAllowed(w: World, event: Event) {
    match event
    case Starts(workerPath, id, _, _) =>
      forall worker <- w.registry.entries ::
        !(w.registry.entries[worker].workerPath == workerPath && w.registry.entries[worker].id == id)
    case Subscribes(lease, _) => lease in w.held && lease !in w.registry.requestOf
    case Turns(workerPath) => workerPath in w.registry.workers
    case _ => true
  }

  function Run(events: seq<Event>): World {
    if events == [] then World(EMPTY, [], {}, 0) else Step(Run(events[..|events| - 1]), events[|events| - 1])
  }

  predicate IsAllowedRun(events: seq<Event>) {
    events == [] || (IsAllowedRun(events[..|events| - 1])
      && IsAllowed(Run(events[..|events| - 1]), events[|events| - 1]))
  }

  // ----- what every step keeps, map by map -----

  predicate IsListed(workers: Listings, workerPath: string, id: string, worker: nat) {
    workerPath in workers && id in workers[workerPath] && workers[workerPath][id] == worker
  }

  /** Entries, channels and leases are of the same workers. */
  ghost predicate AreTheSame(r: Registry) {
    r.entries.Keys == r.channels.Keys && r.entries.Keys == r.leases.Keys
  }

  predicate HasPlace(entries: map<nat, Entry>, worker: nat, workerPath: string, id: string) {
    worker in entries && entries[worker].workerPath == workerPath && entries[worker].id == id
  }

  /** No two workers have a path and an id in common. */
  ghost predicate HaveOwnPlaces(entries: map<nat, Entry>) {
    forall a: nat, b: nat, p, i :: HasPlace(entries, a, p, i) && HasPlace(entries, b, p, i) ==> a == b
  }

  /** A listed worker is known, under the path and the id of its entry. */
  ghost predicate AreKnown(workers: Listings, entries: map<nat, Entry>) {
    forall p, i, worker: nat :: IsListed(workers, p, i, worker) ==> HasPlace(entries, worker, p, i)
  }

  /** No path keeps an empty map, or a turn without a map. */
  ghost predicate KeepNoEmptyPath(workers: Listings, cursors: map<string, nat>) {
    (forall p :: p in workers ==> workers[p] != map[]) && forall p :: p in cursors ==> p in workers
  }

  /** Every subscription is the one of a lease that is held. */
  ghost predicate AreHeld(subscriptions: Subscriptions, requestOf: map<nat, string>, held: set<nat>) {
    && (forall requestId :: requestId in subscriptions ==> subscriptions[requestId] in held)
    && (forall requestId :: requestId in subscriptions ==>
          IsSubscribed(subscriptions, requestOf, subscriptions[requestId], requestId))
  }

  predicate IsLoad(leases: map<nat, set<nat>>, worker: nat, lease: nat) {
    worker in leases && lease in leases[worker]
  }

  /** The load of a worker are the leases made for it that are held. */
  ghost predicate LoadsAreHeld(leases: map<nat, set<nat>>, workerOf: seq<nat>, held: set<nat>) {
    && (forall worker: nat, lease: nat :: IsLoad(leases, worker, lease) ==>
        lease < |workerOf| && workerOf[lease] == worker && lease in held)
    && (forall lease: nat :: lease in held ==> lease < |workerOf| && IsLoad(leases, workerOf[lease], lease))
  }

  ghost predicate AreBelow(entries: map<nat, Entry>, next: nat) {
    forall worker :: worker in entries ==> worker < next
  }

  ghost predicate Valid(w: World) {
    var r := w.registry;
    && AreTheSame(r) && HaveOwnPlaces(r.entries) && AreBelow(r.entries, w.nextWorker)
    && AreKnown(r.workers, r.entries) && KeepNoEmptyPath(r.workers, r.cursors)
    && AreHeld(r.subscriptions, r.requestOf, w.held) && LoadsAreHeld(r.leases, w.workerOf, w.held)
  }

  lemma StartValid(w: World, workerPath: string, id: string, channel: nat, now: int)
    requires Valid(w) && IsAllowed(w, Starts(workerPath, id, channel, now))
    ensures Valid(Step(w, Starts(workerPath, id, channel, now)))
  {
    hide AreKnown, KeepNoEmptyPath, HaveOwnPlaces, AreHeld, LoadsAreHeld, IsListed;
    var r, entry := w.registry, Entry(workerPath, id, now);
    var after := Add(r, w.nextWorker, entry, channel);
    assert after.entries.Keys == r.entries.Keys + {w.nextWorker};
    assert after.channels.Keys == r.channels.Keys + {w.nextWorker};
    assert after.leases.Keys == r.leases.Keys + {w.nextWorker};
    NewPlace(r.entries, w.nextWorker, entry);
    AddListed(r, w.nextWorker, entry, channel);
    NoLoadYet(r.leases, w.nextWorker, w.workerOf, w.held);
  }

  lemma NewPlace(entries: map<nat, Entry>, worker: nat, entry: Entry)
    requires HaveOwnPlaces(entries) && worker !in entries
    requires forall other: nat :: !HasPlace(entries, other, entry.workerPath, entry.id)
    ensures HaveOwnPlaces(entries[worker := entry])
    ensures forall other: nat, p, i :: HasPlace(entries, other, p, i) ==>
      HasPlace(entries[worker := entry], other, p, i)
  {
    var more := entries[worker := entry];
    forall other: nat, p, i
      ensures HasPlace(more, other, p, i)
        <==> HasPlace(entries, other, p, i) || (other == worker && p == entry.workerPath && i == entry.id)
    {
    }
  }

  lemma AddListed(r: Registry, worker: nat, entry: Entry, channel: nat)
    requires AreKnown(r.workers, r.entries) && KeepNoEmptyPath(r.workers, r.cursors)
    requires forall other: nat, p, i :: HasPlace(r.entries, other, p, i) ==>
      HasPlace(r.entries[worker := entry], other, p, i)
    ensures var after := Add(r, worker, entry, channel);
      AreKnown(after.workers, after.entries) && KeepNoEmptyPath(after.workers, after.cursors)
  {
    hide HasPlace;
    var after := Add(r, worker, entry, channel);
    assert HasPlace(after.entries, worker, entry.workerPath, entry.id) by { ItsPlace(r.entries, worker, entry); }
    var listed := after.workers[entry.workerPath];
    assert listed[entry.id] == worker;
    forall p, i, other: nat | IsListed(after.workers, p, i, other) ensures HasPlace(after.entries, other, p, i) {
      if !(p == entry.workerPath && i == entry.id) {
        assert IsListed(r.workers, p, i, other);
      }
    }
    forall p | p in after.workers ensures after.workers[p] != map[] {
      if p == entry.workerPath {
        assert entry.id in listed;
      }
    }
  }

  lemma ItsPlace(entries: map<nat, Entry>, worker: nat, entry: Entry)
    ensures HasPlace(entries[worker := entry], worker, entry.workerPath, entry.id)
  {
  }

  lemma NoLoadYet(leases: map<nat, set<nat>>, worker: nat, workerOf: seq<nat>, held: set<nat>)
    requires LoadsAreHeld(leases, workerOf, held) && worker !in leases
    ensures LoadsAreHeld(leases[worker := {}], workerOf, held)
  {
    var more := leases[worker := {}];
    forall other: nat, lease: nat
      ensures IsLoad(more, other, lease) <==> IsLoad(leases, other, lease)
    {
    }
    assert forall lease: nat :: lease in held ==> lease < |workerOf| && IsLoad(leases, workerOf[lease], lease);
  }

  /** A worker that is unlisted is in the map of no path any more, and the others are where they were. */
  lemma UnlistedIsNowhere(r: Registry, worker: nat)
    requires HaveOwnPlaces(r.entries) && AreKnown(r.workers, r.entries)
    ensures forall p, i, other: nat ::
      IsListed(Unlist(r, worker).workers, p, i, other) <==> IsListed(r.workers, p, i, other) && other != worker
  {
    var after := Unlist(r, worker);
    forall p, i, other: nat
      ensures IsListed(after.workers, p, i, other) <==> IsListed(r.workers, p, i, other) && other != worker {
      UnlistsOne(r, worker, p, i, other);
    }
  }

  lemma DelistsOne(workers: Listings, workerPath: string, id: string, p: string, i: string, other: nat)
    ensures IsListed(Delisted(workers, workerPath, id), p, i, other)
      <==> IsListed(workers, p, i, other) && !(p == workerPath && i == id)
  {
    if workerPath in workers {
      assert i in workers[workerPath] && i != id ==> i in workers[workerPath] - {id};
    }
  }

  lemma UnlistsOne(r: Registry, worker: nat, p: string, i: string, other: nat)
    requires HaveOwnPlaces(r.entries) && AreKnown(r.workers, r.entries)
    ensures IsListed(Unlist(r, worker).workers, p, i, other) <==> IsListed(r.workers, p, i, other) && other != worker
  {
    hide HaveOwnPlaces, IsListed, Delisted;
    if worker in r.entries {
      var entry := r.entries[worker];
      DelistsOne(r.workers, entry.workerPath, entry.id, p, i, other);
      if entry.workerPath !in r.workers {
        NotListed(r.workers, entry.workerPath, p, i, other);
      }
      if IsListed(r.workers, p, i, other) && p == entry.workerPath && i == entry.id {
        SamePlace(r.entries, worker, other, p, i);
      }
    }
  }

  lemma NotListed(workers: Listings, workerPath: string, p: string, i: string, other: nat)
    requires workerPath !in workers
    ensures p == workerPath ==> !IsListed(workers, p, i, other)
  {
  }

  lemma SamePlace(entries: map<nat, Entry>, a: nat, b: nat, p: string, i: string)
    requires HaveOwnPlaces(entries) && HasPlace(entries, a, p, i) && HasPlace(entries, b, p, i)
    ensures a == b
  {
  }

  lemma UnlistKeepsPaths(r: Registry, worker: nat)
    requires KeepNoEmptyPath(r.workers, r.cursors)
    ensures KeepNoEmptyPath(Unlist(r, worker).workers, Unlist(r, worker).cursors)
  {
  }

  lemma UnlistValid(w: World, worker: nat)
    requires Valid(w)
    ensures Valid(Step(w, Unlists(worker)))
  {
    hide HaveOwnPlaces, IsListed, HasPlace, KeepNoEmptyPath, AreHeld, LoadsAreHeld;
    UnlistedIsNowhere(w.registry, worker);
    UnlistKeepsPaths(w.registry, worker);
  }

  /** The leases that are given up lose their subscriptions, the others keep theirs. */
  lemma WithoutMeaning(subscriptions: Subscriptions, requestOf: map<nat, string>, held: set<nat>, leases: set<nat>)
    requires AreHeld(subscriptions, requestOf, held)
    ensures AreHeld(Without(subscriptions, requestOf, leases), requestOf, held - leases)
    ensures forall requestId ::
      (requestId in Without(subscriptions, requestOf, leases))
      <==> (requestId in subscriptions && subscriptions[requestId] !in leases)
  {
  }

  lemma RemoveValid(w: World, worker: nat)
    requires Valid(w)
    ensures Valid(Step(w, Removes(worker)))
  {
    hide IsListed, KeepNoEmptyPath, AreHeld, LoadsAreHeld, Without, HaveOwnPlaces, AreKnown, HasPlace, Unlist;
    var r := w.registry;
    UnlistOnly(r, worker);
    KnownWithout(r, worker);
    UnlistKeepsPaths(r, worker);
    WithoutMeaning(r.subscriptions, r.requestOf, w.held, LeasesOf(r, worker));
    LoadsWithout(r.leases, worker, w.workerOf, w.held);
    assert (r.entries - {worker}).Keys == r.entries.Keys - {worker};
    assert (r.channels - {worker}).Keys == r.channels.Keys - {worker};
    assert (r.leases - {worker}).Keys == r.leases.Keys - {worker};
    FewerPlaces(r.entries, worker);
  }

  lemma UnlistOnly(r: Registry, worker: nat)
    ensures Unlist(r, worker) == r.(workers := Unlist(r, worker).workers, cursors := Unlist(r, worker).cursors)
  {
  }

  /** The workers that are still listed are among the ones that are still known. */
  lemma KnownWithout(r: Registry, worker: nat)
    requires HaveOwnPlaces(r.entries) && AreKnown(r.workers, r.entries)
    ensures AreKnown(Unlist(r, worker).workers, r.entries - {worker})
  {
    hide IsListed, HaveOwnPlaces, Unlist;
    UnlistedIsNowhere(r, worker);
  }

  lemma FewerPlaces(entries: map<nat, Entry>, worker: nat)
    requires HaveOwnPlaces(entries)
    ensures HaveOwnPlaces(entries - {worker})
  {
    assert forall a: nat, p, i :: HasPlace(entries - {worker}, a, p, i) ==> HasPlace(entries, a, p, i);
  }

  lemma LoadsWithout(leases: map<nat, set<nat>>, worker: nat, workerOf: seq<nat>, held: set<nat>)
    requires LoadsAreHeld(leases, workerOf, held)
    ensures LoadsAreHeld(leases - {worker}, workerOf, held - (if worker in leases then leases[worker] else {}))
  {
    var fewer := leases - {worker};
    forall other: nat, lease: nat
      ensures IsLoad(fewer, other, lease) <==> IsLoad(leases, other, lease) && other != worker
    {
    }
    forall lease: nat | lease in held && !(worker in leases && lease in leases[worker])
      ensures lease < |workerOf| && IsLoad(fewer, workerOf[lease], lease)
    {
      assert IsLoad(leases, workerOf[lease], lease);
    }
    if worker in leases {
      assert forall lease: nat :: lease in leases[worker] ==> IsLoad(leases, worker, lease);
    }
  }

  lemma LeaseValid(w: World, worker: nat)
    requires Valid(w)
    ensures Valid(Step(w, Leases(worker)))
  {
    hide HaveOwnPlaces, AreKnown, KeepNoEmptyPath, AreHeld, LoadsAreHeld;
    var r := w.registry;
    MoreLoad(r.leases, worker, w.workerOf, w.held);
    MoreHeld(r.subscriptions, r.requestOf, w.held, Step(w, Leases(worker)).held);
    assert AddLease(r, worker, |w.workerOf|).leases.Keys == r.leases.Keys;
  }

  lemma MoreLoad(leases: map<nat, set<nat>>, worker: nat, workerOf: seq<nat>, held: set<nat>)
    requires LoadsAreHeld(leases, workerOf, held)
    ensures if worker in leases then LoadsAreHeld(leases[worker := leases[worker] + {|workerOf|}], workerOf + [worker],
      held + {|workerOf|})
            else LoadsAreHeld(leases, workerOf + [worker], held)
  {
    if worker in leases {
      var more := leases[worker := leases[worker] + {|workerOf|}];
      assert forall other: nat, lease: nat ::
        IsLoad(more, other, lease) <==> IsLoad(leases, other, lease) || (other == worker && lease == |workerOf|);
    }
  }

  lemma MoreHeld(subscriptions: Subscriptions, requestOf: map<nat, string>, held: set<nat>, more: set<nat>)
    requires AreHeld(subscriptions, requestOf, held) && held <= more
    ensures AreHeld(subscriptions, requestOf, more)
  {
  }

  lemma SubscribeValid(w: World, lease: nat, requestId: string)
    requires Valid(w) && IsAllowed(w, Subscribes(lease, requestId))
    ensures Valid(Step(w, Subscribes(lease, requestId)))
  {
    hide HaveOwnPlaces, AreKnown, KeepNoEmptyPath, AreHeld, LoadsAreHeld;
    OneMoreSubscription(w.registry.subscriptions, w.registry.requestOf, w.held, lease, requestId);
  }

  lemma OneMoreSubscription(subscriptions: Subscriptions, requestOf: map<nat, string>, held: set<nat>, lease: nat,
          requestId: string)
    requires AreHeld(subscriptions, requestOf, held) && lease in held && lease !in requestOf
    ensures AreHeld(subscriptions[requestId := lease], requestOf[lease := requestId], held)
  {
  }

  lemma ReleaseValid(w: World, lease: nat, now: int)
    requires Valid(w)
    ensures Valid(Step(w, Releases(lease, now)))
  {
    hide HaveOwnPlaces, AreKnown, KeepNoEmptyPath, AreHeld, LoadsAreHeld, Without;
    if lease < |w.workerOf| {
      var r, worker := w.registry, w.workerOf[lease];
      var after := Release(r, worker, lease, now);
      WithoutMeaning(r.subscriptions, r.requestOf, w.held, {lease});
      LessLoad(r.leases, lease, w.workerOf, w.held);
      if worker in r.entries {
        UsedNow(r, worker, now);
      }
      assert after.entries.Keys == r.entries.Keys;
      assert after.leases.Keys == r.leases.Keys;
    }
  }

  lemma LessLoad(leases: map<nat, set<nat>>, lease: nat, workerOf: seq<nat>, held: set<nat>)
    requires LoadsAreHeld(leases, workerOf, held) && lease < |workerOf|
    ensures var worker := workerOf[lease];
      LoadsAreHeld(if worker in leases then leases[worker := leases[worker] - {lease}]
        else leases, workerOf, held - {lease})
  {
    var worker := workerOf[lease];
    if worker in leases {
      var less := leases[worker := leases[worker] - {lease}];
      forall other: nat, one: nat ensures IsLoad(less, other, one) <==> IsLoad(leases, other, one) && one != lease {
        assert IsLoad(leases, other, lease) ==> other == worker;
      }
    }
  }

  /** When a worker was last used does not decide where it is. */
  lemma UsedNow(r: Registry, worker: nat, now: int)
    requires HaveOwnPlaces(r.entries) && AreKnown(r.workers, r.entries) && worker in r.entries
    ensures var entries := r.entries[worker := r.entries[worker].(lastUsed := now)];
      HaveOwnPlaces(entries) && AreKnown(r.workers, entries)
  {
    var entries := r.entries[worker := r.entries[worker].(lastUsed := now)];
    assert forall other: nat, p, i :: HasPlace(entries, other, p, i) <==> HasPlace(r.entries, other, p, i);
  }

  lemma TurnValid(w: World, workerPath: string)
    requires Valid(w) && workerPath in w.registry.workers
    ensures Valid(Step(w, Turns(workerPath)))
  {
    hide HaveOwnPlaces, AreKnown, AreHeld, LoadsAreHeld;
  }

  lemma StepValid(w: World, event: Event)
    requires Valid(w) && IsAllowed(w, event)
    ensures Valid(Step(w, event))
  {
    hide Valid, Step;
    match event
    case Starts(workerPath, id, channel, now) => StartValid(w, workerPath, id, channel, now);
    case Unlists(worker) => UnlistValid(w, worker);
    case Removes(worker) => RemoveValid(w, worker);
    case Leases(worker) => LeaseValid(w, worker);
    case Subscribes(lease, requestId) => SubscribeValid(w, lease, requestId);
    case Releases(lease, now) => ReleaseValid(w, lease, now);
    case Turns(workerPath) => TurnValid(w, workerPath);
  }

  /**
   * In every run that the pool allows itself, whatever the order of starts, requests, releases, retirements and exits:
   * the maps agree on the workers, each listed worker is under the path and id of its entry, no path keeps an empty
   * map, a worker's load are the leases of it that are held, and only those are subscribed.
   */
  lemma {:induction false} EveryRunIsValid(events: seq<Event>)
    requires IsAllowedRun(events)
    ensures Valid(Run(events))
  {
    hide Valid, Step, IsAllowed;
    if events == [] {
      EmptyValid();
    } else {
      EveryRunIsValid(events[..|events| - 1]);
      StepValid(Run(events[..|events| - 1]), events[|events| - 1]);
    }
  }

  lemma EmptyValid()
    ensures Valid(World(EMPTY, [], {}, 0))
  {
  }

  // ----- what the operations mean for each other -----

  /** Nothing is left of a worker that is removed: in none of the maps, and no request is subscribed to it. */
  lemma RemoveLeavesNoTrace(events: seq<Event>, worker: nat)
    requires IsAllowedRun(events)
    ensures var r, after := Run(events).registry, Remove(Run(events).registry, worker);
      && worker !in after.entries && worker !in after.channels && worker !in after.leases
      && (forall p, i :: !IsListed(after.workers, p, i, worker))
      && (forall requestId :: requestId in after.subscriptions ==>
          after.subscriptions[requestId] !in LeasesOf(r, worker))
  {
    hide Run, Unlist, IsListed, HaveOwnPlaces, AreHeld, LoadsAreHeld, AreKnown;
    EveryRunIsValid(events);
    var w := Run(events);
    UnlistedIsNowhere(w.registry, worker);
    WithoutMeaning(w.registry.subscriptions, w.registry.requestOf, w.held, LeasesOf(w.registry, worker));
  }

  /** What the maps hold of the other workers is as it was. */
  lemma RemoveKeepsTheOthers(events: seq<Event>, worker: nat, other: nat)
    requires IsAllowedRun(events) && other != worker
    ensures var r, after := Run(events).registry, Remove(Run(events).registry, worker);
      && (other in after.entries <==> other in r.entries)
          && (other in r.entries ==> after.entries[other] == r.entries[other])
      && LeasesOf(after, other) == LeasesOf(r, other)
      && (forall p, i :: IsListed(after.workers, p, i, other) <==> IsListed(r.workers, p, i, other))
      && (forall requestId :: requestId in r.subscriptions && r.subscriptions[requestId] in LeasesOf(r, other) ==>
            requestId in after.subscriptions && after.subscriptions[requestId] == r.subscriptions[requestId])
  {
    hide Run, Unlist, IsListed, HaveOwnPlaces, AreHeld, AreKnown, KeepNoEmptyPath;
    EveryRunIsValid(events);
    var w := Run(events);
    UnlistedIsNowhere(w.registry, worker);
    WithoutMeaning(w.registry.subscriptions, w.registry.requestOf, w.held, LeasesOf(w.registry, worker));
    forall lease | lease in LeasesOf(w.registry, other) ensures lease !in LeasesOf(w.registry, worker) {
      assert IsLoad(w.registry.leases, other, lease);
      assert IsLoad(w.registry.leases, worker, lease) <==> lease in LeasesOf(w.registry, worker);
    }
  }

  lemma WithoutTwice(subscriptions: Subscriptions, requestOf: map<nat, string>, leases: set<nat>)
    ensures Without(Without(subscriptions, requestOf, leases), requestOf, leases)
      == Without(subscriptions, requestOf, leases)
  {
    var once := Without(subscriptions, requestOf, leases);
    assert forall requestId :: requestId in once && once[requestId] in leases ==>
        !IsSubscribed(once, requestOf, once[requestId], requestId);
  }

  lemma RemovedTwice(r: Registry, worker: nat, lease: nat)
    ensures RemoveLease(RemoveLease(r, worker, lease), worker, lease) == RemoveLease(r, worker, lease)
  {
    hide Without;
    WithoutTwice(r.subscriptions, r.requestOf, {lease});
    if worker in r.leases {
      assert (r.leases[worker] - {lease}) - {lease} == r.leases[worker] - {lease};
    }
  }

  /** Marking a worker as used does not touch its leases. */
  lemma MarkedAnyway(r: Registry, worker: nat, lease: nat, entries: map<nat, Entry>)
    ensures RemoveLease(r.(entries := entries), worker, lease) == RemoveLease(r, worker, lease).(entries := entries)
  {
  }

  /** Releasing a lease again changes nothing but the moment a worker without requests was last used. */
  lemma ReleasedTwice(r: Registry, worker: nat, lease: nat, now: int, later: int)
    ensures Release(Release(r, worker, lease, now), worker, lease, later) == Release(r, worker, lease, later)
  {
    hide RemoveLease;
    var once := RemoveLease(r, worker, lease);
    var first := Release(r, worker, lease, now);
    RemovedTwice(r, worker, lease);
    MarkedAnyway(once, worker, lease, first.entries);
    assert first == once.(entries := first.entries);
    assert RemoveLease(first, worker, lease) == first;
  }

  /** So twice is once exactly when no time passed, the worker is not known any more, or other requests hold it. */
  lemma ReleasedTwiceIsOnce(r: Registry, worker: nat, lease: nat, now: int, later: int)
    ensures Release(Release(r, worker, lease, now), worker, lease, later) == Release(r, worker, lease, now)
      <==> (later == now || worker !in r.entries || GetLoad(RemoveLease(r, worker, lease), worker) > 0)
  {
    hide RemoveLease;
    ReleasedTwice(r, worker, lease, now, later);
    var once := RemoveLease(r, worker, lease);
    SameEntries(r, worker, lease);
    if worker in r.entries && GetLoad(once, worker) == 0 {
      assert Release(r, worker, lease, now).entries[worker].lastUsed == now;
      assert Release(r, worker, lease, later).entries[worker].lastUsed == later;
    }
  }

  lemma SameEntries(r: Registry, worker: nat, lease: nat)
    ensures RemoveLease(r, worker, lease).entries == r.entries
  {
  }

  /** A worker with one request: releasing it again moves the moment the worker was last used. */
  lemma ReleasedAgainIsLater()
    ensures var r := Step(Step(World(EMPTY, [], {}, 0), Starts("/worker", "id", 7, 0)), Leases(0)).registry;
      && Release(r, 0, 0, 10).entries[0].lastUsed == 10
      && Release(Release(r, 0, 0, 10), 0, 0, 20).entries[0].lastUsed == 20
  {
    hide Without;
  }

  /** The leases that all the workers have together. */
  function AllLeases(leases: map<nat, set<nat>>): set<nat> {
    set worker, lease | worker in leases && lease in leases[worker] :: lease
  }

  /** No lease is counted for two workers. */
  ghost predicate AreApart(leases: map<nat, set<nat>>) {
    forall a: nat, b: nat, lease: nat :: IsLoad(leases, a, lease) && IsLoad(leases, b, lease) ==> a == b
  }

  lemma LoadsTogether(leases: map<nat, set<nat>>, workerOf: seq<nat>, held: set<nat>)
    requires LoadsAreHeld(leases, workerOf, held)
    ensures AllLeases(leases) == held && AreApart(leases)
  {
    forall lease ensures lease in AllLeases(leases) <==> lease in held {
      if lease in AllLeases(leases) {
        var worker :| worker in leases && lease in leases[worker];
        assert IsLoad(leases, worker, lease);
      }
    }
  }

  /** In every run the loads of the workers are, together, the leases that were not given back, and no two share one. */
  lemma AllLeasesAreTheHeld(events: seq<Event>)
    requires IsAllowedRun(events)
    ensures AllLeases(Run(events).registry.leases) == Run(events).held && AreApart(Run(events).registry.leases)
  {
    hide Run, LoadsAreHeld, AreApart;
    EveryRunIsValid(events);
    LoadsTogether(Run(events).registry.leases, Run(events).workerOf, Run(events).held);
  }

  // ----- the registry and the leases themselves -----

  class WorkerRegistry {
    var workers: map<string, map<string, nat>>
    var entries: map<nat, Entry>
    var channels: map<nat, nat>
    var leases: map<nat, set<nat>>
    var subscriptions: map<string, nat>
    var cursors: map<string, nat>
    var requestOf: map<nat, string>

    ghost function Model(): Registry
      reads this
    {
      Registry(workers, entries, channels, leases, subscriptions, cursors, requestOf)
    }

    constructor ()
      ensures Model() == EMPTY
    {
      workers, entries, channels, leases, subscriptions, cursors, requestOf := map[], map[], map[], map[], map[], map[],
        map[];
    }

    method AddWorker(worker: nat, entry: Entry, channel: nat)
      modifies this
      ensures Model() == Add(old(Model()), worker, entry, channel)
    {
      var current := if entry.workerPath in workers then workers[entry.workerPath] else map[];
      current := current[entry.id := worker];
      workers := workers[entry.workerPath := current];
      entries := entries[worker := entry];
      channels := channels[worker := channel];
      leases := leases[worker := {}];
    }

    method ForgetPathIfEmpty(workerPath: string)
      modifies this`workers, this`cursors
      ensures if workerPath in old(workers) && |old(workers)[workerPath]| == 0
        then workers == old(workers) - {workerPath} && cursors == old(cursors) - {workerPath}
        else workers == old(workers) && cursors == old(cursors)
    {
      if workerPath !in workers || |workers[workerPath]| != 0 {
        return;
      }
      workers := workers - {workerPath};
      cursors := cursors - {workerPath};
    }

    method UnlistWorker(worker: nat)
      modifies this`workers, this`cursors
      ensures Model() == Unlist(old(Model()), worker)
    {
      hide Unlist;
      UnlistSteps(Model(), worker);
      if worker !in entries {
        return;
      }
      var entry := entries[worker];
      if entry.workerPath in workers {
        ghost var listed := workers[entry.workerPath] - {entry.id};
        workers := workers[entry.workerPath := workers[entry.workerPath] - {entry.id}];
        OverwrittenIsGone(old(workers), entry.workerPath, listed);
        ForgetPathIfEmpty(entry.workerPath);
        assert workers == if |listed| == 0 then old(workers) - {entry.workerPath}
          else old(workers)[entry.workerPath := listed];
      }
    }

    method Unsubscribe(lease: nat)
      modifies this`subscriptions
      ensures subscriptions == Without(old(subscriptions), requestOf, {lease})
    {
      if lease in requestOf && requestOf[lease] in subscriptions && subscriptions[requestOf[lease]] == lease {
        subscriptions := subscriptions - {requestOf[lease]};
      }
    }

    /** The leases it returns are the ones the worker had when it was called. */
    method RemoveWorker(worker: nat) returns (states: set<nat>)
      modifies this
      ensures Model() == Remove(old(Model()), worker) && states == LeasesOf(old(Model()), worker)
    {
      hide Unlist;
      states := if worker in leases then leases[worker] else {};
      UnlistWorker(worker);
      leases := leases - {worker};
      channels := channels - {worker};
      entries := entries - {worker};
      ghost var before := Model();
      var rest := states;
      NoneToUnsubscribe(subscriptions, requestOf);
      while rest != {}
        invariant rest <= states
        invariant Model() == before.(subscriptions := Without(before.subscriptions, requestOf, states - rest))
        decreases |rest|
      {
        var state :| state in rest;
        Unsubscribe(state);
        OneMoreUnsubscribed(before.subscriptions, requestOf, states - rest, state);
        assert states - rest + {state} == states - (rest - {state});
        rest := rest - {state};
      }
      assert states - rest == states;
    }

    method AddLeaseOf(worker: nat, lease: nat)
      modifies this`leases
      ensures Model() == AddLease(old(Model()), worker, lease)
    {
      if worker in leases {
        leases := leases[worker := leases[worker] + {lease}];
      }
    }

    method RemoveLeaseOf(worker: nat, lease: nat)
      modifies this`leases, this`subscriptions
      ensures Model() == RemoveLease(old(Model()), worker, lease)
    {
      if worker in leases {
        leases := leases[worker := leases[worker] - {lease}];
      }
      Unsubscribe(lease);
    }

    method SubscribeLease(lease: nat, requestId: string)
      modifies this`requestOf, this`subscriptions
      ensures Model() == Subscribe(old(Model()), lease, requestId)
    {
      requestOf := requestOf[lease := requestId];
      subscriptions := subscriptions[requestId := lease];
    }

    method TakeTurn(workerPath: string) returns (cursor: nat)
      modifies this`cursors
      ensures Model() == NextCursor(old(Model()), workerPath) && cursor == CursorOf(old(Model()), workerPath)
    {
      cursor := if workerPath in cursors then cursors[workerPath] else 0;
      cursors := cursors[workerPath := cursor + 1];
    }

    /** The sum of the loads is the number of leases, whatever the order of the workers. */
    method GetActive() returns (active: nat)
      requires AreApart(leases)
      ensures active == |AllLeases(leases)|
    {
      active := 0;
      var rest := leases.Keys;
      ghost var counted: set<nat> := {};
      while rest != {}
        invariant rest <= leases.Keys
        invariant counted == set worker, lease | worker in leases && worker !in rest && lease in leases[worker] :: lease
        invariant active == |counted|
        decreases |rest|
      {
        var worker :| worker in rest;
        forall lease | lease in leases[worker] ensures lease !in counted {
          assert IsLoad(leases, worker, lease);
          assert forall other :: other in leases && other !in rest && lease in leases[other] ==>
            IsLoad(leases, other, lease);
        }
        assert |counted + leases[worker]| == |counted| + |leases[worker]|;
        active := active + |leases[worker]|;
        counted := counted + leases[worker];
        rest := rest - {worker};
      }
      assert counted == AllLeases(leases);
    }
  }

  lemma UnlistSteps(r: Registry, worker: nat)
    ensures worker !in r.entries || r.entries[worker].workerPath !in r.workers ==> Unlist(r, worker) == r
    ensures worker in r.entries && r.entries[worker].workerPath in r.workers ==>
      var path := r.entries[worker].workerPath;
      var listed := r.workers[path] - {r.entries[worker].id};
      Unlist(r, worker) == if |listed| == 0 then r.(workers := r.workers - {path}, cursors := r.cursors - {path})
                           else r.(workers := r.workers[path := listed])
  {
  }

  lemma OverwrittenIsGone(workers: Listings, workerPath: string, listed: map<string, nat>)
    ensures workers[workerPath := listed] - {workerPath} == workers - {workerPath}
  {
  }

  lemma NoneToUnsubscribe(subscriptions: Subscriptions, requestOf: map<nat, string>)
    ensures Without(subscriptions, requestOf, {}) == subscriptions
  {
  }

  lemma OneMoreUnsubscribed(subscriptions: Subscriptions, requestOf: map<nat, string>, leases: set<nat>, lease: nat)
    ensures Without(Without(subscriptions, requestOf, leases), requestOf, {lease})
      == Without(subscriptions, requestOf, leases + {lease})
  {
  }

  /** A hold on a worker: making one adds to the load of the worker, releasing it takes that back. */
  class WorkerLease {
    const registry: WorkerRegistry
    const worker: nat
    const state: nat

    constructor (registry: WorkerRegistry, worker: nat, state: nat)
      modifies registry
      ensures this.registry == registry && this.worker == worker && this.state == state
      ensures registry.Model() == AddLease(old(registry.Model()), worker, state)
    {
      this.registry, this.worker, this.state := registry, worker, state;
      new;
      registry.AddLeaseOf(worker, state);
    }

    method SubscribeTo(requestId: string)
      modifies registry
      ensures registry.Model() == Subscribe(old(registry.Model()), state, requestId)
    {
      registry.SubscribeLease(state, requestId);
    }

    method ReleaseAt(now: int)
      modifies registry
      ensures registry.Model() == Release(old(registry.Model()), worker, state, now)
    {
      hide Without;
      registry.RemoveLeaseOf(worker, state);
      var load := if worker in registry.leases then |registry.leases[worker]| else 0;
      if worker in registry.entries && load == 0 {
        registry.entries := registry.entries[worker := registry.entries[worker].(lastUsed := now)];
      }
    }
  }
}
