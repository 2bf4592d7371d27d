/**
 * Listings of watched directories that are asked whether a name is missing, together with the directories themselves,
 * the reads in flight and the reports of the watchers.
 */
module WatchedListings {
  import opened Collections

  /** No directories switch the listings off. */
  datatype Limits = Limits(maxDirectories: nat, maxEntries: nat, maxTotalEntries: nat, maxAge: int)

  /** The normalized names of a directory, and when they are not trusted any more. */
  datatype Listing = Listing(directory: string, names: set<string>, expires: int)

  /** A watcher is a number. The listings are in the order they were added. */
  datatype Probe = Probe(watchers: map<string, nat>, listings: seq<Listing>, totalEntries: int, closed: bool)

  const EMPTY := Probe(map[], [], 0, false)

  function Without(listings: seq<Listing>, directory: string): (rest: seq<Listing>)
    ensures |rest| <= |listings|
    ensures listings != [] && listings[0].directory == directory ==> |rest| < |listings|
    ensures forall one :: one in rest <==> one in listings && one.directory != directory
  {
    if listings == [] then []
    else (if listings[0].directory == directory then [] else [listings[0]]) + Without(listings[1..], directory)
  }

  function Find(listings: seq<Listing>, directory: string): (found: Option<Listing>)
    ensures found.Some? ==> found.value in listings && found.value.directory == directory
    ensures found.None? ==> forall one :: one in listings ==> one.directory != directory
  {
    if listings == [] then None
    else if listings[0].directory == directory then Some(listings[0])
    else Find(listings[1..], directory)
  }

  // ----- the operations of the probe -----

  function SizeOf(listing: Option<Listing>): nat {
    if listing.Some? then |listing.value.names| else 0
  }

  function Drop(p: Probe, directory: string): Probe {
    p.(watchers := p.watchers - {directory}, listings := Without(p.listings, directory),
       totalEntries := p.totalEntries - SizeOf(Find(p.listings, directory)))
  }

  predicate IsCurrent(p: Probe, directory: string, watcher: nat) {
    directory in p.watchers && p.watchers[directory] == watcher
  }

  /** A watcher that was closed has nothing to say any more. */
  function DropWatched(p: Probe, directory: string, watcher: nat): Probe {
    if IsCurrent(p, directory, watcher) then Drop(p, directory) else p
  }

  function DropExpired(p: Probe, now: int): Probe
    decreases |p.listings|
  {
    if p.listings == [] || p.listings[0].expires > now then p else DropExpired(Drop(p, p.listings[0].directory), now)
  }

  /**
   * A read is done. It has no names when there were too many. The clock may move on between the sweep and the expiry.
   */
  function Keep(p: Probe, directory: string, watcher: nat, names: Option<set<string>>, now: int, later: int,
          limits: Limits): Probe
  {
    if !IsCurrent(p, directory, watcher) then p
    else if names.None? then Drop(p, directory)
    else
      var swept := DropExpired(p, now);
      if swept.totalEntries + |names.value| > limits.maxTotalEntries then Drop(swept, directory)
      else
        swept.(listings := swept.listings + [Listing(directory, names.value, later + limits.maxAge)],
               totalEntries := swept.totalEntries + |names.value|)
  }

  /**
   * A path was found missing. `rests` says that the directory changed or was too large a moment ago, `missed` that
   * another path in it was missing before; there is no watcher when the system gives none.
   */
  function List(p: Probe, directory: string, rests: bool, missed: bool, watcher: Option<nat>, now: int,
          limits: Limits): Probe
  {
    if limits.maxDirectories == 0 || p.closed || directory in p.watchers || rests || !missed then p
    else
      var swept := if |p.watchers| >= limits.maxDirectories then DropExpired(p, now) else p;
      if |swept.watchers| >= limits.maxDirectories || watcher.None? then swept
      else swept.(watchers := swept.watchers[directory := watcher.value])
  }

  /** Whether the listing says that the name is missing, and the probe after it was asked. */
  function Ask(p: Probe, directory: string, name: string, now: int, normalize: string -> string): (bool, Probe) {
    match Find(p.listings, directory)
    case None => (false, p)
    case Some(listing) =>
      if listing.expires <= now then (false, Drop(p, directory)) else (normalize(name) !in listing.names, p)
  }

  function Close(p: Probe): Probe {
    Probe(map[], [], 0, true)
  }

  // ----- the probe and the directories it watches -----

  /**
   * A watcher is stale when its directory changed since it was started: while it is in use, its report is still to
   * come.
   */
  datatype World = World(
    probe: Probe, clock: int, inFlight: map<nat, string>, disk: map<string, set<string>>, stale: set<nat>, next: nat)

  function OnDisk(w: World, directory: string): set<string> {
    if directory in w.disk then w.disk[directory] else {}
  }

  function Normalized(names: set<string>, normalize: string -> string): set<string> {
    set name | name in names :: normalize(name)
  }

  /** More names than the limit are not kept in memory. */
  function ReadNames(names: set<string>, limits: Limits): Option<set<string>> {
    var entryLimit := if limits.maxEntries < limits.maxTotalEntries then limits.maxEntries else limits.maxTotalEntries;
    if |names| > entryLimit then None else Some(names)
  }

  datatype Event =
    | Passes(time: nat)
    | Changes(directory: string, names: set<string>)
    | Reports(directory: string, watcher: nat)
    | Asks(directory: string, name: string)
    | Misses(directory: string, rests: bool, missed: bool, watched: bool)
    | ReadIsDone(watcher: nat, seen: set<string>, elapsed: nat)
    | ReadFails(watcher: nat)
    | Closes

  /** The watcher of a listing that is started, when one is. */
  predicate Starts(before: Probe, after: Probe, directory: string) {
    directory in after.watchers && directory !in before.watchers
  }

  /**
   * A directory is read name by name. Without a change since the watcher was started, which is before the read, a read
   * gives the names that are there; with one, what it gives may be anything.
   */
  function Step(w: World, event: Event, limits: Limits, normalize: string -> string): World {
    match event
    case Passes(time) => w.(clock := w.clock + time)
    case Changes(directory, names) =>
      w.(disk := w.disk[directory := names],
         stale := if directory in w.probe.watchers then w.stale + {w.probe.watchers[directory]} else w.stale)
    case Reports(directory, watcher) => w.(probe := DropWatched(w.probe, directory, watcher))
    case Asks(directory, name) => w.(probe := Ask(w.probe, directory, name, w.clock, normalize).1)
    case Misses(directory, rests, missed, watched) =>
      var after := List(w.probe, directory, rests, missed, if watched then Some(w.next) else None, w.clock, limits);
      if Starts(w.probe, after, directory)
        then w.(probe := after, inFlight := w.inFlight[w.next := directory], next := w.next + 1)
      else w.(probe := after)
    case ReadIsDone(watcher, seen, elapsed) =>
      if watcher !in w.inFlight then w
      else
        var directory := w.inFlight[watcher];
        var names := Normalized(if watcher in w.stale then seen else OnDisk(w, directory), normalize);
        w.(probe := Keep(w.probe, directory, watcher, ReadNames(names, limits), w.clock, w.clock + elapsed, limits),
           clock := w.clock + elapsed, inFlight := w.inFlight - {watcher})
    case ReadFails(watcher) =>
      if watcher !in w.inFlight then w
      else w.(probe := DropWatched(w.probe, w.inFlight[watcher], watcher), inFlight := w.inFlight - {watcher})
    case Closes => w.(probe := Close(w.probe))
  }

  function Run(start: World, events: seq<Event>, limits: Limits, normalize: string -> string): World {
    if events == [] then start else Step(Run(start, events[..|events| - 1], limits, normalize), events[|events| - 1],
      limits, normalize)
  }

  function Start(disk: map<string, set<string>>, clock: int): World {
    World(EMPTY, clock, map[], disk, {}, 0)
  }

  // ----- what is kept of the probe alone -----

  function EntriesOf(listings: seq<Listing>): nat {
    if listings == [] then 0 else |listings[0].names| + EntriesOf(listings[1..])
  }

  ghost predicate OnePerDirectory(listings: seq<Listing>) {
    forall i, j :: 0 <= i < j < |listings| ==> listings[i].directory != listings[j].directory
  }

  ghost predicate IsAscending(listings: seq<Listing>) {
    forall i, j :: 0 <= i < j < |listings| ==> listings[i].expires <= listings[j].expires
  }

  /** No expiry is before the one ahead of it, and none is after `latest`. */
  ghost predicate InOrder(listings: seq<Listing>, latest: int) {
    && IsAscending(listings)
    && forall one :: one in listings ==> one.expires <= latest
  }

  ghost predicate IsExact(p: Probe) {
    p.totalEntries == EntriesOf(p.listings)
  }

  ghost predicate IsSound(p: Probe, latest: int) {
    && IsExact(p)
    && OnePerDirectory(p.listings)
    && InOrder(p.listings, latest)
    && (forall one :: one in p.listings ==> one.directory in p.watchers)
    && (p.closed ==> p.watchers == map[] && p.listings == [])
  }

  ghost predicate IsBounded(p: Probe, limits: Limits) {
    p.totalEntries <= limits.maxTotalEntries && |p.watchers| <= limits.maxDirectories
  }

  lemma WithoutKeeps(listings: seq<Listing>, directory: string, latest: int)
    requires OnePerDirectory(listings) && InOrder(listings, latest)
    ensures OnePerDirectory(Without(listings, directory)) && InOrder(Without(listings, directory), latest)
    ensures EntriesOf(Without(listings, directory)) == EntriesOf(listings) - SizeOf(Find(listings, directory))
  {
    hide EntriesOf, Find, SizeOf, OnePerDirectory, IsAscending, Without;
    WithoutOnce(listings, directory);
    WithoutOrder(listings, directory);
    WithoutEntries(listings, directory);
  }

  lemma {:induction false} WithoutOnce(listings: seq<Listing>, directory: string)
    requires OnePerDirectory(listings)
    ensures OnePerDirectory(Without(listings, directory))
  {
    if listings != [] {
      var rest := Without(listings[1..], directory);
      WithoutOnce(listings[1..], directory);
      assert forall j :: 0 <= j < |rest| ==> rest[j] in rest && rest[j] in listings[1..];
    }
  }

  lemma {:induction false} WithoutOrder(listings: seq<Listing>, directory: string)
    requires IsAscending(listings)
    ensures IsAscending(Without(listings, directory))
  {
    hide IsAscending;
    if listings != [] {
      var rest := Without(listings[1..], directory);
      TailAscends(listings);
      WithoutOrder(listings[1..], directory);
      if listings[0].directory == directory {
        assert [] + rest == rest;
      } else {
        FirstAscends(listings[0], rest);
      }
    }
  }

  lemma TailAscends(listings: seq<Listing>)
    requires IsAscending(listings) && listings != []
    ensures IsAscending(listings[1..]) && forall one :: one in listings[1..] ==> listings[0].expires <= one.expires
  {
  }

  lemma FirstAscends(first: Listing, rest: seq<Listing>)
    requires IsAscending(rest) && forall one :: one in rest ==> first.expires <= one.expires
    ensures IsAscending([first] + rest)
  {
    assert forall j :: 0 <= j < |rest| ==> rest[j] in rest;
  }

  lemma {:induction false} WithoutEntries(listings: seq<Listing>, directory: string)
    requires OnePerDirectory(listings)
    ensures EntriesOf(Without(listings, directory)) == EntriesOf(listings) - SizeOf(Find(listings, directory))
  {
    hide OnePerDirectory;
    if listings != [] {
      TailOnce(listings);
      if listings[0].directory == directory {
        WithoutNone(listings[1..], directory);
        assert Find(listings, directory) == Some(listings[0]);
        assert [] + Without(listings[1..], directory) == Without(listings[1..], directory);
      } else {
        WithoutEntries(listings[1..], directory);
        assert ([listings[0]] + Without(listings[1..], directory))[1..] == Without(listings[1..], directory);
      }
    }
  }

  lemma TailOnce(listings: seq<Listing>)
    requires OnePerDirectory(listings) && listings != []
    ensures OnePerDirectory(listings[1..]) && forall one :: one in listings[1..] ==>
      one.directory != listings[0].directory
  {
  }

  lemma {:induction false} WithoutNone(listings: seq<Listing>, directory: string)
    requires forall one :: one in listings ==> one.directory != directory
    ensures Without(listings, directory) == listings
  {
    if listings != [] {
      WithoutNone(listings[1..], directory);
    }
  }

  lemma DropSound(p: Probe, directory: string, latest: int)
    requires IsSound(p, latest)
    ensures IsSound(Drop(p, directory), latest)
    ensures Drop(p, directory).totalEntries <= p.totalEntries
    ensures |Drop(p, directory).watchers| <= |p.watchers|
  {
    hide Without, EntriesOf, OnePerDirectory, InOrder;
    WithoutKeeps(p.listings, directory, latest);
    FewerWatchers(p.watchers, directory);
  }

  lemma FewerWatchers(watchers: map<string, nat>, directory: string)
    ensures |watchers - {directory}| <= |watchers|
  {
    if directory in watchers {
      assert watchers == (watchers - {directory})[directory := watchers[directory]];
    } else {
      assert watchers - {directory} == watchers;
    }
  }

  /** What a sweep leaves, and what it leaves alone. */
  lemma {:induction false} DropExpiredSound(p: Probe, now: int, latest: int)
    requires IsSound(p, latest)
    ensures var swept := DropExpired(p, now);
      && IsSound(swept, latest) && swept.totalEntries <= p.totalEntries && |swept.watchers| <= |p.watchers|
      && (forall one :: one in swept.listings <==> one in p.listings && one.expires > now)
      && (forall d :: d in swept.watchers ==> d in p.watchers && swept.watchers[d] == p.watchers[d])
      && (forall d :: d in p.watchers && Find(p.listings, d).None? ==> d in swept.watchers)
      && swept.closed == p.closed
    decreases |p.listings|
  {
    hide IsExact, OnePerDirectory, Without;
    if p.listings == [] || p.listings[0].expires > now {
      assert forall i :: 0 <= i < |p.listings| ==> p.listings[0].expires <= p.listings[i].expires;
    } else {
      var directory := p.listings[0].directory;
      DropSound(p, directory, latest);
      OneListing(p.listings);
      FindOther(p.listings, directory);
      DropExpiredSound(Drop(p, directory), now, latest);
    }
  }

  lemma OneListing(listings: seq<Listing>)
    requires OnePerDirectory(listings) && listings != []
    ensures forall one :: one in listings && one.directory == listings[0].directory ==> one == listings[0]
  {
  }

  lemma FindOther(listings: seq<Listing>, directory: string)
    ensures forall d :: Find(listings, d).None? ==> Find(Without(listings, directory), d).None?
    ensures listings != [] ==> Find(listings, listings[0].directory).Some?
  {
  }

  /** A sweep drops every listing that has expired, and nothing else. */
  lemma SweepLeavesNoneExpired(p: Probe, now: int, latest: int)
    requires IsSound(p, latest)
    ensures forall one :: one in DropExpired(p, now).listings <==> one in p.listings && one.expires > now
  {
    hide IsSound, DropExpired;
    DropExpiredSound(p, now, latest);
  }

  lemma {:induction false} EntriesPush(listings: seq<Listing>, more: Listing)
    ensures EntriesOf(listings + [more]) == EntriesOf(listings) + |more.names|
  {
    if listings == [] {
      assert (listings + [more])[1..] == [];
    } else {
      assert (listings + [more])[1..] == listings[1..] + [more];
      EntriesPush(listings[1..], more);
    }
  }

  lemma AddSound(p: Probe, listing: Listing, latest: int)
    requires IsSound(p, latest) && latest <= listing.expires && !p.closed
    requires Find(p.listings, listing.directory).None? && listing.directory in p.watchers
    ensures IsSound(p.(listings := p.listings + [listing], totalEntries := p.totalEntries + |listing.names|),
      listing.expires)
  {
    hide EntriesOf;
    EntriesPush(p.listings, listing);
    assert forall i :: 0 <= i < |p.listings| ==> p.listings[i] in p.listings;
  }

  lemma LaterSound(p: Probe, latest: int, later: int)
    requires IsSound(p, latest) && latest <= later
    ensures IsSound(p, later)
  {
    hide IsExact, OnePerDirectory;
  }

  lemma KeepSound(p: Probe, directory: string, watcher: nat, names: Option<set<string>>, now: int, later: int,
          limits: Limits)
    requires IsSound(p, now + limits.maxAge) && IsBounded(p, limits) && now <= later
    requires IsCurrent(p, directory, watcher) ==> Find(p.listings, directory).None?
    ensures var after := Keep(p, directory, watcher, names, now, later, limits);
      IsSound(after, later + limits.maxAge) && IsBounded(after, limits)
  {
    hide IsSound, DropExpired, Drop;
    LaterSound(p, now + limits.maxAge, later + limits.maxAge);
    if IsCurrent(p, directory, watcher) {
      if names.None? {
        DropSound(p, directory, later + limits.maxAge);
      } else {
        KeptSound(p, directory, watcher, names.value, now, later, limits);
      }
    }
  }

  lemma KeptSound(p: Probe, directory: string, watcher: nat, names: set<string>, now: int, later: int, limits: Limits)
    requires IsSound(p, now + limits.maxAge) && IsBounded(p, limits) && now <= later
    requires IsCurrent(p, directory, watcher) && Find(p.listings, directory).None?
    ensures var after := Keep(p, directory, watcher, Some(names), now, later, limits);
      IsSound(after, later + limits.maxAge) && IsBounded(after, limits)
  {
    hide IsSound, DropExpired, Drop, Find;
    var soon, late := now + limits.maxAge, later + limits.maxAge;
    var swept := DropExpired(p, now);
    DropExpiredSound(p, now, soon);
    if swept.totalEntries + |names| > limits.maxTotalEntries {
      LaterSound(swept, soon, late);
      DropSound(swept, directory, late);
    } else {
      StillNone(p.listings, swept.listings, directory);
      ClosedIsEmpty(swept, soon);
      AddSound(swept, Listing(directory, names, late), soon);
    }
  }

  lemma StillNone(listings: seq<Listing>, fewer: seq<Listing>, directory: string)
    requires Find(listings, directory).None? && forall one :: one in fewer ==> one in listings
    ensures Find(fewer, directory).None?
  {
  }

  lemma ClosedIsEmpty(p: Probe, latest: int)
    requires IsSound(p, latest)
    ensures p.closed ==> p.watchers == map[]
  {
  }

  lemma ListSound(p: Probe, directory: string, rests: bool, missed: bool, watcher: Option<nat>, now: int,
          limits: Limits, latest: int)
    requires IsSound(p, latest) && IsBounded(p, limits)
    ensures var after := List(p, directory, rests, missed, watcher, now, limits);
      IsSound(after, latest) && IsBounded(after, limits)
  {
    hide IsExact, OnePerDirectory, InOrder, DropExpired;
    DropExpiredSound(p, now, latest);
    if directory !in p.watchers && watcher.Some? && !p.closed {
      WatchedSound(p, directory, watcher.value, latest);
      WatchedSound(DropExpired(p, now), directory, watcher.value, latest);
    }
  }

  lemma WatchedSound(p: Probe, directory: string, watcher: nat, latest: int)
    requires IsSound(p, latest) && directory !in p.watchers && !p.closed
    ensures IsSound(p.(watchers := p.watchers[directory := watcher]), latest)
    ensures |p.watchers[directory := watcher]| == |p.watchers| + 1
  {
    hide OnePerDirectory, InOrder;
  }

  // ----- what is kept of the world -----

  /** A read that counts is the only thing its directory has; no watcher was ever used twice. */
  ghost predicate ReadsAreOwn(w: World) {
    && (forall d :: d in w.probe.watchers ==> w.probe.watchers[d] < w.next)
    && (forall r :: r in w.inFlight ==> r < w.next)
    && forall r :: r in w.inFlight && IsCurrent(w.probe, w.inFlight[r], r) ==>
      Find(w.probe.listings, w.inFlight[r]).None?
  }

  /** A listing says what is on the disk, unless a change of its directory is still to be reported. */
  ghost predicate IsFresh(w: World, normalize: string -> string) {
    forall one ::
      (&& one in w.probe.listings
       && one.directory in w.probe.watchers
       && w.probe.watchers[one.directory] !in w.stale)
      ==> one.names == Normalized(OnDisk(w, one.directory), normalize)
  }

  ghost predicate StaleAreOld(w: World) {
    forall r :: r in w.stale ==> r < w.next
  }

  ghost predicate Valid(w: World, limits: Limits, normalize: string -> string) {
    && IsSound(w.probe, w.clock + limits.maxAge) && IsBounded(w.probe, limits)
    && ReadsAreOwn(w) && StaleAreOld(w) && IsFresh(w, normalize)
  }

  /** What is still there of the probe after something was dropped. */
  ghost predicate IsPartOf(after: Probe, before: Probe) {
    && (forall d :: d in after.watchers ==> d in before.watchers && after.watchers[d] == before.watchers[d])
    && (forall one :: one in after.listings ==> one in before.listings)
  }

  lemma PartStaysFresh(w: World, after: Probe, normalize: string -> string)
    requires ReadsAreOwn(w) && StaleAreOld(w) && IsFresh(w, normalize) && IsPartOf(after, w.probe)
    ensures var now := w.(probe := after);
      ReadsAreOwn(now) && StaleAreOld(now) && IsFresh(now, normalize)
  {
    hide Find, Normalized;
  }

  lemma DropIsPart(p: Probe, directory: string)
    ensures IsPartOf(Drop(p, directory), p)
  {
    hide Find;
  }

  lemma ReportValid(w: World, directory: string, watcher: nat, limits: Limits, normalize: string -> string)
    requires Valid(w, limits, normalize)
    ensures Valid(w.(probe := DropWatched(w.probe, directory, watcher)), limits, normalize)
  {
    hide IsSound, ReadsAreOwn, StaleAreOld, IsFresh, Drop, IsPartOf;
    DropSound(w.probe, directory, w.clock + limits.maxAge);
    DropIsPart(w.probe, directory);
    PartStaysFresh(w, Drop(w.probe, directory), normalize);
  }

  lemma AskValid(w: World, directory: string, name: string, limits: Limits, normalize: string -> string)
    requires Valid(w, limits, normalize)
    ensures Valid(w.(probe := Ask(w.probe, directory, name, w.clock, normalize).1), limits, normalize)
  {
    hide IsSound, ReadsAreOwn, StaleAreOld, IsFresh, Drop, IsPartOf;
    DropSound(w.probe, directory, w.clock + limits.maxAge);
    DropIsPart(w.probe, directory);
    PartStaysFresh(w, Drop(w.probe, directory), normalize);
  }

  lemma ChangeValid(w: World, directory: string, names: set<string>, limits: Limits, normalize: string -> string)
    requires Valid(w, limits, normalize)
    ensures Valid(Step(w, Changes(directory, names), limits, normalize), limits, normalize)
  {
    hide IsSound, IsBounded, Find, Normalized;
  }

  /** Only the directory listed gets a watcher, a new one, and no listing is added. */
  lemma ListIsPart(p: Probe, directory: string, rests: bool, missed: bool, watcher: Option<nat>, now: int,
          limits: Limits, latest: int)
    requires IsSound(p, latest)
    ensures var after := List(p, directory, rests, missed, watcher, now, limits);
      && (forall d :: d in after.watchers && d in p.watchers ==> after.watchers[d] == p.watchers[d])
      && (forall d :: d in after.watchers && d !in p.watchers ==> d == directory && watcher == Some(after.watchers[d]))
      && (forall one :: one in after.listings ==> one in p.listings)
      && (directory !in p.watchers ==> Find(after.listings, directory).None?)
  {
    hide IsExact, OnePerDirectory, InOrder, DropExpired, Find;
    DropExpiredSound(p, now, latest);
  }

  lemma MissValid(w: World, directory: string, rests: bool, missed: bool, watched: bool, limits: Limits,
          normalize: string -> string)
    requires Valid(w, limits, normalize)
    ensures Valid(Step(w, Misses(directory, rests, missed, watched), limits, normalize), limits, normalize)
  {
    hide IsSound, Find, Normalized, List, ReadsAreOwn, IsFresh, IsBounded;
    var watcher := if watched then Some(w.next) else None;
    ListSound(w.probe, directory, rests, missed, watcher, w.clock, limits, w.clock + limits.maxAge);
    ListIsPart(w.probe, directory, rests, missed, watcher, w.clock, limits, w.clock + limits.maxAge);
    var after := Step(w, Misses(directory, rests, missed, watched), limits, normalize);
    MissReads(w, directory, after);
    MissFresh(w, directory, after, normalize);
  }

  lemma MissReads(w: World, directory: string, after: World)
    requires ReadsAreOwn(w)
    requires forall d :: d in after.probe.watchers && d in w.probe.watchers ==>
      after.probe.watchers[d] == w.probe.watchers[d]
    requires forall d :: d in after.probe.watchers && d !in w.probe.watchers ==>
      d == directory && after.probe.watchers[d] == w.next
    requires forall one :: one in after.probe.listings ==> one in w.probe.listings
    requires directory !in w.probe.watchers ==> Find(after.probe.listings, directory).None?
    requires if Starts(w.probe, after.probe, directory)
      then after.next == w.next + 1 && after.inFlight == w.inFlight[w.next := directory]
      else after.next == w.next && after.inFlight == w.inFlight
    ensures ReadsAreOwn(after)
  {
    hide Find;
    forall r | r in after.inFlight && IsCurrent(after.probe, after.inFlight[r], r)
      ensures Find(after.probe.listings, after.inFlight[r]).None?
    {
      if r in w.inFlight && r != w.next {
        assert IsCurrent(w.probe, w.inFlight[r], r);
        StillNone(w.probe.listings, after.probe.listings, w.inFlight[r]);
      }
    }
  }

  lemma MissFresh(w: World, directory: string, after: World, normalize: string -> string)
    requires IsFresh(w, normalize) && after.stale == w.stale && after.disk == w.disk
    requires forall d :: d in after.probe.watchers && d in w.probe.watchers ==>
      after.probe.watchers[d] == w.probe.watchers[d]
    requires forall d :: d in after.probe.watchers && d !in w.probe.watchers ==> d == directory
    requires forall one :: one in after.probe.listings ==> one in w.probe.listings
    requires directory !in w.probe.watchers ==> Find(after.probe.listings, directory).None?
    ensures IsFresh(after, normalize)
  {
    hide Find, Normalized;
  }

  /** A read that is kept adds the listing of its directory; everything else was there before. */
  lemma KeepIsPart(p: Probe, directory: string, watcher: nat, names: Option<set<string>>, now: int, later: int,
          limits: Limits)
    requires IsSound(p, now + limits.maxAge)
    ensures var after := Keep(p, directory, watcher, names, now, later, limits);
      && (forall d :: d in after.watchers ==> d in p.watchers && after.watchers[d] == p.watchers[d])
      && (forall one :: one in after.listings && one !in p.listings ==>
            IsCurrent(p, directory, watcher) && names == Some(one.names) && one.directory == directory)
  {
    hide IsExact, OnePerDirectory, InOrder, DropExpired, Find;
    DropExpiredSound(p, now, now + limits.maxAge);
  }

  lemma ReadValid(w: World, watcher: nat, seen: set<string>, elapsed: nat, limits: Limits, normalize: string -> string)
    requires Valid(w, limits, normalize)
    ensures Valid(Step(w, ReadIsDone(watcher, seen, elapsed), limits, normalize), limits, normalize)
  {
    hide IsSound, Normalized, Keep, DropExpired, IsBounded;
    if watcher in w.inFlight {
      var directory := w.inFlight[watcher];
      var names := ReadNames(Normalized(if watcher in w.stale then seen else OnDisk(w, directory), normalize), limits);
      KeepSound(w.probe, directory, watcher, names, w.clock, w.clock + elapsed, limits);
      KeepIsPart(w.probe, directory, watcher, names, w.clock, w.clock + elapsed, limits);
      KeepReads(w, watcher, Step(w, ReadIsDone(watcher, seen, elapsed), limits, normalize));
    }
  }

  /** The other reads that count are of other directories. */
  lemma KeepReads(w: World, watcher: nat, after: World)
    requires ReadsAreOwn(w) && watcher in w.inFlight
    requires after.next == w.next && after.inFlight == w.inFlight - {watcher}
    requires forall d :: d in after.probe.watchers ==>
      d in w.probe.watchers && after.probe.watchers[d] == w.probe.watchers[d]
    requires forall one :: one in after.probe.listings && one !in w.probe.listings ==>
      IsCurrent(w.probe, w.inFlight[watcher], watcher) && one.directory == w.inFlight[watcher]
    ensures ReadsAreOwn(after)
  {
    forall r | r in after.inFlight && IsCurrent(after.probe, after.inFlight[r], r)
      ensures Find(after.probe.listings, after.inFlight[r]).None?
    {
      assert r in w.inFlight && IsCurrent(w.probe, w.inFlight[r], r);
    }
  }

  lemma PassesValid(w: World, time: nat, limits: Limits, normalize: string -> string)
    requires Valid(w, limits, normalize)
    ensures Valid(w.(clock := w.clock + time), limits, normalize)
  {
    hide IsSound, Find, Normalized;
    LaterSound(w.probe, w.clock + limits.maxAge, w.clock + time + limits.maxAge);
  }

  lemma ReadFailsValid(w: World, watcher: nat, limits: Limits, normalize: string -> string)
    requires Valid(w, limits, normalize) && watcher in w.inFlight
    ensures Valid(Step(w, ReadFails(watcher), limits, normalize), limits, normalize)
  {
    hide IsSound, IsBounded, Find, Normalized, IsFresh, DropWatched;
    ReportValid(w, w.inFlight[watcher], watcher, limits, normalize);
    SameFresh(w.(probe := DropWatched(w.probe, w.inFlight[watcher], watcher)), watcher, normalize);
  }

  lemma SameFresh(w: World, watcher: nat, normalize: string -> string)
    requires IsFresh(w, normalize)
    ensures IsFresh(w.(inFlight := w.inFlight - {watcher}), normalize)
  {
  }

  lemma StepValid(w: World, event: Event, limits: Limits, normalize: string -> string)
    requires Valid(w, limits, normalize)
    ensures Valid(Step(w, event, limits, normalize), limits, normalize)
  {
    hide Valid, Ask, DropWatched;
    match event
    case Passes(time) => PassesValid(w, time, limits, normalize);
    case Changes(directory, names) => ChangeValid(w, directory, names, limits, normalize);
    case Reports(directory, watcher) => ReportValid(w, directory, watcher, limits, normalize);
    case Asks(directory, name) => AskValid(w, directory, name, limits, normalize);
    case Misses(directory, rests, missed, watched) => MissValid(w, directory, rests, missed, watched, limits,
      normalize);
    case ReadIsDone(watcher, seen, elapsed) => ReadValid(w, watcher, seen, elapsed, limits, normalize);
    case ReadFails(watcher) =>
      if watcher in w.inFlight {
        ReadFailsValid(w, watcher, limits, normalize);
      }
    case Closes => CloseValid(w, limits, normalize);
  }

  lemma CloseValid(w: World, limits: Limits, normalize: string -> string)
    requires Valid(w, limits, normalize)
    ensures Valid(w.(probe := Close(w.probe)), limits, normalize)
  {
  }

  lemma StartValid(disk: map<string, set<string>>, clock: int, limits: Limits, normalize: string -> string)
    ensures Valid(Start(disk, clock), limits, normalize)
  {
  }

  /**
   * Over every run of reads that finish or fail, changes and their reports, expiry and closing: the total is the sum of
   * the listings and within its limit, no more directories are watched than allowed, every listing belongs to the
   * watcher of its directory, and says what is on the disk unless a change is still to be reported.
   */
  lemma {:induction false} EveryRunIsValid(disk: map<string, set<string>>, clock: int, events: seq<Event>,
          limits: Limits, normalize: string -> string)
    ensures Valid(Run(Start(disk, clock), events, limits, normalize), limits, normalize)
    decreases |events|
  {
    hide Valid, Step;
    if events == [] {
      StartValid(disk, clock, limits, normalize);
    } else {
      EveryRunIsValid(disk, clock, events[..|events| - 1], limits, normalize);
      StepValid(Run(Start(disk, clock), events[..|events| - 1], limits, normalize), events[|events| - 1], limits,
        normalize);
    }
  }

  /** What a directory holds after the events. */
  function NamesAfter(disk: map<string, set<string>>, events: seq<Event>, directory: string): set<string>
    decreases |events|
  {
    if events == [] then if directory in disk then disk[directory] else {}
    else
      match events[|events| - 1]
      case Changes(d, names) => if d == directory then names else NamesAfter(disk, events[..|events| - 1], directory)
      case _ => NamesAfter(disk, events[..|events| - 1], directory)
  }

  lemma {:induction false} DiskIsAsChanged(disk: map<string, set<string>>, clock: int, events: seq<Event>,
          directory: string, limits: Limits, normalize: string -> string)
    ensures OnDisk(Run(Start(disk, clock), events, limits, normalize), directory) == NamesAfter(disk, events, directory)
    decreases |events|
  {
    hide Keep, List, Ask, DropWatched, Starts, Normalized;
    if events != [] {
      DiskIsAsChanged(disk, clock, events[..|events| - 1], directory, limits, normalize);
    }
  }

  /**
   * In every run, when a listing answers that a name is missing, no name on the disk is the same in its normalized
   * form, except while a change of the directory is still to be reported by the watcher of it.
   */
  lemma MissingIsMissing(disk: map<string, set<string>>, clock: int, events: seq<Event>, directory: string,
          name: string, limits: Limits, normalize: string -> string)
    requires var w := Run(Start(disk, clock), events, limits, normalize);
      Ask(w.probe, directory, name, w.clock, normalize).0
    ensures var w := Run(Start(disk, clock), events, limits, normalize);
      && directory in w.probe.watchers
      && (w.probe.watchers[directory] in w.stale
          || forall other :: other in NamesAfter(disk, events, directory) ==> normalize(other) != normalize(name))
  {
    hide Run, IsExact, OnePerDirectory, InOrder, ReadsAreOwn, Find;
    EveryRunIsValid(disk, clock, events, limits, normalize);
    DiskIsAsChanged(disk, clock, events, directory, limits, normalize);
  }

  /** A watcher that is gone never comes back: the watchers that are started are new ones. */
  ghost predicate IsGone(w: World, watcher: nat) {
    watcher < w.next && forall d :: d in w.probe.watchers ==> w.probe.watchers[d] != watcher
  }

  lemma GoneStep(w: World, event: Event, watcher: nat, limits: Limits, normalize: string -> string)
    requires Valid(w, limits, normalize) && IsGone(w, watcher)
    ensures IsGone(Step(w, event, limits, normalize), watcher)
  {
    hide IsSound, IsBounded, StaleAreOld, DropExpired, Keep, List, IsFresh, Find, Without, Normalized;
    match event
    case Misses(directory, rests, missed, watched) =>
      ListIsPart(w.probe, directory, rests, missed, if watched then Some(w.next)
        else None, w.clock, limits, w.clock + limits.maxAge);
    case ReadIsDone(read, seen, elapsed) =>
      if read in w.inFlight {
        var names := ReadNames(Normalized(if read in w.stale then seen else OnDisk(w, w.inFlight[read]), normalize),
          limits);
        KeepIsPart(w.probe, w.inFlight[read], read, names, w.clock, w.clock + elapsed, limits);
      }
    case _ =>
  }

  lemma {:induction false} GoneForGood(w: World, events: seq<Event>, watcher: nat, limits: Limits,
          normalize: string -> string)
    requires Valid(w, limits, normalize) && IsGone(w, watcher)
    ensures Valid(Run(w, events, limits, normalize), limits, normalize)
    ensures IsGone(Run(w, events, limits, normalize), watcher)
    decreases |events|
  {
    hide Valid, IsGone, Step;
    if events != [] {
      var before := Run(w, events[..|events| - 1], limits, normalize);
      GoneForGood(w, events[..|events| - 1], watcher, limits, normalize);
      StepValid(before, events[|events| - 1], limits, normalize);
      GoneStep(before, events[|events| - 1], watcher, limits, normalize);
    }
  }

  /** Watchers are of one directory each. */
  ghost predicate AreOwn(w: World) {
    forall d, e :: d in w.probe.watchers && e in w.probe.watchers && w.probe.watchers[d] == w.probe.watchers[e] ==>
      d == e
  }

  lemma OwnStep(w: World, event: Event, limits: Limits, normalize: string -> string)
    requires Valid(w, limits, normalize) && AreOwn(w)
    ensures AreOwn(Step(w, event, limits, normalize))
  {
    hide IsSound, IsBounded, StaleAreOld, DropExpired, Keep, List, IsFresh, Find, Without, Normalized;
    match event
    case Misses(directory, rests, missed, watched) =>
      ListIsPart(w.probe, directory, rests, missed, if watched then Some(w.next)
        else None, w.clock, limits, w.clock + limits.maxAge);
    case ReadIsDone(read, seen, elapsed) =>
      if read in w.inFlight {
        var names := ReadNames(Normalized(if read in w.stale then seen else OnDisk(w, w.inFlight[read]), normalize),
          limits);
        KeepIsPart(w.probe, w.inFlight[read], read, names, w.clock, w.clock + elapsed, limits);
      }
    case _ =>
  }

  lemma {:induction false} EveryRunOwns(disk: map<string, set<string>>, clock: int, events: seq<Event>, limits: Limits,
          normalize: string -> string)
    ensures AreOwn(Run(Start(disk, clock), events, limits, normalize))
    decreases |events|
  {
    hide Valid, AreOwn, Step;
    if events == [] {
      NoneToOwn(disk, clock);
    } else {
      EveryRunIsValid(disk, clock, events[..|events| - 1], limits, normalize);
      EveryRunOwns(disk, clock, events[..|events| - 1], limits, normalize);
      OwnStep(Run(Start(disk, clock), events[..|events| - 1], limits, normalize), events[|events| - 1], limits,
        normalize);
    }
  }

  lemma NoneToOwn(disk: map<string, set<string>>, clock: int)
    ensures AreOwn(Start(disk, clock))
  {
  }

  /**
   * A read whose watcher reported a change is never kept: whenever it is done after that, however much later, the
   * listings are the ones that were there.
   */
  lemma ReportedReadIsNotKept(disk: map<string, set<string>>, clock: int, before: seq<Event>, directory: string,
          watcher: nat, after: seq<Event>, seen: set<string>, elapsed: nat, limits: Limits, normalize: string -> string)
    requires IsCurrent(Run(Start(disk, clock), before, limits, normalize).probe, directory, watcher)
    ensures var reported := Step(Run(Start(disk, clock), before, limits, normalize), Reports(directory, watcher),
      limits, normalize);
      var later := Run(reported, after, limits, normalize);
      Step(later, ReadIsDone(watcher, seen, elapsed), limits, normalize).probe == later.probe
  {
    hide Run, IsSound, IsFresh, DropExpired, Normalized;
    var w := Run(Start(disk, clock), before, limits, normalize);
    var reported := Step(w, Reports(directory, watcher), limits, normalize);
    EveryRunIsValid(disk, clock, before, limits, normalize);
    EveryRunOwns(disk, clock, before, limits, normalize);
    StepValid(w, Reports(directory, watcher), limits, normalize);
    assert IsGone(reported, watcher);
    GoneForGood(reported, after, watcher, limits, normalize);
  }
}
