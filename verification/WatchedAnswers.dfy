/** When a listing answers, told without the probe: what each event makes of it, and how long it stays. */
module WatchedAnswers {
  import opened Collections
  import opened WatchedListings

  /** The listings that are still trusted, in their order. */
  function Trusted(listings: seq<Listing>, now: int): seq<Listing> {
    if listings == [] then []
    else (if now < listings[0].expires then [listings[0]] else []) + Trusted(listings[1..], now)
  }

  /** The directories whose listing is not trusted any more. */
  predicate IsOutdated(listings: seq<Listing>, directory: string, now: int) {
    exists one :: one in listings && one.directory == directory && one.expires <= now
  }

  function Remaining(p: Probe, now: int): map<string, nat> {
    map d | d in p.watchers && !IsOutdated(p.listings, d, now) :: p.watchers[d]
  }

  lemma {:induction false} TrustedAll(listings: seq<Listing>, now: int)
    requires forall one :: one in listings ==> now < one.expires
    ensures Trusted(listings, now) == listings
  {
    if listings != [] {
      TrustedAll(listings[1..], now);
    }
  }

  /** The sweep, which stops at the first listing that is trusted, leaves exactly those. */
  lemma {:induction false} SweepLeavesTheTrusted(p: Probe, now: int, latest: int)
    requires IsSound(p, latest)
    ensures DropExpired(p, now).listings == Trusted(p.listings, now)
    ensures DropExpired(p, now).watchers == Remaining(p, now)
    ensures DropExpired(p, now).totalEntries == EntriesOf(Trusted(p.listings, now))
    decreases |p.listings|
  {
    hide OnePerDirectory, InOrder, Without, IsOutdated, EntriesOf, Find;
    if p.listings == [] || p.listings[0].expires > now {
      AllTrusted(p, now, latest);
    } else {
      DropSound(p, p.listings[0].directory, latest);
      SweepLeavesTheTrusted(Drop(p, p.listings[0].directory), now, latest);
      FirstIsDropped(p, now, latest);
    }
  }

  lemma AllTrusted(p: Probe, now: int, latest: int)
    requires IsSound(p, latest) && (p.listings == [] || p.listings[0].expires > now)
    ensures Trusted(p.listings, now) == p.listings && Remaining(p, now) == p.watchers
    ensures p.totalEntries == EntriesOf(p.listings)
  {
    hide OnePerDirectory, EntriesOf;
    assert forall i :: 0 <= i < |p.listings| ==> p.listings[0].expires <= p.listings[i].expires;
    TrustedAll(p.listings, now);
  }

  lemma FirstIsDropped(p: Probe, now: int, latest: int)
    requires IsSound(p, latest) && p.listings != [] && p.listings[0].expires <= now
    ensures var rest := Drop(p, p.listings[0].directory);
      Trusted(rest.listings, now) == Trusted(p.listings, now) && Remaining(rest, now) == Remaining(p, now)
  {
    hide InOrder, Find, Without, OnePerDirectory, EntriesOf, Trusted, IsOutdated;
    var first, rest := p.listings[0], p.listings[1..];
    FirstOnly(p.listings);
    assert p.listings == [first] + rest;
    forall d ensures IsOutdated(p.listings, d, now) <==> IsOutdated(rest, d, now) || d == first.directory {
      OutdatedFirst(p.listings, d, now);
    }
    TrustedTail(p.listings, now);
  }

  lemma FirstOnly(listings: seq<Listing>)
    requires OnePerDirectory(listings) && listings != []
    ensures Without(listings, listings[0].directory) == listings[1..]
    ensures forall one :: one in listings[1..] ==> one.directory != listings[0].directory
  {
    hide Without;
    TailOnce(listings);
    WithoutNone(listings[1..], listings[0].directory);
    WithoutFirst(listings);
  }

  lemma WithoutFirst(listings: seq<Listing>)
    requires listings != []
    ensures Without(listings, listings[0].directory) == Without(listings[1..], listings[0].directory)
  {
  }

  lemma OutdatedFirst(listings: seq<Listing>, d: string, now: int)
    requires listings != [] && listings[0].expires <= now
    ensures IsOutdated(listings, d, now) <==> IsOutdated(listings[1..], d, now) || d == listings[0].directory
  {
    assert listings[0] in listings;
    assert forall one :: one in listings <==> one == listings[0] || one in listings[1..];
  }

  lemma TrustedTail(listings: seq<Listing>, now: int)
    requires listings != [] && listings[0].expires <= now
    ensures Trusted(listings, now) == Trusted(listings[1..], now)
  {
  }

  // ----- what each event does -----

  /** Among the listings that are trusted one is of the directory, and does not have the name. */
  predicate SaysMissing(listings: seq<Listing>, directory: string, normalized: string, now: int) {
    exists one :: one in listings && one.directory == directory && now < one.expires && normalized !in one.names
  }

  predicate IsSmallEnough(names: set<string>, trusted: seq<Listing>, limits: Limits) {
    |names| <= limits.maxEntries && EntriesOf(trusted) + |names| <= limits.maxTotalEntries
  }

  /**
   * A read is kept exactly when its directory is still watched by its watcher and it has not too many names, for itself
   * and together with the listings that are trusted; a directory that it cannot be kept of is not watched any longer.
   */
  predicate ReadDoes(p: Probe, after: Probe, directory: string, watcher: nat, names: set<string>, now: int,
          later: int, limits: Limits)
  {
    var trusted := Trusted(p.listings, now);
    if !IsCurrent(p, directory, watcher) then after == p
    else if IsSmallEnough(names, trusted, limits) then
      && after.listings == trusted + [Listing(directory, names, later + limits.maxAge)]
      && after.watchers == Remaining(p, now)
    else
      && Trusted(after.listings, now) == trusted
      && after.watchers == (if |names| > limits.maxEntries || |names| > limits.maxTotalEntries then p.watchers
           else Remaining(p, now)) - {directory}
  }

  lemma ReadIsKeptExactly(p: Probe, directory: string, watcher: nat, names: set<string>, now: int, later: int,
          limits: Limits, latest: int)
    requires IsSound(p, latest) && Find(p.listings, directory).None?
    ensures ReadDoes(p, Keep(p, directory, watcher, ReadNames(names, limits), now, later, limits), directory, watcher,
      names, now, later, limits)
  {
    hide IsSound, DropExpired, Find, Without, Trusted;
    SweepLeavesTheTrusted(p, now, latest);
    WithoutNone(p.listings, directory);
    DropExpiredSound(p, now, latest);
    WithoutNone(DropExpired(p, now).listings, directory);
    TrustedTwice(p.listings, now);
  }

  lemma {:induction false} TrustedTwice(listings: seq<Listing>, now: int)
    ensures Trusted(Trusted(listings, now), now) == Trusted(listings, now)
  {
    if listings != [] {
      TrustedTwice(listings[1..], now);
      var rest := Trusted(listings[1..], now);
      assert ([listings[0]] + rest)[1..] == rest && [] + rest == rest;
    }
  }

  /**
   * A directory in which a path is missing gets a watcher exactly when it has none, is not resting, was missed before,
   * the system gives one, and there is room for one; only for lack of room are those of outdated listings given up.
   */
  predicate MissDoes(p: Probe, after: Probe, directory: string, rests: bool, missed: bool, watcher: Option<nat>,
          now: int, limits: Limits)
  {
    var wanted := limits.maxDirectories > 0 && !p.closed && directory !in p.watchers && !rests && missed;
    var left := if wanted && |p.watchers| >= limits.maxDirectories then Remaining(p, now) else p.watchers;
    && Trusted(after.listings, now) == Trusted(p.listings, now)
    && after.watchers == if wanted && |left| < limits.maxDirectories && watcher.Some?
         then left[directory := watcher.value] else left
  }

  lemma MissStartsExactly(p: Probe, directory: string, rests: bool, missed: bool, watcher: Option<nat>, now: int,
          limits: Limits, latest: int)
    requires IsSound(p, latest)
    ensures MissDoes(p, List(p, directory, rests, missed, watcher, now, limits), directory, rests, missed, watcher, now,
      limits)
  {
    hide IsSound, DropExpired, Trusted;
    SweepLeavesTheTrusted(p, now, latest);
    TrustedTwice(p.listings, now);
  }

  /** What an event does: the answers and the listings change with what happens to them and with nothing else. */
  ghost predicate DoesAsMeant(w: World, e: Event, after: World, limits: Limits, normalize: string -> string) {
    match e
    case Passes(time) => after == w.(clock := w.clock + time)
    case Changes(_, _) => after.probe == w.probe && after.clock == w.clock
    case Reports(directory, watcher) =>
      if !IsCurrent(w.probe, directory, watcher) then after == w
      else
        && after.probe.watchers == w.probe.watchers - {directory}
        && forall one :: one in after.probe.listings <==> one in w.probe.listings && one.directory != directory
    case Asks(directory, name) =>
      && Trusted(after.probe.listings, w.clock) == Trusted(w.probe.listings, w.clock)
      && after.probe.watchers == (if IsOutdated(w.probe.listings, directory, w.clock)
           then w.probe.watchers - {directory} else w.probe.watchers)
    case Misses(directory, rests, missed, watched) =>
      && MissDoes(w.probe, after.probe, directory, rests, missed, if watched then Some(w.next) else None, w.clock,
           limits)
      && after.inFlight == if directory in after.probe.watchers && directory !in w.probe.watchers
           then w.inFlight[w.next := directory] else w.inFlight
    case ReadIsDone(watcher, seen, elapsed) =>
      if watcher !in w.inFlight then after == w
      else
        var directory := w.inFlight[watcher];
        && after.inFlight == w.inFlight - {watcher}
        && ReadDoes(w.probe, after.probe, directory, watcher,
          Normalized(if watcher in w.stale then seen else OnDisk(w, directory), normalize), w.clock,
          w.clock + elapsed, limits)
    case ReadFails(watcher) =>
      && after.inFlight == w.inFlight - {watcher}
      && if watcher !in w.inFlight || !IsCurrent(w.probe, w.inFlight[watcher], watcher) then after.probe == w.probe
      else
        && after.probe.watchers == w.probe.watchers - {w.inFlight[watcher]}
        && after.probe.listings == w.probe.listings
    case Closes => after.probe.listings == [] && after.probe.watchers == map[] && after.probe.closed
  }

  lemma RunPush(start: World, events: seq<Event>, e: Event, limits: Limits, normalize: string -> string)
    ensures Run(start, events + [e], limits, normalize)
      == Step(Run(start, events, limits, normalize), e, limits, normalize)
  {
    assert (events + [e])[..|events|] == events;
  }

  /**
   * In every run the probe says "missing" exactly when a listing that is trusted has no name that is the same in its
   * normalized form, and every event does what it is meant to.
   */
  lemma EveryEventDoesAsMeant(disk: map<string, set<string>>, clock: int, events: seq<Event>, e: Event, limits: Limits,
          normalize: string -> string)
    ensures var w := Run(Start(disk, clock), events, limits, normalize);
      && DoesAsMeant(w, e, Run(Start(disk, clock), events + [e], limits, normalize), limits, normalize)
      && (w.probe.closed <==> Closes in events)
      && forall directory, name :: Ask(w.probe, directory, name, w.clock, normalize).0
           <==> SaysMissing(w.probe.listings, directory, normalize(name), w.clock)
  {
    hide Run, Step, IsSound, IsBounded, ReadsAreOwn, IsFresh, DoesAsMeant, Ask, SaysMissing;
    EveryRunIsValid(disk, clock, events, limits, normalize);
    RunPush(Start(disk, clock), events, e, limits, normalize);
    var w := Run(Start(disk, clock), events, limits, normalize);
    StepDoes(w, e, limits, normalize);
    ClosedByClosing(disk, clock, events, limits, normalize);
    forall directory, name ensures Ask(w.probe, directory, name, w.clock, normalize).0
      <==> SaysMissing(w.probe.listings, directory, normalize(name), w.clock)
    {
      AskSays(w.probe, directory, name, w.clock, normalize, w.clock + limits.maxAge);
    }
  }

  lemma {:induction false} ClosedByClosing(disk: map<string, set<string>>, clock: int, events: seq<Event>,
          limits: Limits, normalize: string -> string)
    ensures Run(Start(disk, clock), events, limits, normalize).probe.closed <==> Closes in events
    decreases |events|
  {
    hide Step;
    if events != [] {
      var before, e := events[..|events| - 1], events[|events| - 1];
      ClosedByClosing(disk, clock, before, limits, normalize);
      assert events == before + [e];
      StepCloses(Run(Start(disk, clock), before, limits, normalize), e, limits, normalize);
    }
  }

  lemma StepCloses(w: World, e: Event, limits: Limits, normalize: string -> string)
    ensures Step(w, e, limits, normalize).probe.closed <==> w.probe.closed || e.Closes?
  {
    hide DropExpired, Find, Without, Normalized;
    SweepLeavesClosed(w.probe, w.clock);
  }

  lemma {:induction false} SweepLeavesClosed(p: Probe, now: int)
    ensures DropExpired(p, now).closed == p.closed
    decreases |p.listings|
  {
    if p.listings != [] && p.listings[0].expires <= now {
      SweepLeavesClosed(Drop(p, p.listings[0].directory), now);
    }
  }

  lemma AskSays(p: Probe, directory: string, name: string, now: int, normalize: string -> string, latest: int)
    requires IsSound(p, latest)
    ensures Ask(p, directory, name, now, normalize).0 <==> SaysMissing(p.listings, directory, normalize(name), now)
  {
    hide Find, InOrder, EntriesOf;
    OneOf(p, directory, latest);
  }

  /** A directory has one listing, the one that is found. */
  lemma OneOf(p: Probe, directory: string, latest: int)
    requires IsSound(p, latest)
    ensures forall one :: one in p.listings && one.directory == directory ==> Find(p.listings, directory) == Some(one)
  {
    hide Find, InOrder, EntriesOf;
  }

  lemma StepDoes(w: World, e: Event, limits: Limits, normalize: string -> string)
    requires Valid(w, limits, normalize)
    ensures DoesAsMeant(w, e, Step(w, e, limits, normalize), limits, normalize)
  {
    hide IsSound, IsBounded, IsFresh, StaleAreOld, Keep, List, Ask, Find, Without, ReadDoes, MissDoes, Normalized,
      ReadNames, Trusted, IsOutdated;
    var latest := w.clock + limits.maxAge;
    match e
    case Asks(directory, name) => AskDoes(w.probe, directory, name, w.clock, normalize, latest);
    case Misses(directory, rests, missed, watched) =>
      MissStartsExactly(w.probe, directory, rests, missed, if watched then Some(w.next) else None, w.clock, limits,
        latest);
    case ReadIsDone(watcher, seen, elapsed) =>
      if watcher in w.inFlight {
        var directory := w.inFlight[watcher];
        var names := Normalized(if watcher in w.stale then seen else OnDisk(w, directory), normalize);
        if IsCurrent(w.probe, directory, watcher) {
          ReadIsKeptExactly(w.probe, directory, watcher, names, w.clock, w.clock + elapsed, limits, latest);
        } else {
          ReadIsLate(w.probe, directory, watcher, names, w.clock, w.clock + elapsed, limits);
        }
      }
    case ReadFails(watcher) =>
      if watcher in w.inFlight && IsCurrent(w.probe, w.inFlight[watcher], watcher) {
        NothingListed(w.probe.listings, w.inFlight[watcher]);
      }
    case _ =>
  }

  lemma NothingListed(listings: seq<Listing>, directory: string)
    requires Find(listings, directory).None?
    ensures Without(listings, directory) == listings
  {
    WithoutNone(listings, directory);
  }

  lemma ReadIsLate(p: Probe, directory: string, watcher: nat, names: set<string>, now: int, later: int, limits: Limits)
    requires !IsCurrent(p, directory, watcher)
    ensures ReadDoes(p, Keep(p, directory, watcher, ReadNames(names, limits), now, later, limits), directory, watcher,
      names, now, later, limits)
  {
  }

  lemma AskDoes(p: Probe, directory: string, name: string, now: int, normalize: string -> string, latest: int)
    requires IsSound(p, latest)
    ensures var after := Ask(p, directory, name, now, normalize).1;
      && Trusted(after.listings, now) == Trusted(p.listings, now)
      && after.watchers == if IsOutdated(p.listings, directory, now) then p.watchers - {directory} else p.watchers
  {
    hide Find, InOrder, EntriesOf, Without, Trusted;
    OneOf(p, directory, latest);
    if IsOutdated(p.listings, directory, now) {
      TrustedWithout(p.listings, directory, now);
    }
  }

  lemma {:induction false} TrustedWithout(listings: seq<Listing>, directory: string, now: int)
    requires forall one :: one in listings && one.directory == directory ==> one.expires <= now
    ensures Trusted(Without(listings, directory), now) == Trusted(listings, now)
  {
    if listings != [] {
      TrustedWithout(listings[1..], directory, now);
      var rest := Without(listings[1..], directory);
      assert ([listings[0]] + rest)[1..] == rest && [] + rest == rest;
    }
  }

  // ----- how long a listing stays -----

  /** Its watcher does not report, and the probe is not closed. */
  ghost predicate LeavesAlone(events: seq<Event>, directory: string, watcher: nat) {
    forall i :: 0 <= i < |events| ==> !events[i].Closes? && events[i] != Reports(directory, watcher)
  }

  predicate IsThere(w: World, one: Listing, watcher: nat) {
    one in w.probe.listings && IsCurrent(w.probe, one.directory, watcher)
  }

  lemma StepLeaves(w: World, e: Event, one: Listing, watcher: nat, limits: Limits, normalize: string -> string)
    requires Valid(w, limits, normalize) && IsThere(w, one, watcher) && LeavesAlone([e], one.directory, watcher)
    requires w.clock < one.expires
    ensures IsThere(Step(w, e, limits, normalize), one, watcher)
  {
    hide IsBounded, IsFresh, StaleAreOld, IsSound, DropExpired, Keep, List, Without, Find, Normalized, ReadNames;
    assert [e][0] == e;
    var latest := w.clock + limits.maxAge;
    OneOf(w.probe, one.directory, latest);
    SweepKeepsWatcher(w.probe, one, w.clock, latest);
    match e
    case Misses(directory, rests, missed, watched) =>
      ListLeaves(w.probe, directory, rests, missed, if watched then Some(w.next) else None, w.clock, limits, one);
    case ReadIsDone(read, seen, elapsed) =>
      if read in w.inFlight {
        var names := Normalized(if read in w.stale then seen else OnDisk(w, w.inFlight[read]), normalize);
        KeepLeaves(w.probe, w.inFlight[read], read, ReadNames(names, limits), w.clock, w.clock + elapsed, limits, one);
      }
    case _ =>
  }

  predicate StillThere(p: Probe, after: Probe, one: Listing) {
    && one in after.listings
    && one.directory in p.watchers && one.directory in after.watchers
    && after.watchers[one.directory] == p.watchers[one.directory]
  }

  lemma ListLeaves(p: Probe, directory: string, rests: bool, missed: bool, watcher: Option<nat>, now: int,
          limits: Limits, one: Listing)
    requires one in p.listings && one.directory in p.watchers && StillThere(p, DropExpired(p, now), one)
    ensures StillThere(p, List(p, directory, rests, missed, watcher, now, limits), one)
  {
    hide DropExpired;
  }

  lemma KeepLeaves(p: Probe, directory: string, watcher: nat, names: Option<set<string>>, now: int, later: int,
          limits: Limits, one: Listing)
    requires one in p.listings && one.directory in p.watchers && StillThere(p, DropExpired(p, now), one)
    requires IsCurrent(p, directory, watcher) ==> directory != one.directory
    ensures StillThere(p, Keep(p, directory, watcher, names, now, later, limits), one)
  {
    hide DropExpired, Find;
  }

  lemma SweepKeepsWatcher(p: Probe, one: Listing, now: int, latest: int)
    requires IsSound(p, latest) && one in p.listings && now < one.expires
    ensures StillThere(p, DropExpired(p, now), one)
  {
    hide DropExpired, InOrder, OnePerDirectory, EntriesOf, Find;
    SweepLeavesTheTrusted(p, now, latest);
    DropExpiredSound(p, now, latest);
    OneOf(p, one.directory, latest);
  }

  /** The clock does not go back. */
  lemma ClockGoesOn(w: World, e: Event, limits: Limits, normalize: string -> string)
    ensures w.clock <= Step(w, e, limits, normalize).clock
  {
  }

  /**
   * However a run goes on, a listing stays and answers until its time has come, its watcher reports a change or the
   * probe is closed: a name that it does not have is missing, and no other is.
   */
  lemma {:induction false} ListingAnswersUntilItsTime(w: World, more: seq<Event>, one: Listing, watcher: nat,
          limits: Limits, normalize: string -> string)
    requires Valid(w, limits, normalize) && IsThere(w, one, watcher) && LeavesAlone(more, one.directory, watcher)
    requires Run(w, more, limits, normalize).clock < one.expires
    ensures var after := Run(w, more, limits, normalize);
      && Valid(after, limits, normalize) && IsThere(after, one, watcher)
      && forall name :: Ask(after.probe, one.directory, name, after.clock, normalize).0
           <==> normalize(name) !in one.names
    decreases |more|
  {
    hide Valid, Step, IsThere, Ask;
    if more != [] {
      var fewer, e := more[..|more| - 1], more[|more| - 1];
      var before := Run(w, fewer, limits, normalize);
      ClockGoesOn(before, e, limits, normalize);
      ListingAnswersUntilItsTime(w, fewer, one, watcher, limits, normalize);
      StepLeaves(before, e, one, watcher, limits, normalize);
      StepValid(before, e, limits, normalize);
    }
    ListingAnswers(Run(w, more, limits, normalize), one, watcher, limits, normalize);
  }

  lemma ListingAnswers(w: World, one: Listing, watcher: nat, limits: Limits, normalize: string -> string)
    requires Valid(w, limits, normalize) && IsThere(w, one, watcher) && w.clock < one.expires
    ensures forall name :: Ask(w.probe, one.directory, name, w.clock, normalize).0 <==> normalize(name) !in one.names
  {
    hide IsSound, Find;
    OneOf(w.probe, one.directory, w.clock + limits.maxAge);
  }
}
