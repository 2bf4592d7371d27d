/**
 * The requests that wait for a worker, in the order of arrival. The requests are numbered as they arrive; the timers
 * and the listeners that are still set are part of the state, as they are what may call the line back.
 */
module WaitingLines {

  /** What a request may be told: what `serve` gave for it is a number here. */
  datatype Settlement = RefusedFull | TimedOut | Abandoned | Failed | Served(result: int)

  datatype Settled = Settled(id: nat, how: Settlement)

  /** The signal of a request: none, one that may abort, one that has aborted before the request came. */
  datatype Signal = NoSignal | Live | Aborted

  datatype Waiter = Waiter(id: nat, hasSignal: bool)

  /** What `serve` does with a request: nothing, throw, or give a result. */
  datatype Outcome = Keeps | Throws | Gives(result: int)

  datatype State = State(
    queue: seq<Waiter>,
    queueFull: nat, timedOut: nat, abandoned: nat,
    timers: set<nat>, listeners: set<nat>,
    settled: seq<Settled>, next: nat)

  const EMPTY := State([], 0, 0, 0, {}, {}, [], 0)

  function Without(waiting: seq<Waiter>, id: nat): (rest: seq<Waiter>)
    ensures |rest| <= |waiting|
    ensures forall w :: w in rest <==> w in waiting && w.id != id
  {
    if waiting == [] then [] else (if waiting[0].id == id then [] else [waiting[0]]) + Without(waiting[1..], id)
  }

  // ----- the operations -----

  function Settle(s: State, id: nat, how: Settlement): State {
    s.(settled := s.settled + [Settled(id, how)])
  }

  /**
   * A timer that was cleared does not fire, a listener that was removed is not called, and neither is more than once.
   */
  function Release(s: State, id: nat): State {
    s.(timers := s.timers - {id}, listeners := s.listeners - {id})
  }

  predicate IsFull(s: State, maxQueue: nat) {
    maxQueue > 0 && |s.queue| >= maxQueue
  }

  /** A full line refuses before it looks at the signal. */
  function Arrive(s: State, signal: Signal, maxQueue: nat): State {
    var id, arrived := s.next, s.(next := s.next + 1);
    if IsFull(s, maxQueue) then Settle(arrived.(queueFull := s.queueFull + 1), id, RefusedFull)
    else if signal.Aborted? then Settle(arrived.(abandoned := s.abandoned + 1), id, Abandoned)
    else
      arrived.(queue := s.queue + [Waiter(id, signal.Live?)], timers := s.timers + {id},
               listeners := if signal.Live? then s.listeners + {id} else s.listeners)
  }

  function Expire(s: State, id: nat): State {
    if id !in s.timers then s
    else Settle(Release(s, id).(queue := Without(s.queue, id), timedOut := s.timedOut + 1), id, TimedOut)
  }

  function Abort(s: State, id: nat): State {
    if id !in s.listeners then s
    else Settle(Release(s, id).(queue := Without(s.queue, id), abandoned := s.abandoned + 1), id, Abandoned)
  }

  function Offer(s: State, waiter: Waiter, outcome: Outcome): State {
    match outcome
    case Keeps => s.(queue := s.queue + [waiter])
    case Throws => Settle(Release(s, waiter.id), waiter.id, Failed)
    case Gives(result) => Settle(Release(s, waiter.id), waiter.id, Served(result))
  }

  function OfferAll(s: State, waiters: seq<Waiter>, serve: nat -> Outcome): State
    decreases |waiters|
  {
    if waiters == [] then s else OfferAll(Offer(s, waiters[0], serve(waiters[0].id)), waiters[1..], serve)
  }

  /** Every waiting request is offered once, the first one first. */
  function Wake(s: State, serve: nat -> Outcome): State {
    OfferAll(s.(queue := []), s.queue, serve)
  }

  // ----- whole runs -----

  datatype Event = Arrives(signal: Signal) | TimerFires(id: nat) | Aborts(id: nat) | WakesUp(serve: nat -> Outcome)

  function Step(s: State, event: Event, maxQueue: nat): State {
    match event
    case Arrives(signal) => Arrive(s, signal, maxQueue)
    case TimerFires(id) => Expire(s, id)
    case Aborts(id) => Abort(s, id)
    case WakesUp(serve) => Wake(s, serve)
  }

  ghost function Run(events: seq<Event>, maxQueue: nat): State {
    if events == [] then EMPTY else Step(Run(events[..|events| - 1], maxQueue), events[|events| - 1], maxQueue)
  }

  // ----- what every step keeps -----

  function CountOf(settled: seq<Settled>, how: Settlement): nat {
    if settled == [] then 0
    else CountOf(settled[..|settled| - 1], how) + if settled[|settled| - 1].how == how then 1 else 0
  }

  function SettledIds(settled: seq<Settled>): set<nat> {
    set one | one in settled :: one.id
  }

  function IdsOf(waiting: seq<Waiter>): set<nat> {
    set w | w in waiting :: w.id
  }

  function WithSignal(waiting: seq<Waiter>): set<nat> {
    set w | w in waiting && w.hasSignal :: w.id
  }

  /** The requests wait in the order they came in. */
  ghost predicate InOrder(waiting: seq<Waiter>) {
    forall i, j :: 0 <= i < j < |waiting| ==> waiting[i].id < waiting[j].id
  }

  ghost predicate EachOnce(settled: seq<Settled>) {
    forall i, j :: 0 <= i < j < |settled| ==> settled[i].id != settled[j].id
  }

  ghost predicate CountersMatch(s: State) {
    && s.queueFull == CountOf(s.settled, RefusedFull)
    && s.timedOut == CountOf(s.settled, TimedOut)
    && s.abandoned == CountOf(s.settled, Abandoned)
  }

  /** Who came is waiting or was settled, never both; who waits has a timer, and a listener when there is a signal. */
  ghost predicate IsSound(s: State, waiting: seq<Waiter>) {
    && InOrder(waiting) && EachOnce(s.settled) && CountersMatch(s)
    && IdsOf(waiting) !! SettledIds(s.settled)
    && (forall id :: id in IdsOf(waiting) ==> id < s.next)
    && (forall id :: id in SettledIds(s.settled) ==> id < s.next)
    && (forall id :: 0 <= id < s.next ==> id in IdsOf(waiting) || id in SettledIds(s.settled))
    && s.timers == IdsOf(waiting)
    && s.listeners == WithSignal(waiting)
  }

  ghost predicate Valid(s: State, maxQueue: nat) {
    IsSound(s, s.queue) && (maxQueue > 0 ==> |s.queue| <= maxQueue)
  }

  lemma CountOneMore(settled: seq<Settled>, one: Settled, how: Settlement)
    ensures CountOf(settled + [one], how) == CountOf(settled, how) + if one.how == how then 1 else 0
  {
    assert (settled + [one])[..|settled|] == settled;
  }

  lemma CountersOneMore(s: State, id: nat, how: Settlement)
    ensures forall other ::
      CountOf(Settle(s, id, how).settled, other) == CountOf(s.settled, other) + if how == other then 1 else 0
  {
    forall other
      ensures CountOf(Settle(s, id, how).settled, other) == CountOf(s.settled, other) + if how == other then 1 else 0
    {
      CountOneMore(s.settled, Settled(id, how), other);
    }
  }

  lemma {:induction false} WithoutInOrder(waiting: seq<Waiter>, id: nat)
    requires InOrder(waiting)
    ensures InOrder(Without(waiting, id))
  {
    if waiting != [] {
      var rest := Without(waiting[1..], id);
      WithoutInOrder(waiting[1..], id);
      forall j | 0 <= j < |rest| ensures waiting[0].id < rest[j].id {
        assert rest[j] in rest && rest[j] in waiting[1..];
      }
    }
  }

  lemma SettledOneMore(settled: seq<Settled>, one: Settled)
    requires EachOnce(settled) && one.id !in SettledIds(settled)
    ensures EachOnce(settled + [one])
    ensures SettledIds(settled + [one]) == SettledIds(settled) + {one.id}
  {
    assert forall i :: 0 <= i < |settled| ==> settled[i] in settled && settled[i].id in SettledIds(settled);
    assert forall other :: other in settled + [one] <==> other in settled || other == one;
  }

  lemma IdsWithout(waiting: seq<Waiter>, id: nat)
    requires InOrder(waiting)
    ensures InOrder(Without(waiting, id))
    ensures IdsOf(Without(waiting, id)) == IdsOf(waiting) - {id}
    ensures WithSignal(Without(waiting, id)) == WithSignal(waiting) - {id}
  {
    hide Without, InOrder;
    WithoutInOrder(waiting, id);
  }

  /** A request that waited is settled and taken out: what a timeout, an abort and a result have in common. */
  lemma SettleSound(s: State, waiting: seq<Waiter>, id: nat, how: Settlement, after: State)
    requires IsSound(s, waiting) && id in IdsOf(waiting)
    requires after == Settle(Release(s, id), id, how)
      .(queue := after.queue, timedOut := after.timedOut, abandoned := after.abandoned)
    requires after.timedOut == s.timedOut + if how.TimedOut? then 1 else 0
    requires after.abandoned == s.abandoned + if how.Abandoned? then 1 else 0
    requires !how.RefusedFull?
    ensures IsSound(after, Without(waiting, id))
  {
    hide CountOf, Without, EachOnce, InOrder, IdsOf, WithSignal, SettledIds;
    CountersOneMore(s, id, how);
    SettledOneMore(s.settled, Settled(id, how));
    IdsWithout(waiting, id);
  }

  lemma ArriveValid(s: State, signal: Signal, maxQueue: nat)
    requires Valid(s, maxQueue)
    ensures Valid(Arrive(s, signal, maxQueue), maxQueue)
  {
    hide CountOf;
    var id := s.next;
    if IsFull(s, maxQueue) || signal.Aborted? {
      var how := if IsFull(s, maxQueue) then RefusedFull else Abandoned;
      CountersOneMore(s, id, how);
      SettledOneMore(s.settled, Settled(id, how));
    } else {
      ArrivesLast(s.queue, Waiter(id, signal.Live?));
    }
  }

  lemma ArrivesLast(waiting: seq<Waiter>, waiter: Waiter)
    requires InOrder(waiting) && forall id :: id in IdsOf(waiting) ==> id < waiter.id
    ensures InOrder(waiting + [waiter])
    ensures IdsOf(waiting + [waiter]) == IdsOf(waiting) + {waiter.id}
    ensures WithSignal(waiting + [waiter]) == WithSignal(waiting) + if waiter.hasSignal then {waiter.id} else {}
  {
    assert forall i :: 0 <= i < |waiting| ==> waiting[i] in waiting && waiting[i].id in IdsOf(waiting);
    assert forall w :: w in waiting + [waiter] <==> w in waiting || w == waiter;
  }

  lemma ExpireValid(s: State, id: nat, maxQueue: nat)
    requires Valid(s, maxQueue)
    ensures Valid(Expire(s, id), maxQueue)
  {
    hide IsSound, Without;
    if id in s.timers {
      TimersWait(s, s.queue);
      SettleSound(s, s.queue, id, TimedOut, Expire(s, id));
    }
  }

  lemma AbortValid(s: State, id: nat, maxQueue: nat)
    requires Valid(s, maxQueue)
    ensures Valid(Abort(s, id), maxQueue)
  {
    hide IsSound, Without;
    if id in s.listeners {
      TimersWait(s, s.queue);
      SettleSound(s, s.queue, id, Abandoned, Abort(s, id));
    }
  }

  /** What can call back is waiting. */
  lemma TimersWait(s: State, waiting: seq<Waiter>)
    requires IsSound(s, waiting)
    ensures s.timers == IdsOf(waiting) && s.listeners <= s.timers
  {
  }

  lemma {:induction false} WithoutConcat(a: seq<Waiter>, b: seq<Waiter>, id: nat)
    ensures Without(a + b, id) == Without(a, id) + Without(b, id)
  {
    if a == [] {
      assert a + b == b;
    } else {
      assert (a + b)[1..] == a[1..] + b;
      WithoutConcat(a[1..], b, id);
    }
  }

  lemma WithoutMiddle(before: seq<Waiter>, waiter: Waiter, rest: seq<Waiter>)
    requires InOrder(before + [waiter] + rest)
    ensures Without(before + [waiter] + rest, waiter.id) == before + rest
  {
    hide Without;
    var all := before + [waiter] + rest;
    WithoutConcat(before + [waiter], rest, waiter.id);
    WithoutConcat(before, [waiter], waiter.id);
    assert all[|before|] == waiter;
    assert forall i :: 0 <= i < |before| ==> all[i] == before[i];
    assert forall i :: 0 <= i < |rest| ==> all[|before| + 1 + i] == rest[i];
    WithoutNone(before, waiter.id);
    WithoutNone(rest, waiter.id);
    WithoutItself(waiter);
    assert before + [] == before;
  }

  lemma WithoutItself(waiter: Waiter)
    ensures Without([waiter], waiter.id) == []
  {
    assert [waiter][1..] == [];
  }

  lemma {:induction false} WithoutNone(waiting: seq<Waiter>, id: nat)
    requires forall w :: w in waiting ==> w.id != id
    ensures Without(waiting, id) == waiting
  {
    if waiting != [] {
      WithoutNone(waiting[1..], id);
    }
  }

  /** An offer leaves the request in its place, or settles it and takes it out. */
  lemma OfferSound(s: State, waiter: Waiter, rest: seq<Waiter>, outcome: Outcome)
    requires IsSound(s, s.queue + ([waiter] + rest))
    ensures IsSound(Offer(s, waiter, outcome), Offer(s, waiter, outcome).queue + rest)
  {
    hide IsSound, Without;
    var waiting := s.queue + ([waiter] + rest);
    assert waiting == s.queue + [waiter] + rest;
    match outcome
    case Keeps => SoundAnyway(s, waiting, Offer(s, waiter, outcome));
    case Throws => TakenOut(s, waiter, rest, Failed, Offer(s, waiter, outcome));
    case Gives(result) => TakenOut(s, waiter, rest, Served(result), Offer(s, waiter, outcome));
  }

  lemma TakenOut(s: State, waiter: Waiter, rest: seq<Waiter>, how: Settlement, after: State)
    requires IsSound(s, s.queue + ([waiter] + rest)) && (how.Failed? || how.Served?)
    requires after == Settle(Release(s, waiter.id), waiter.id, how)
    ensures IsSound(after, after.queue + rest)
  {
    hide IsSound, Without;
    var waiting := s.queue + ([waiter] + rest);
    assert waiting == s.queue + [waiter] + rest;
    assert waiter in waiting && waiter.id in IdsOf(waiting);
    OrderOf(s, waiting);
    SettleSound(s, waiting, waiter.id, how, after);
    WithoutMiddle(s.queue, waiter, rest);
  }

  lemma OrderOf(s: State, waiting: seq<Waiter>)
    requires IsSound(s, waiting)
    ensures InOrder(waiting)
  {
  }

  /** Who waits is not read off the queue. */
  lemma SoundAnyway(s: State, waiting: seq<Waiter>, after: State)
    requires IsSound(s, waiting) && after == s.(queue := after.queue)
    ensures IsSound(after, waiting)
  {
  }

  lemma {:induction false} OfferAllSound(s: State, waiters: seq<Waiter>, serve: nat -> Outcome)
    requires IsSound(s, s.queue + waiters)
    ensures IsSound(OfferAll(s, waiters, serve), OfferAll(s, waiters, serve).queue)
    ensures |OfferAll(s, waiters, serve).queue| <= |s.queue| + |waiters|
    decreases |waiters|
  {
    hide IsSound;
    if waiters == [] {
      assert s.queue + [] == s.queue;
    } else {
      assert [waiters[0]] + waiters[1..] == waiters;
      OfferSound(s, waiters[0], waiters[1..], serve(waiters[0].id));
      OfferAllSound(Offer(s, waiters[0], serve(waiters[0].id)), waiters[1..], serve);
    }
  }

  lemma WakeValid(s: State, serve: nat -> Outcome, maxQueue: nat)
    requires Valid(s, maxQueue)
    ensures Valid(Wake(s, serve), maxQueue)
  {
    hide IsSound;
    var emptied := s.(queue := []);
    SoundAnyway(s, s.queue, emptied);
    assert [] + s.queue == s.queue;
    OfferAllSound(emptied, s.queue, serve);
  }

  lemma StepValid(s: State, event: Event, maxQueue: nat)
    requires Valid(s, maxQueue)
    ensures Valid(Step(s, event, maxQueue), maxQueue)
  {
    hide Valid, Arrive, Expire, Abort, Wake;
    match event
    case Arrives(signal) => ArriveValid(s, signal, maxQueue);
    case TimerFires(id) => ExpireValid(s, id, maxQueue);
    case Aborts(id) => AbortValid(s, id, maxQueue);
    case WakesUp(serve) => WakeValid(s, serve, maxQueue);
  }

  lemma EmptyValid(maxQueue: nat)
    ensures Valid(EMPTY, maxQueue)
  {
  }

  /**
   * Over every run of arrivals, timeouts, aborts and wake-ups: each request is settled at most once and is either
   * waiting, with its timer set, or settled for one reason; the counters are how many were settled for theirs; the line
   * is no longer than a positive limit and in the order of arrival.
   */
  lemma {:induction false} EveryRunIsValid(events: seq<Event>, maxQueue: nat)
    ensures Valid(Run(events, maxQueue), maxQueue)
  {
    hide Valid, Step;
    if events == [] {
      EmptyValid(maxQueue);
    } else {
      EveryRunIsValid(events[..|events| - 1], maxQueue);
      StepValid(Run(events[..|events| - 1], maxQueue), events[|events| - 1], maxQueue);
    }
  }

  // ----- who is served -----

  /** The waiters that are not taken, and what the others are told. */
  function Kept(waiters: seq<Waiter>, serve: nat -> Outcome): seq<Waiter> {
    if waiters == [] then [] else (if serve(waiters[0].id).Keeps? then [waiters[0]] else []) + Kept(waiters[1..], serve)
  }

  function Told(waiters: seq<Waiter>, serve: nat -> Outcome): seq<Settled> {
    if waiters == [] then []
    else
      (match serve(waiters[0].id)
       case Keeps => []
       case Throws => [Settled(waiters[0].id, Failed)]
       case Gives(result) => [Settled(waiters[0].id, Served(result))]) + Told(waiters[1..], serve)
  }

  lemma {:induction false} OfferedInOrder(s: State, waiters: seq<Waiter>, serve: nat -> Outcome)
    ensures OfferAll(s, waiters, serve).queue == s.queue + Kept(waiters, serve)
    ensures OfferAll(s, waiters, serve).settled == s.settled + Told(waiters, serve)
    decreases |waiters|
  {
    if waiters == [] {
      assert s.queue + [] == s.queue && s.settled + [] == s.settled;
    } else {
      var first := waiters[0];
      var offered := Offer(s, first, serve(first.id));
      OfferedInOrder(offered, waiters[1..], serve);
      if serve(first.id).Keeps? {
        assert s.queue + [first] + Kept(waiters[1..], serve) == s.queue + ([first] + Kept(waiters[1..], serve));
        assert [] + Told(waiters[1..], serve) == Told(waiters[1..], serve);
      } else {
        var one := offered.settled[|s.settled|];
        assert offered.settled == s.settled + [one];
        assert s.settled + [one] + Told(waiters[1..], serve) == s.settled + ([one] + Told(waiters[1..], serve));
        assert [] + Kept(waiters[1..], serve) == Kept(waiters[1..], serve);
      }
    }
  }

  /**
   * A wake-up settles what `serve` takes, in the order of the line, and the others keep their places among each other.
   */
  lemma WakeServesInOrder(s: State, serve: nat -> Outcome)
    ensures Wake(s, serve).queue == Kept(s.queue, serve)
    ensures Wake(s, serve).settled == s.settled + Told(s.queue, serve)
  {
    hide OfferAll, Kept, Told;
    OfferedInOrder(s.(queue := []), s.queue, serve);
  }

  /** When `serve` takes as many as there are places, the ones that waited longest get them. */
  lemma {:induction false} PlacesGoToTheOldest(waiters: seq<Waiter>, places: nat, serve: nat -> Outcome)
    requires forall i :: 0 <= i < |waiters| ==> (serve(waiters[i].id).Keeps? <==> i >= places)
    ensures Kept(waiters, serve) == if places <= |waiters| then waiters[places..] else []
  {
    if waiters != [] {
      var rest := waiters[1..];
      assert forall i :: 0 <= i < |rest| ==> rest[i] == waiters[i + 1];
      PlacesGoToTheOldest(rest, if places > 0 then places - 1 else 0, serve);
      assert [waiters[0]] + rest == waiters;
    }
  }

  // ----- what each event settles -----

  predicate Waits(waiting: seq<Waiter>, id: nat) {
    exists i :: 0 <= i < |waiting| && waiting[i].id == id
  }

  predicate WaitsWithSignal(waiting: seq<Waiter>, id: nat) {
    exists i :: 0 <= i < |waiting| && waiting[i].id == id && waiting[i].hasSignal
  }

  /** The request is told so, and the others that wait keep their places. */
  predicate LeavesWith(s: State, after: State, id: nat, how: Settlement) {
    && after.settled == s.settled + [Settled(id, how)]
    && exists i :: 0 <= i < |s.queue| && s.queue[i].id == id && after.queue == s.queue[..i] + s.queue[i + 1..]
  }

  /**
   * A request is refused exactly when a positive limit is reached, and otherwise abandoned when its signal has aborted;
   * a timer and a signal settle the request they belong to, if it waits, and a wake-up those that `serve` takes.
   */
  ghost predicate SettlesAsMeant(s: State, event: Event, after: State, maxQueue: nat) {
    match event
    case Arrives(signal) =>
      if 0 < maxQueue <= |s.queue| then
        after.queue == s.queue && after.settled == s.settled + [Settled(s.next, RefusedFull)]
      else if signal == Aborted then
        after.queue == s.queue && after.settled == s.settled + [Settled(s.next, Abandoned)]
      else after.queue == s.queue + [Waiter(s.next, signal == Live)] && after.settled == s.settled
    case TimerFires(id) => if Waits(s.queue, id) then LeavesWith(s, after, id, TimedOut) else after == s
    case Aborts(id) => if WaitsWithSignal(s.queue, id) then LeavesWith(s, after, id, Abandoned) else after == s
    case WakesUp(serve) => after.queue == Kept(s.queue, serve) && after.settled == s.settled + Told(s.queue, serve)
  }

  lemma RunPush(events: seq<Event>, event: Event, maxQueue: nat)
    ensures Run(events + [event], maxQueue) == Step(Run(events, maxQueue), event, maxQueue)
  {
    assert (events + [event])[..|events|] == events;
  }

  /** In every run. */
  lemma EveryEventSettlesAsMeant(events: seq<Event>, event: Event, maxQueue: nat)
    ensures SettlesAsMeant(Run(events, maxQueue), event, Run(events + [event], maxQueue), maxQueue)
  {
    hide Run, Valid, OfferAll, Waits, WaitsWithSignal, LeavesWith, Kept, Told, Without;
    RunPush(events, event, maxQueue);
    EveryRunIsValid(events, maxQueue);
    var s := Run(events, maxQueue);
    match event
    case Arrives(_) =>
    case TimerFires(id) =>
      WhoWaits(s, id, maxQueue);
      if id in s.timers {
        SettlementLeaves(s, Expire(s, id), id, TimedOut, maxQueue);
      }
    case Aborts(id) =>
      WhoWaits(s, id, maxQueue);
      if id in s.listeners {
        SettlementLeaves(s, Abort(s, id), id, Abandoned, maxQueue);
      }
    case WakesUp(serve) => WakeServesInOrder(s, serve);
  }

  lemma WhoWaits(s: State, id: nat, maxQueue: nat)
    requires Valid(s, maxQueue)
    ensures id in s.timers <==> Waits(s.queue, id)
    ensures id in s.listeners <==> WaitsWithSignal(s.queue, id)
    ensures WaitsWithSignal(s.queue, id) ==> Waits(s.queue, id)
  {
    hide InOrder, EachOnce, CountersMatch;
    assert forall i :: 0 <= i < |s.queue| ==> s.queue[i] in s.queue;
  }

  lemma SettlementLeaves(s: State, after: State, id: nat, how: Settlement, maxQueue: nat)
    requires Valid(s, maxQueue) && Waits(s.queue, id)
    requires after.queue == Without(s.queue, id) && after.settled == s.settled + [Settled(id, how)]
    ensures LeavesWith(s, after, id, how)
  {
    hide Without, InOrder;
    QueueInOrder(s, maxQueue);
    var i :| 0 <= i < |s.queue| && s.queue[i].id == id;
    assert s.queue == s.queue[..i] + [s.queue[i]] + s.queue[i + 1..];
    WithoutMiddle(s.queue[..i], s.queue[i], s.queue[i + 1..]);
  }

  lemma QueueInOrder(s: State, maxQueue: nat)
    requires Valid(s, maxQueue)
    ensures InOrder(s.queue)
  {
  }

  // ----- the line itself -----

  /**
   * The line, with what the event loop holds for it: the timers and listeners that are set, and the promises settled so
   * far.
   */
  class WaitingLine {
    const maxQueue: nat
    var queue: seq<Waiter>
    var queueFull: nat
    var timedOut: nat
    var abandoned: nat
    var timers: set<nat>
    var listeners: set<nat>
    var settled: seq<Settled>
    var next: nat

    ghost function Model(): State
      reads this
    {
      State(queue, queueFull, timedOut, abandoned, timers, listeners, settled, next)
    }

    constructor (maxQueue: nat)
      ensures this.maxQueue == maxQueue && Model() == EMPTY
    {
      this.maxQueue := maxQueue;
      queue, queueFull, timedOut, abandoned := [], 0, 0, 0;
      timers, listeners, settled, next := {}, {}, [], 0;
    }

    method Enqueue(signal: Signal) returns (id: nat)
      requires Valid(Model(), maxQueue)
      modifies this
      ensures Valid(Model(), maxQueue)
      ensures id == old(next) && Model() == Arrive(old(Model()), signal, maxQueue)
    {
      hide Valid;
      ArriveValid(Model(), signal, maxQueue);
      id := next;
      next := next + 1;
      if maxQueue > 0 && |queue| >= maxQueue {
        queueFull := queueFull + 1;
        settled := settled + [Settled(id, RefusedFull)];
        return;
      }

      if signal.Aborted? {
        abandoned := abandoned + 1;
        settled := settled + [Settled(id, Abandoned)];
        return;
      }

      timers := timers + {id};
      if signal.Live? {
        listeners := listeners + {id};
      }
      queue := queue + [Waiter(id, signal.Live?)];
    }

    /** The callback of a timer that is still set. */
    method OnTimeout(id: nat)
      requires Valid(Model(), maxQueue) && id in timers
      modifies this
      ensures Valid(Model(), maxQueue) && Model() == Expire(old(Model()), id)
    {
      hide Valid;
      ExpireValid(Model(), id, maxQueue);
      QueueInOrder(Model(), maxQueue);
      timers := timers - {id};
      Remove(id);
      timedOut := timedOut + 1;
      Tell(id, TimedOut);
    }

    /** The listener of a signal, while it is not removed; it is called once. */
    method OnAbort(id: nat)
      requires Valid(Model(), maxQueue) && id in listeners
      modifies this
      ensures Valid(Model(), maxQueue) && Model() == Abort(old(Model()), id)
    {
      hide Valid;
      AbortValid(Model(), id, maxQueue);
      QueueInOrder(Model(), maxQueue);
      listeners := listeners - {id};
      timers := timers - {id};
      Remove(id);
      abandoned := abandoned + 1;
      settled := settled + [Settled(id, Abandoned)];
    }

    method WakeUp(serve: nat -> Outcome)
      requires Valid(Model(), maxQueue)
      modifies this
      ensures Valid(Model(), maxQueue) && Model() == Wake(old(Model()), serve)
    {
      hide Valid;
      WakeValid(Model(), serve, maxQueue);
      var waiters := queue;
      queue := [];
      for i := 0 to |waiters|
        invariant OfferAll(Model(), waiters[i..], serve) == Wake(old(Model()), serve)
      {
        assert waiters[i..][1..] == waiters[i + 1..];
        OfferOne(waiters[i], serve);
      }
    }

    method OfferOne(waiter: Waiter, serve: nat -> Outcome)
      modifies this
      ensures Model() == Offer(old(Model()), waiter, serve(waiter.id))
    {
      var result := serve(waiter.id);
      if result.Throws? {
        timers := timers - {waiter.id};
        Tell(waiter.id, Failed);
        return;
      }
      if result.Keeps? {
        queue := queue + [waiter];
        return;
      }
      timers := timers - {waiter.id};
      Tell(waiter.id, Served(result.result));
    }

    /** Settling a waiter removes its listener. */
    method Tell(id: nat, how: Settlement)
      modifies this`listeners, this`settled
      ensures listeners == old(listeners) - {id} && settled == old(settled) + [Settled(id, how)]
    {
      listeners := listeners - {id};
      settled := settled + [Settled(id, how)];
    }

    /** Searches the request and takes it out of its place. */
    method Remove(id: nat)
      requires InOrder(queue)
      modifies this`queue
      ensures queue == Without(old(queue), id)
    {
      hide Without;
      var index := 0;
      while index < |queue| && queue[index].id != id
        invariant index <= |queue|
        invariant forall k :: 0 <= k < index ==> queue[k].id != id
      {
        index := index + 1;
      }
      if index < |queue| {
        assert queue == queue[..index] + [queue[index]] + queue[index + 1..];
        WithoutMiddle(queue[..index], queue[index], queue[index + 1..]);
        queue := queue[..index] + queue[index + 1..];
      } else {
        WithoutNone(queue, id);
      }
    }
  }
}
