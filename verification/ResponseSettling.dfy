/**
 * Whether the promises of a streamed response settle. A worker may stream after its function returned; an abort that
 * comes while it has no stream is not kept for the parts it sends later.
 */
module ResponseSettling {
  import opened Collections
  import opened ResponseStream

  /** No message and no write is outstanding. */
  predicate NothingIsOnItsWay(s: System) {
    s.toServer == [] && s.server.writing == [] && s.toWorker == []
  }

  /**
   * In every run, once nothing is on its way: every promise has settled exactly when the worker heard that the request
   * is over, or no part came to the server after it was.
   */
  lemma EveryPromiseSettlesExactly(events: seq<Event>, window: Window)
    requires NothingIsOnItsWay(Run(events, window))
    ensures var s := Run(events, window);
      AllSettled(s) <==> s.worker.aborted || s.server.dropped == []
  {
    hide Run;
    RunValid(events, window);
    var s := Run(events, window);
    WorkerIsValid(s, window);
    SettledWhenNoneWaits(s.worker);
    assert Abouts(s.toWorker) == [];
  }

  lemma SettledWhenNoneWaits(w: Worker)
    requires WorkerValid(w)
    ensures w.waiting == [] <==> forall i :: 0 <= i < |w.promises| ==> w.promises[i].Settled?
  {
    if w.waiting != [] {
      assert w.promises[w.waiting[0]] == Pending;
    }
  }

  /** A response that waits for a promise that nothing will settle. */
  predicate IsStuck(s: System) {
    NothingIsOnItsWay(s) && s.server.over && !CanResume(s) && (s.sender.phase.Draining? || s.sender.phase.Ending?)
  }

  /** It stays as it is, whatever happens, unless the server says once more that the request is over. */
  lemma {:induction false} StuckForGood(events: seq<Event>, more: seq<Event>, window: Window)
    requires IsStuck(Run(events, window)) && forall i :: 0 <= i < |more| ==> !more[i].CleansUp?
    ensures Run(events + more, window) == Run(events, window)
    decreases |more|
  {
    hide Run, Step, IsStuck;
    if more == [] {
      assert events + more == events;
    } else {
      var fewer, last := more[..|more| - 1], more[|more| - 1];
      assert events + more == events + fewer + [last];
      StuckForGood(events, fewer, window);
      RunPush(events + fewer, last, window);
      RunValid(events, window);
      StuckStays(Run(events, window), last, window);
    }
  }

  lemma StuckStays(s: System, e: Event, window: Window)
    requires SystemValid(s, window) && IsStuck(s) && !e.CleansUp?
    ensures Step(s, e, window) == s
  {
    WorkerIsValid(s, window);
    SettledWhenNoneWaits(s.worker);
  }

  /** The function returns, the abort finds no stream, and the part that is sent then comes when the request is over. */
  const LATE := [Returns] + [CleansUp(false)] + [WorkerGets] + [Chunk(200, false)] + [ServerGets]

  /** So there are such runs, and the response never ends. */
  lemma LateStreamIsStuck()
    ensures var s := Run(LATE, Window(None, 100));
      IsStuck(s) && !s.worker.aborted && s.worker.promises == [Pending] && s.server.dropped == [0]
  {
    hide Run, Step, IsStuck;
    var window := Window(None, 100);
    RunNone(window);
    RunPush([], Returns, window);
    assert [] + [Returns] == [Returns];
    RunPush([Returns], CleansUp(false), window);
    RunPush([Returns] + [CleansUp(false)], WorkerGets, window);
    RunPush([Returns] + [CleansUp(false)] + [WorkerGets], Chunk(200, false), window);
    RunPush([Returns] + [CleansUp(false)] + [WorkerGets] + [Chunk(200, false)], ServerGets, window);
    AbortFindsNoStream(window);
    LatePartIsDropped(window);
  }

  /** A stream that no message finds, of a request that is over. */
  const DETACHED := START.(worker := START.worker.(attached := false), server := START.server.(over := true))

  lemma AbortFindsNoStream(window: Window)
    ensures Step(Step(Step(START, Returns, window), CleansUp(false), window), WorkerGets, window) == DETACHED
  {
    var returned := START.(worker := START.worker.(attached := false));
    assert Step(START, Returns, window) == returned;
    assert Step(returned, CleansUp(false), window) == DETACHED.(toWorker := [Abort]);
  }

  lemma LatePartIsDropped(window: Window)
    requires window == Window(None, 100)
    ensures var s := Step(Step(DETACHED, Chunk(200, false), window), ServerGets, window);
      IsStuck(s) && !s.worker.aborted && s.worker.promises == [Pending] && s.server.dropped == [0]
  {
    var sent := Step(DETACHED, Chunk(200, false), window);
    assert sent.worker.promises == [Pending] && sent.toServer == [Emit(0, false)] && sent.sender.phase == Draining;
  }
}
