/** Every interleaving of offers, timers, calls, resets and stops of the label queue. */
module LabelRuns {
  import opened Options
  import opened Strings
  import opened LabelQueue

  datatype Step =
    | Offer(request: Request, current: bool)
    | Fire(timer: nat, current: bool)
    | Invoke(call: nat)
    | Settle(call: nat, result: bool, current: bool)
    | Finish(call: nat)
    | Reset
    | Stop

  datatype Event =
    | Accepted(version: nat, request: Request)
    | Started(version: nat)
    | TimedOut(version: nat)
    | Applied(version: nat, request: Request)
    | WasReset
    | WasStopped

  /** The queue and what was seen of it. */
  datatype World = World(view: View, log: seq<Event>)

  const START := World(CREATED, [])

  predicate InPhase(v: View, call: nat, phase: Phase) {
    call < |v.calls| && v.calls[call].phase == phase
  }

  function FireEvents(v: View, timer: nat, current: bool): seq<Event>
    requires timer in v.timers
  {
    match v.timers[timer]
    case Debounce(version, _) => if Starts(v, version, current) then [Started(version)] else []
    case Deadline(call) => if call < |v.calls| then [TimedOut(v.calls[call].version)] else []
  }

  /** A step the host cannot take now changes nothing. */
  function After(w: World, step: Step): World {
    var v := w.view;
    match step
    case Offer(request, current) =>
      World(Offered(v, request, current), w.log + (if Accepts(v, request, current) then [Accepted(v.revision + 1, request)] else []))
    case Fire(timer, current) =>
      if timer !in v.timers then w else World(Fired(v, timer, current), w.log + FireEvents(v, timer, current))
    case Invoke(call) => if InPhase(v, call, Scheduled) then w.(view := Moved(v, call, Running)) else w
    case Settle(call, result, current) =>
      if !InPhase(v, call, Running) then w
      else World(Moved(v, call, Settled),
                 w.log + (if Applies(v, call, result, current) then [Applied(v.calls[call].version, v.calls[call].request)] else []))
    case Finish(call) => if InPhase(v, call, Settled) then w.(view := CleanedUp(v, call)) else w
    case Reset => World(Resetted(v), w.log + [WasReset])
    case Stop => World(Stopped(v), w.log + [WasStopped])
  }

  function Run(w: World, steps: seq<Step>): World
    decreases |steps|
  {
    if |steps| == 0 then w else Run(After(w, steps[0]), steps[1..])
  }

  // --- What a log says, independently of the queue ---

  /** The accepted offer still in force: the latest, unless reset, stopped or timed out since. */
  function Live(log: seq<Event>): Option<(nat, Request)> {
    if |log| == 0 then None
    else
      match log[|log| - 1]
      case Accepted(version, request) => Some((version, request))
      case Started(_) => Live(log[..|log| - 1])
      case Applied(_, _) => Live(log[..|log| - 1])
      case _ => None
  }

  /** The aim of the latest accepted offer since the last reset. */
  function LatestAim(log: seq<Event>): Option<(Str, Str)> {
    if |log| == 0 then None
    else
      match log[|log| - 1]
      case Accepted(_, request) => Some(Aim(request))
      case WasReset => None
      case _ => LatestAim(log[..|log| - 1])
  }

  /** An event is legitimate after a log. */
  ghost predicate Legitimate(past: seq<Event>, e: Event) {
    match e
    case Accepted(_, request) => LatestAim(past) != Some(Aim(request)) && WasStopped !in past
    case Started(version) => Live(past).Some? && Live(past).value.0 == version && Started(version) !in past && WasStopped !in past
    case Applied(version, request) =>
      Live(past) == Some((version, request)) && Started(version) in past && NeverApplied(past, version) && WasStopped !in past
    case _ => true
  }

  ghost predicate NeverApplied(log: seq<Event>, version: nat) {
    forall e :: e in log && e.Applied? ==> e.version != version
  }

  ghost predicate AllLegitimate(log: seq<Event>) {
    forall i :: 0 <= i < |log| ==> Legitimate(log[..i], log[i])
  }

  // --- The invariant ---

  ghost predicate Known(log: seq<Event>, revision: nat) {
    forall e :: e in log && (e.Accepted? || e.Started? || e.Applied? || e.TimedOut?) ==> e.version <= revision
  }

  ghost predicate Waiting(w: World, timer: nat)
    requires timer in w.view.timers
  {
    && w.view.timers[timer].Debounce? && w.view.debounce == Some(timer) && w.view.deadline == None
    && w.view.timers[timer].version == w.view.revision && Started(w.view.revision) !in w.log
    && Live(w.log) == Some((w.view.revision, w.view.timers[timer].request))
  }

  ghost predicate Limiting(w: World, timer: nat)
    requires timer in w.view.timers
  {
    && w.view.timers[timer].Deadline? && w.view.deadline == Some(timer) && w.view.debounce == None
    && var c := w.view.timers[timer].call; c < |w.view.calls| && w.view.calls[c].version == w.view.revision
  }

  /** An armed timer is the one the queue remembers, and a stopped queue has none. */
  ghost predicate OneTimer(w: World) {
    && (forall t :: t in w.view.timers ==> t < w.view.nextTimer && !w.view.stopped && (Waiting(w, t) || Limiting(w, t)))
    && (w.view.debounce.Some? ==> w.view.debounce.value in w.view.timers)
    && (w.view.deadline.Some? ==> w.view.deadline.value in w.view.timers)
  }

  /** A call that could still be applied is the one call of the offer in force. */
  ghost predicate Applicable(w: World, i: nat)
    requires i < |w.view.calls|
  {
    var c := w.view.calls[i];
    c.version == w.view.revision && !c.aborted && !w.view.stopped && (c.phase.Scheduled? || c.phase.Running?) ==>
      Live(w.log) == Some((c.version, c.request)) && NeverApplied(w.log, c.version)
  }

  ghost predicate CallsKnown(w: World) {
    && (forall i :: 0 <= i < |w.view.calls| ==> w.view.calls[i].version <= w.view.revision && Started(w.view.calls[i].version) in w.log)
    && (forall i, j :: 0 <= i < j < |w.view.calls| ==> w.view.calls[i].version != w.view.calls[j].version)
    && (forall i :: 0 <= i < |w.view.calls| ==> Applicable(w, i))
    && (forall e :: e in w.log && e.Applied? ==> Started(e.version) in w.log)
  }

  ghost predicate Good(w: World) {
    && Known(w.log, w.view.revision) && AllLegitimate(w.log)
    && w.view.key == LatestAim(w.log) && (w.view.stopped <==> WasStopped in w.log)
    && OneTimer(w) && CallsKnown(w)
  }

  // --- Steps ---

  lemma Append(log: seq<Event>, e: Event)
    requires AllLegitimate(log) && Legitimate(log, e)
    ensures AllLegitimate(log + [e])
  {
    hide Legitimate;
    var longer := log + [e];
    forall i | 0 <= i < |longer| ensures Legitimate(longer[..i], longer[i]) {
      assert longer[..i] == log[..i];
      if i == |log| {
        assert log[..i] == log;
      }
    }
  }

  lemma LastEvent(log: seq<Event>, e: Event)
    ensures Live(log + [e]) ==
            if e.Accepted? then Some((e.version, e.request)) else if e.Started? || e.Applied? then Live(log) else None
    ensures LatestAim(log + [e]) ==
            if e.Accepted? then Some(Aim(e.request)) else if e.WasReset? then None else LatestAim(log)
    ensures forall x :: x in log + [e] <==> x in log || x == e
  {
    assert (log + [e])[..|log|] == log;
  }

  /** Cancelling disarms every timer. */
  lemma CancelDisarms(w: World)
    requires OneTimer(w)
    ensures Cancelled(w.view).timers == map[]
  {
    var timers := Cancelled(w.view).timers;
    forall t | t in w.view.timers ensures t !in timers {
      assert Waiting(w, t) || Limiting(w, t);
    }
  }

  lemma StaleCalls(w: World, v: World, e: Event)
    requires CallsKnown(w) && v.log == w.log + [e] && !e.Applied?
    requires v.view.revision == w.view.revision + 1 && |v.view.calls| == |w.view.calls|
    requires forall i :: 0 <= i < |w.view.calls| ==> v.view.calls[i].version == w.view.calls[i].version
    ensures CallsKnown(v)
  {
    hide Live, NeverApplied;
  }

  lemma OfferArms(w: World, v: World, request: Request)
    requires Known(w.log, w.view.revision) && v.log == w.log + [Accepted(w.view.revision + 1, request)]
    requires v.view.revision == w.view.revision + 1 && v.view.nextTimer == w.view.nextTimer + 1 && !v.view.stopped
    requires v.view.timers == map[w.view.nextTimer := Debounce(w.view.revision + 1, request)]
    requires v.view.debounce == Some(w.view.nextTimer) && v.view.deadline == None
    ensures OneTimer(v)
  {
    LastEvent(w.log, Accepted(w.view.revision + 1, request));
    hide Live, LatestAim;
  }

  lemma OfferPreserves(w: World, request: Request, current: bool)
    requires Good(w)
    ensures Good(After(w, Offer(request, current)))
  {
    hide Live, LatestAim, CallsKnown, AllLegitimate;
    if Accepts(w.view, request, current) {
      var e := Accepted(w.view.revision + 1, request);
      LastEvent(w.log, e);
      CancelDisarms(w);
      Append(w.log, e);
      var v := After(w, Offer(request, current));
      StaleCalls(w, v, e);
      hide OneTimer;
      OfferArms(w, v, request);
    } else {
      assert w.log + [] == w.log;
    }
  }

  lemma CancelPreserves(w: World, v: World, e: Event)
    requires Good(w) && v.log == w.log + [e]
    requires (e == WasReset && v.view == Resetted(w.view)) || (e == WasStopped && v.view == Stopped(w.view))
    ensures Good(v)
  {
    hide Live, LatestAim, CallsKnown, AllLegitimate;
    LastEvent(w.log, e);
    CancelDisarms(w);
    Append(w.log, e);
    StaleCalls(w, v, e);
    hide OneTimer;
    assert v.view.timers == Cancelled(w.view).timers;
    NothingArmed(v);
  }

  lemma NothingArmed(w: World)
    requires w.view.timers == map[] && w.view.debounce == None && w.view.deadline == None
    ensures OneTimer(w)
  {
  }

  lemma OnlyTimer(w: World, timer: nat)
    requires OneTimer(w) && timer in w.view.timers
    ensures w.view.timers - {timer} == map[]
  {
    forall t | t in w.view.timers ensures t == timer {
      assert Waiting(w, t) || Limiting(w, t);
      assert Waiting(w, timer) || Limiting(w, timer);
    }
  }

  lemma StartPreservesCalls(w: World, v: World, request: Request)
    requires CallsKnown(w) && Known(w.log, w.view.revision)
    requires Started(w.view.revision) !in w.log && Live(w.log) == Some((w.view.revision, request))
    requires v.log == w.log + [Started(w.view.revision)] && v.view.revision == w.view.revision && v.view.stopped == w.view.stopped
    requires v.view.calls == w.view.calls + [Call(w.view.revision, request, Scheduled, false)]
    ensures CallsKnown(v)
  {
    LastEvent(w.log, Started(w.view.revision));
    hide Live;
    assert NeverApplied(v.log, w.view.revision);
    forall i | 0 <= i < |v.view.calls| ensures Applicable(v, i) {
      if i < |w.view.calls| {
        assert v.view.calls[i] == w.view.calls[i] && Started(w.view.calls[i].version) in w.log;
      }
    }
  }

  lemma StartPreserves(w: World, timer: nat, current: bool)
    requires Good(w) && timer in w.view.timers && w.view.timers[timer].Debounce?
    ensures Good(After(w, Fire(timer, current)))
  {
    OnlyTimer(w, timer);
    assert Waiting(w, timer);
    var v := After(w, Fire(timer, current));
    var request := w.view.timers[timer].request;
    if current {
      var e := Started(w.view.revision);
      LastEvent(w.log, e);
      Append(w.log, e);
      hide Live, LatestAim;
      StartPreservesCalls(w, v, request);
      hide CallsKnown, AllLegitimate;
      assert v.view.timers == map[w.view.nextTimer := Deadline(|w.view.calls|)];
    } else {
      assert w.log + [] == w.log;
      hide Live, LatestAim, AllLegitimate;
      SameCalls(w, v);
    }
  }

  lemma SameCalls(w: World, v: World)
    requires CallsKnown(w) && v.log == w.log && v.view.revision == w.view.revision && v.view.stopped == w.view.stopped
    requires v.view.calls == w.view.calls
    ensures CallsKnown(v)
  {
    forall i | 0 <= i < |v.view.calls| ensures Applicable(v, i) {
      assert Applicable(w, i);
    }
  }

  lemma TimeoutPreservesCalls(w: World, v: World, call: nat)
    requires CallsKnown(w) && call < |w.view.calls| && v.view.calls == w.view.calls[call := w.view.calls[call].(aborted := true)]
    requires v.view.revision == w.view.revision && v.view.stopped == w.view.stopped
    requires w.view.calls[call].version == w.view.revision && v.log == w.log + [TimedOut(w.view.revision)]
    ensures CallsKnown(v)
  {
    hide Live, NeverApplied;
    forall i | 0 <= i < |v.view.calls| ensures Applicable(v, i) {
      if i != call {
        assert v.view.calls[i] == w.view.calls[i] && w.view.calls[i].version != w.view.revision;
      }
    }
  }

  lemma TimeoutPreserves(w: World, timer: nat, current: bool)
    requires Good(w) && timer in w.view.timers && w.view.timers[timer].Deadline?
    ensures Good(After(w, Fire(timer, current)))
  {
    OnlyTimer(w, timer);
    assert Limiting(w, timer);
    var v := After(w, Fire(timer, current));
    var e := TimedOut(w.view.revision);
    assert v.log == w.log + [e];
    hide CallsKnown, Live, LatestAim;
    LastEvent(w.log, e);
    Append(w.log, e);
    hide AllLegitimate;
    TimeoutPreservesCalls(w, v, w.view.timers[timer].call);
  }

  /** A call moves on; only its settling may be applied. */
  lemma MovePreservesCalls(w: World, v: World, call: nat, phase: Phase)
    requires CallsKnown(w) && call < |w.view.calls| && v.view.calls == w.view.calls[call := w.view.calls[call].(phase := phase)]
    requires v.view.revision == w.view.revision && v.view.stopped == w.view.stopped && v.log == w.log
    requires phase.Running? ==> w.view.calls[call].phase.Scheduled?
    requires !phase.Scheduled?
    ensures CallsKnown(v)
  {
    hide Live, NeverApplied;
    forall i | 0 <= i < |v.view.calls| ensures Applicable(v, i) {
      assert Applicable(w, i);
    }
  }

  lemma SettlePreservesCalls(w: World, v: World, call: nat)
    requires CallsKnown(w) && call < |w.view.calls| && v.view.calls == w.view.calls[call := w.view.calls[call].(phase := Settled)]
    requires v.view.revision == w.view.revision && v.view.stopped == w.view.stopped
    requires w.view.calls[call].version == w.view.revision
    requires v.log == w.log + [Applied(w.view.revision, w.view.calls[call].request)]
    ensures CallsKnown(v)
  {
    hide Live, NeverApplied;
    forall i | 0 <= i < |v.view.calls| ensures Applicable(v, i) {
      if i != call {
        assert v.view.calls[i] == w.view.calls[i] && w.view.calls[i].version != w.view.revision;
      }
    }
  }

  lemma SettlePreserves(w: World, call: nat, result: bool, current: bool)
    requires Good(w) && InPhase(w.view, call, Running)
    ensures Good(After(w, Settle(call, result, current)))
  {
    hide Live, LatestAim, AllLegitimate;
    var v := After(w, Settle(call, result, current));
    if Applies(w.view, call, result, current) {
      var c := w.view.calls[call];
      var e := Applied(c.version, c.request);
      AppliedLegitimately(w, call);
      LastEvent(w.log, e);
      hide Legitimate, CallsKnown;
      Append(w.log, e);
      SettlePreservesCalls(w, v, call);
    } else {
      assert w.log + [] == w.log;
      hide CallsKnown;
      MovePreservesCalls(w, v, call, Settled);
    }
  }

  lemma AppliedLegitimately(w: World, call: nat)
    requires CallsKnown(w) && (w.view.stopped <==> WasStopped in w.log) && InPhase(w.view, call, Running)
    requires Applies(w.view, call, true, true)
    ensures Legitimate(w.log, Applied(w.view.calls[call].version, w.view.calls[call].request))
  {
    hide Live;
    assert Applicable(w, call);
  }

  lemma InvokePreserves(w: World, call: nat)
    requires Good(w)
    ensures Good(After(w, Invoke(call)))
  {
    hide Live, LatestAim, AllLegitimate;
    if InPhase(w.view, call, Scheduled) {
      MovePreservesCalls(w, After(w, Invoke(call)), call, Running);
      hide CallsKnown;
    }
  }

  lemma FinishPreserves(w: World, call: nat)
    requires Good(w)
    ensures Good(After(w, Finish(call)))
  {
    hide Live, LatestAim, AllLegitimate;
    if InPhase(w.view, call, Settled) {
      var v := After(w, Finish(call));
      MovePreservesCalls(w, v, call, Finished);
      assert Started(w.view.calls[call].version) in w.log;
      hide CallsKnown;
      if w.view.calls[call].version == w.view.revision {
        forall t | t in w.view.timers ensures t !in v.view.timers {
          assert Waiting(w, t) || Limiting(w, t);
        }
      }
    }
  }

  lemma StepPreserves(w: World, step: Step)
    requires Good(w)
    ensures Good(After(w, step))
  {
    match step
    case Offer(request, current) => OfferPreserves(w, request, current);
    case Fire(timer, current) =>
      if timer in w.view.timers {
        if w.view.timers[timer].Debounce? {
          StartPreserves(w, timer, current);
        } else {
          TimeoutPreserves(w, timer, current);
        }
      }
    case Invoke(call) => InvokePreserves(w, call);
    case Settle(call, result, current) =>
      if InPhase(w.view, call, Running) {
        SettlePreserves(w, call, result, current);
      }
    case Finish(call) => FinishPreserves(w, call);
    case Reset => CancelPreserves(w, After(w, Reset), WasReset);
    case Stop => CancelPreserves(w, After(w, Stop), WasStopped);
  }

  lemma {:induction false} RunPreserves(w: World, steps: seq<Step>)
    requires Good(w)
    ensures Good(Run(w, steps))
    decreases |steps|
  {
    hide Good, After;
    if |steps| != 0 {
      StepPreserves(w, steps[0]);
      RunPreserves(After(w, steps[0]), steps[1..]);
    }
  }

  // --- The theorems, over every interleaving ---

  /** Every offer accepted, call started and result applied was legitimate when it happened. */
  lemma EveryEventIsLegitimate(steps: seq<Step>)
    ensures AllLegitimate(Run(START, steps).log)
  {
    assert Good(START);
    RunPreserves(START, steps);
  }

  /** At most one timer is armed, and none once stopped. */
  lemma AtMostOneTimer(steps: seq<Step>)
    ensures var w := Run(START, steps);
      && (forall s, t :: s in w.view.timers && t in w.view.timers ==> s == t)
      && (WasStopped in w.log ==> w.view.timers == map[])
  {
    assert Good(START);
    RunPreserves(START, steps);
    var w := Run(START, steps);
    forall s, t | s in w.view.timers && t in w.view.timers ensures s == t {
      OnlyTimer(w, s);
      assert t !in w.view.timers - {s};
    }
  }

  /** An accepted offer leads to at most one call and at most one applied result. */
  lemma AppliedOnce(steps: seq<Step>, i: nat, j: nat)
    requires i < j < |Run(START, steps).log|
    ensures var log := Run(START, steps).log;
      && (log[i].Applied? && log[j].Applied? ==> log[i].version != log[j].version)
      && (log[i].Started? && log[j].Started? ==> log[i].version != log[j].version)
      && (log[i].WasStopped? ==> !log[j].Applied? && !log[j].Started? && !log[j].Accepted?)
  {
    EveryEventIsLegitimate(steps);
    hide Run, Live, LatestAim;
    var log := Run(START, steps).log;
    assert log[..j][i] == log[i];
    assert log[i] in log[..j];
    assert Legitimate(log[..j], log[j]);
  }

  /** What applying a result means: the latest accepted offer is the one applied, nothing since was a reset, a stop
      or its deadline, and its call had started. */
  lemma AppliedIsLatest(steps: seq<Step>, j: nat) returns (i: nat)
    requires j < |Run(START, steps).log| && Run(START, steps).log[j].Applied?
    ensures var log := Run(START, steps).log;
      && i < j && log[i] == Accepted(log[j].version, log[j].request)
      && (forall k :: i < k < j ==> log[k].Started? || log[k].Applied?)
  {
    EveryEventIsLegitimate(steps);
    hide Run, LatestAim;
    var log := Run(START, steps).log;
    assert Legitimate(log[..j], log[j]);
    i := LiveMeans(log[..j]);
  }

  lemma {:induction false} LiveMeans(log: seq<Event>) returns (i: nat)
    requires Live(log).Some?
    ensures i < |log| && log[i] == Accepted(Live(log).value.0, Live(log).value.1)
    ensures forall k :: i < k < |log| ==> log[k].Started? || log[k].Applied?
  {
    var last := |log| - 1;
    if log[last].Accepted? {
      i := last;
    } else {
      i := LiveMeans(log[..last]);
    }
  }

  /** An unchanged aim is never offered twice in a row without a reset between. */
  lemma NeverRetried(steps: seq<Step>, i: nat, j: nat)
    requires var log := Run(START, steps).log;
      && i < j < |log| && log[i].Accepted? && log[j].Accepted?
      && (forall k :: i < k < j ==> !log[k].Accepted? && !log[k].WasReset?)
    ensures var log := Run(START, steps).log; Aim(log[i].request) != Aim(log[j].request)
  {
    EveryEventIsLegitimate(steps);
    hide Run, Live;
    var log := Run(START, steps).log;
    LatestAimMeans(log[..j], i);
    assert Legitimate(log[..j], log[j]);
  }

  lemma {:induction false} LatestAimMeans(log: seq<Event>, i: nat)
    requires i < |log| && log[i].Accepted? && forall k :: i < k < |log| ==> !log[k].Accepted? && !log[k].WasReset?
    ensures LatestAim(log) == Some(Aim(log[i].request))
  {
    if i < |log| - 1 {
      LatestAimMeans(log[..|log| - 1], i);
    }
  }
}
