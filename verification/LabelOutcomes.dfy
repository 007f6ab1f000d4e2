/** When the label queue takes an offer, starts a call and applies a result: exactly when, over every run
    (extension/labelling.ts). */
module LabelOutcomes {
  import opened Options
  import opened Strings
  import opened LabelQueue
  import opened LabelRuns

  // --- A second invariant: what is in force can still be applied ---

  /** The offer in force is the queue's own revision, and its calls carry its request and are not aborted. */
  ghost predicate InForce(w: World) {
    Live(w.log).Some? ==>
      && Live(w.log).value.0 == w.view.revision && !w.view.stopped
      && forall i :: 0 <= i < |w.view.calls| && w.view.calls[i].version == w.view.revision ==>
           !w.view.calls[i].aborted && w.view.calls[i].request == Live(w.log).value.1
  }

  predicate Unsettled(c: Call) {
    c.phase == Scheduled || c.phase == Running
  }

  /** A call that still runs and is not aborted is the active one; none is while an offer waits. */
  ghost predicate ActiveOnly(v: View) {
    && (forall i :: 0 <= i < |v.calls| && Unsettled(v.calls[i]) && !v.calls[i].aborted ==> v.active == Some(i))
    && (v.debounce.Some? ==> v.active == None)
    && (v.active.Some? ==> v.active.value < |v.calls| && v.calls[v.active.value].version == v.revision)
  }

  ghost predicate Kept(w: World) {
    Good(w) && InForce(w) && ActiveOnly(w.view)
  }

  lemma CancelKeeps(v: View)
    requires ActiveOnly(v)
    ensures var c := Cancelled(v);
      && ActiveOnly(c) && |c.calls| == |v.calls|
      && forall i :: 0 <= i < |c.calls| ==> Unsettled(c.calls[i]) ==> c.calls[i].aborted
  {
  }

  lemma OfferKeeps(w: World, request: Request, current: bool)
    requires Kept(w)
    ensures InForce(After(w, Offer(request, current))) && ActiveOnly(After(w, Offer(request, current)).view)
  {
    if Accepts(w.view, request, current) {
      CancelKeeps(w.view);
      LastEvent(w.log, Accepted(w.view.revision + 1, request));
      var c := Cancelled(w.view);
      forall i | 0 <= i < |c.calls| ensures c.calls[i].version != w.view.revision + 1 {
        assert c.calls[i].version == w.view.calls[i].version;
      }
      hide Live, LatestAim;
    } else {
      assert w.log + [] == w.log;
    }
  }

  lemma DebounceKeeps(w: World, timer: nat, current: bool)
    requires Kept(w) && timer in w.view.timers && w.view.timers[timer].Debounce?
    ensures InForce(After(w, Fire(timer, current))) && ActiveOnly(After(w, Fire(timer, current)).view)
  {
    hide Live, LatestAim, AllLegitimate, Known;
    assert Waiting(w, timer);
    var request := w.view.timers[timer].request;
    var v := After(w, Fire(timer, current));
    if current {
      LastEvent(w.log, Started(w.view.revision));
      assert v.log == w.log + [Started(w.view.revision)];
      assert v.view.calls == w.view.calls + [Call(w.view.revision, request, Scheduled, false)];
      hide CallsKnown, Good, OneTimer;
      StartKeeps(w, v, request);
    } else {
      assert w.log + [] == w.log;
      hide CallsKnown, Good, OneTimer;
    }
  }

  lemma StartKeeps(w: World, v: World, request: Request)
    requires InForce(w) && ActiveOnly(w.view) && Live(w.log) == Some((w.view.revision, request)) && Live(v.log) == Live(w.log)
    requires w.view.debounce.Some? && v.view.debounce == None
    requires v.view.calls == w.view.calls + [Call(w.view.revision, request, Scheduled, false)] && v.view.active == Some(|w.view.calls|)
    requires v.view.revision == w.view.revision && v.view.stopped == w.view.stopped
    ensures InForce(v) && ActiveOnly(v.view)
  {
    hide Live;
  }

  lemma DeadlineKeeps(w: World, timer: nat, current: bool)
    requires Kept(w) && timer in w.view.timers && w.view.timers[timer].Deadline?
    ensures InForce(After(w, Fire(timer, current))) && ActiveOnly(After(w, Fire(timer, current)).view)
  {
    assert Limiting(w, timer);
    LastEvent(w.log, TimedOut(w.view.revision));
    hide Live, LatestAim, CallsKnown, AllLegitimate, Known;
  }

  lemma MoveKeeps(w: World, v: World, call: nat, phase: Phase)
    requires InForce(w) && ActiveOnly(w.view) && call < |w.view.calls|
    requires v.view.calls == w.view.calls[call := w.view.calls[call].(phase := phase)]
    requires v.view.revision == w.view.revision && v.view.stopped == w.view.stopped && Live(v.log) == Live(w.log)
    requires phase == Running ==> Unsettled(w.view.calls[call])
    requires phase != Scheduled && v.view.debounce == w.view.debounce
    requires v.view.active == w.view.active
    ensures InForce(v) && ActiveOnly(v.view)
  {
    hide Live;
  }

  lemma SettleKeeps(w: World, call: nat, result: bool, current: bool)
    requires Kept(w)
    ensures InForce(After(w, Settle(call, result, current))) && ActiveOnly(After(w, Settle(call, result, current)).view)
  {
    if InPhase(w.view, call, Running) {
      var c := w.view.calls[call];
      LastEvent(w.log, Applied(c.version, c.request));
      assert w.log + [] == w.log;
      hide Live, LatestAim, Good;
      MoveKeeps(w, After(w, Settle(call, result, current)), call, Settled);
    }
  }

  lemma InvokeKeeps(w: World, call: nat)
    requires Kept(w)
    ensures InForce(After(w, Invoke(call))) && ActiveOnly(After(w, Invoke(call)).view)
  {
    if InPhase(w.view, call, Scheduled) {
      hide Live, Good;
      MoveKeeps(w, After(w, Invoke(call)), call, Running);
    }
  }

  lemma FinishKeeps(w: World, call: nat)
    requires Kept(w)
    ensures InForce(After(w, Finish(call))) && ActiveOnly(After(w, Finish(call)).view)
  {
    if InPhase(w.view, call, Settled) {
      hide Live, LatestAim, AllLegitimate, Known, OneTimer, NeverApplied;
      var v := After(w, Finish(call));
      if w.view.calls[call].version == w.view.revision {
        forall i | 0 <= i < |v.view.calls| && Unsettled(v.view.calls[i]) ensures v.view.calls[i].aborted {
          assert i != call && w.view.calls[i] == v.view.calls[i];
        }
      } else {
        MoveKeeps(w, v, call, Finished);
      }
    }
  }

  lemma CancelEnds(w: World, v: World, e: Event)
    requires Kept(w) && v.log == w.log + [e]
    requires (e == WasReset && v.view == Resetted(w.view)) || (e == WasStopped && v.view == Stopped(w.view))
    ensures InForce(v) && ActiveOnly(v.view)
  {
    CancelKeeps(w.view);
    LastEvent(w.log, e);
    hide Live, LatestAim, Good;
  }

  lemma StepKeeps(w: World, step: Step)
    requires Kept(w)
    ensures Kept(After(w, step))
  {
    StepPreserves(w, step);
    hide Good, InForce, ActiveOnly, OneTimer;
    match step
    case Offer(request, current) => OfferKeeps(w, request, current);
    case Fire(timer, current) =>
      if timer in w.view.timers {
        if w.view.timers[timer].Debounce? {
          DebounceKeeps(w, timer, current);
        } else {
          DeadlineKeeps(w, timer, current);
        }
      }
    case Invoke(call) => InvokeKeeps(w, call);
    case Settle(call, result, current) => SettleKeeps(w, call, result, current);
    case Finish(call) => FinishKeeps(w, call);
    case Reset => CancelEnds(w, After(w, Reset), WasReset);
    case Stop => CancelEnds(w, After(w, Stop), WasStopped);
  }

  lemma {:induction false} RunKeeps(w: World, steps: seq<Step>)
    requires Kept(w)
    ensures Kept(Run(w, steps))
    decreases |steps|
  {
    hide Kept, After;
    if |steps| != 0 {
      StepKeeps(w, steps[0]);
      RunKeeps(After(w, steps[0]), steps[1..]);
    }
  }

  lemma Reached(steps: seq<Step>)
    ensures Kept(Run(START, steps))
  {
    assert Kept(START);
    RunKeeps(START, steps);
  }

  // --- The theorems, over every interleaving ---

  /** After any run an offer is taken exactly when the queue was not stopped, the session is current and the latest
      accepted aim since the last reset is another; an offer not taken changes nothing. */
  lemma OfferTakenExactly(steps: seq<Step>, request: Request, current: bool)
    ensures var w := Run(START, steps); var r := After(w, Offer(request, current));
      if WasStopped !in w.log && current && LatestAim(w.log) != Some((request.aim, request.project))
      then r.log == w.log + [Accepted(r.view.revision, request)]
           && exists t :: r.view.timers == map[t := Debounce(r.view.revision, request)]
      else r == w
  {
    Reached(steps);
    var w := Run(START, steps);
    hide Run, Live, LatestAim, AllLegitimate, CallsKnown, Known, InForce, ActiveOnly;
    CancelDisarms(w);
    assert w.log + [] == w.log;
    if Accepts(w.view, request, current) {
      assert After(w, Offer(request, current)).view.timers == map[w.view.nextTimer := Debounce(w.view.revision + 1, request)];
    }
  }

  /** After any run a due debounce starts its call exactly when the session is current, and arms the deadline of that
      call and nothing else; a due deadline aborts its call and starts nothing. */
  lemma DueTimer(steps: seq<Step>, timer: nat, current: bool)
    requires timer in Run(START, steps).view.timers
    ensures var w := Run(START, steps); var r := After(w, Fire(timer, current)); var v := w.view;
      match v.timers[timer]
      case Debounce(version, request) =>
        if !current then r.log == w.log && r.view.calls == v.calls && r.view.timers == map[]
        else r.log == w.log + [Started(version)] && r.view.calls == v.calls + [Call(version, request, Scheduled, false)]
             && r.view.timers == map[v.nextTimer := Deadline(|v.calls|)] && Live(w.log) == Some((version, request))
      case Deadline(call) =>
        && call < |v.calls| && r.log == w.log + [TimedOut(v.calls[call].version)] && r.view.timers == map[]
        && r.view.calls == v.calls[call := v.calls[call].(aborted := true)]
  {
    Reached(steps);
    var w := Run(START, steps);
    hide Run, Live, LatestAim, AllLegitimate, CallsKnown, Known, InForce, ActiveOnly;
    OnlyTimer(w, timer);
    assert Waiting(w, timer) || Limiting(w, timer);
    assert w.log + [] == w.log;
  }

  /** After any run a result is applied exactly when there is one, the session is current and the offer of its call is
      still in force: the latest accepted, and since then no reset, no stop and no deadline. */
  lemma AppliedExactly(steps: seq<Step>, call: nat, result: bool, current: bool)
    requires InPhase(Run(START, steps).view, call, Running)
    ensures var w := Run(START, steps); var c := w.view.calls[call];
      After(w, Settle(call, result, current)).log
      == if result && current && Live(w.log) == Some((c.version, c.request)) then w.log + [Applied(c.version, c.request)] else w.log
  {
    Reached(steps);
    var w := Run(START, steps);
    hide Run, Live, LatestAim, AllLegitimate, Known, OneTimer;
    assert Applicable(w, call);
    assert w.log + [] == w.log;
    hide CallsKnown;
  }

  /** A new offer, a reset and a stop disarm what was armed and abort every call still running. */
  lemma EverythingCancelled(steps: seq<Step>, step: Step)
    requires step.Reset? || step.Stop? || (step.Offer? && Accepts(Run(START, steps).view, step.request, step.current))
    ensures var w := Run(START, steps); var r := After(w, step);
      && (forall t :: t in w.view.timers ==> t !in r.view.timers) && |r.view.calls| == |w.view.calls|
      && forall i :: 0 <= i < |r.view.calls| && Unsettled(r.view.calls[i]) ==> r.view.calls[i].aborted
  {
    Reached(steps);
    var w := Run(START, steps);
    CancelDisarms(w);
    CancelKeeps(w.view);
    hide Run, Live, LatestAim, AllLegitimate, CallsKnown, Known, InForce;
  }

  /** The clean-up of the newest call disarms its deadline and leaves no call active; of an older one it changes neither. */
  lemma FinishedCall(steps: seq<Step>, call: nat)
    requires InPhase(Run(START, steps).view, call, Settled)
    ensures var w := Run(START, steps); var r := After(w, Finish(call));
      && r.log == w.log && r.view.calls == w.view.calls[call := w.view.calls[call].(phase := Finished)]
      && if w.view.calls[call].version == w.view.revision
         then r.view.timers == map[] && r.view.deadline == None && r.view.active == None
         else r.view.timers == w.view.timers && r.view.active == w.view.active
  {
    Reached(steps);
    var w := Run(START, steps);
    hide Run, Live, LatestAim, AllLegitimate, Known, InForce, ActiveOnly;
    if w.view.calls[call].version == w.view.revision {
      assert Started(w.view.revision) in w.log;
      forall t | t in w.view.timers ensures t !in After(w, Finish(call)).view.timers {
        assert Waiting(w, t) || Limiting(w, t);
      }
      hide CallsKnown;
    }
  }

  /** Progress: after any run, an offer that is taken and then its debounce, its call's turn and a result, each while the
      session is current, is applied with that request. */
  lemma OfferIsApplied(steps: seq<Step>, request: Request)
    requires var w := Run(START, steps); WasStopped !in w.log && LatestAim(w.log) != Some((request.aim, request.project))
    ensures var w := Run(START, steps); var n := w.view.revision + 1;
      Run(w, [Offer(request, true), Fire(w.view.nextTimer, true), Invoke(|w.view.calls|), Settle(|w.view.calls|, true, true)]).log
      == w.log + [Accepted(n, request), Started(n), Applied(n, request)]
  {
    Reached(steps);
    var w := Run(START, steps);
    hide Run, Live, LatestAim, AllLegitimate, CallsKnown, Known, InForce, ActiveOnly;
    assert Accepts(w.view, request, true);
    CancelDisarms(w);
    var timer, call := w.view.nextTimer, |w.view.calls|;
    var offered := After(w, Offer(request, true));
    assert offered.view.timers == map[timer := Debounce(w.view.revision + 1, request)];
    assert |offered.view.calls| == call && offered.log == w.log + [Accepted(w.view.revision + 1, request)];
    hide Good, Cancelled;
    FourSteps(w, offered, request, timer, call);
  }

  lemma FourSteps(w: World, offered: World, request: Request, timer: nat, call: nat)
    requires offered == After(w, Offer(request, true)) && !offered.view.stopped && |offered.view.calls| == call
    requires var n := offered.view.revision;
      offered.view.timers == map[timer := Debounce(n, request)] && offered.log == w.log + [Accepted(n, request)]
    ensures var n := offered.view.revision;
      Run(w, [Offer(request, true), Fire(timer, true), Invoke(call), Settle(call, true, true)]).log
      == w.log + [Accepted(n, request), Started(n), Applied(n, request)]
  {
    var n := offered.view.revision;
    var started := After(offered, Fire(timer, true));
    assert started.log == offered.log + [Started(n)] && |started.view.calls| == call + 1;
    assert started.view.calls[call] == Call(n, request, Scheduled, false) && !started.view.stopped && started.view.revision == n;
    var running := After(started, Invoke(call));
    assert running.view.calls[call] == Call(n, request, Running, false);
    var settled := After(running, Settle(call, true, true));
    assert settled.log == started.log + [Applied(n, request)];
    hide After;
    RunFirst(w, Offer(request, true), [Fire(timer, true), Invoke(call), Settle(call, true, true)]);
    RunFirst(offered, Fire(timer, true), [Invoke(call), Settle(call, true, true)]);
    RunFirst(started, Invoke(call), [Settle(call, true, true)]);
    RunFirst(running, Settle(call, true, true), []);
  }

  lemma RunFirst(w: World, step: Step, more: seq<Step>)
    ensures Run(w, [step] + more) == Run(After(w, step), more) && (more == [] ==> Run(w, [step]) == After(w, step))
    ensures |more| == 1 ==> Run(w, [step, more[0]]) == Run(After(w, step), more)
    ensures |more| == 2 ==> Run(w, [step, more[0], more[1]]) == Run(After(w, step), more)
    ensures |more| == 3 ==> Run(w, [step, more[0], more[1], more[2]]) == Run(After(w, step), more)
  {
    hide After;
    var steps := [step] + more;
    assert steps[1..] == more;
    assert more == [] ==> steps == [step];
    assert |more| == 1 ==> steps == [step, more[0]];
    assert |more| == 2 ==> steps == [step, more[0], more[1]];
    assert |more| == 3 ==> steps == [step, more[0], more[1], more[2]];
  }
}
