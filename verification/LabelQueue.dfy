/** The session-label queue (extension/labelling.ts): one debounce or deadline timer at a time, and late results
    discarded. */
module LabelQueue {
  import opened Options
  import opened Strings

  datatype Request = Request(aim: Str, project: Str, previous: Str)

  /** What decides whether a request is new: the previous title is context only. */
  function Aim(r: Request): (Str, Str) {
    (r.aim, r.project)
  }

  datatype Callback = Debounce(version: nat, request: Request) | Deadline(call: nat)

  /** A call waits for its turn, runs, has settled, and is finished once its clean-up ran. */
  datatype Phase = Scheduled | Running | Settled | Finished

  datatype Call = Call(version: nat, request: Request, phase: Phase, aborted: bool)

  /** The queue's variables beside the host's: the armed timers and the calls made. A call is its controller. */
  datatype View = View(revision: nat, stopped: bool, key: Option<(Str, Str)>, debounce: Option<nat>, deadline: Option<nat>,
                       active: Option<nat>, timers: map<nat, Callback>, nextTimer: nat, calls: seq<Call>)

  const CREATED := View(0, false, None, None, None, None, map[], 0, [])

  function Cleared(timers: map<nat, Callback>, id: Option<nat>): map<nat, Callback> {
    if id.Some? then timers - {id.value} else timers
  }

  function Aborted(calls: seq<Call>, c: Option<nat>): seq<Call> {
    if c.Some? && c.value < |calls| then calls[c.value := calls[c.value].(aborted := true)] else calls
  }

  function Cancelled(v: View): View {
    v.(revision := v.revision + 1, timers := Cleared(Cleared(v.timers, v.debounce), v.deadline),
       debounce := None, deadline := None, calls := Aborted(v.calls, v.active), active := None)
  }

  predicate Accepts(v: View, request: Request, current: bool) {
    !v.stopped && current && v.key != Some(Aim(request))
  }

  function Offered(v: View, request: Request, current: bool): View {
    if !Accepts(v, request, current) then v
    else
      var c := Cancelled(v);
      c.(key := Some(Aim(request)), debounce := Some(c.nextTimer), nextTimer := c.nextTimer + 1,
         timers := c.timers[c.nextTimer := Debounce(c.revision, request)])
  }

  predicate Starts(v: View, version: nat, current: bool) {
    !v.stopped && version == v.revision && current
  }

  /** An armed timer fires: the host forgets it and runs its callback. */
  function Fired(v: View, timer: nat, current: bool): View
    requires timer in v.timers
  {
    var f := v.(timers := v.timers - {timer});
    match v.timers[timer]
    case Debounce(version, request) =>
      var g := f.(debounce := None);
      if !Starts(g, version, current) then g
      else g.(active := Some(|g.calls|), calls := g.calls + [Call(version, request, Scheduled, false)],
              deadline := Some(g.nextTimer), nextTimer := g.nextTimer + 1, timers := g.timers[g.nextTimer := Deadline(|g.calls|)])
    case Deadline(call) => f.(deadline := None, calls := Aborted(f.calls, Some(call)))
  }

  predicate Applies(v: View, call: nat, result: bool, current: bool)
    requires call < |v.calls|
  {
    result && !v.calls[call].aborted && !v.stopped && v.calls[call].version == v.revision && current
  }

  function Moved(v: View, call: nat, phase: Phase): View
    requires call < |v.calls|
  {
    v.(calls := v.calls[call := v.calls[call].(phase := phase)])
  }

  /** The clean-up after a call, which leaves a newer revision alone. */
  function CleanedUp(v: View, call: nat): View
    requires call < |v.calls|
  {
    var f := Moved(v, call, Finished);
    if f.calls[call].version != f.revision then f
    else f.(timers := Cleared(f.timers, f.deadline), deadline := None, active := None)
  }

  function Resetted(v: View): View {
    Cancelled(v).(key := None)
  }

  function Stopped(v: View): View {
    Cancelled(v.(stopped := true))
  }

  /** The queue as the object it is, with the host's timers and calls. */
  class Queue {
    var revision: nat
    var stopped: bool
    var key: Option<(Str, Str)>
    var debounce: Option<nat>
    var deadline: Option<nat>
    var active: Option<nat>
    var timers: map<nat, Callback>
    var nextTimer: nat
    var calls: seq<Call>

    function Now(): View
      reads this
    {
      View(revision, stopped, key, debounce, deadline, active, timers, nextTimer, calls)
    }

    constructor ()
      ensures Now() == CREATED
    {
      revision, stopped, key := 0, false, None;
      debounce, deadline, active := None, None, None;
      timers, nextTimer, calls := map[], 0, [];
    }

    method SetTimeout(callback: Callback) returns (id: nat)
      modifies this`timers, this`nextTimer
      ensures id == old(nextTimer) && nextTimer == id + 1 && timers == old(timers)[id := callback]
    {
      id := nextTimer;
      timers := timers[id := callback];
      nextTimer := nextTimer + 1;
    }

    method ClearTimeout(id: nat)
      modifies this`timers
      ensures timers == old(timers) - {id}
    {
      timers := timers - {id};
    }

    method Abort(call: nat)
      modifies this`calls
      ensures calls == Aborted(old(calls), Some(call))
    {
      if call < |calls| {
        calls := calls[call := calls[call].(aborted := true)];
      }
    }

    method Cancel()
      modifies this
      ensures Now() == Cancelled(old(Now()))
    {
      revision := revision + 1;
      if debounce.Some? { ClearTimeout(debounce.value); }
      if deadline.Some? { ClearTimeout(deadline.value); }
      debounce, deadline := None, None;
      if active.Some? { Abort(active.value); }
      active := None;
    }

    method Offer(request: Request, current: bool)
      modifies this
      ensures Now() == Offered(old(Now()), request, current)
    {
      if stopped || !current { return; }
      var nextKey := Aim(request);
      if key == Some(nextKey) { return; }
      Cancel();
      key := Some(nextKey);
      var id := SetTimeout(Debounce(revision, request));
      debounce := Some(id);
    }

    /** The host runs an armed timer's callback. */
    method Fire(timer: nat, current: bool)
      requires timer in timers
      modifies this
      ensures Now() == Fired(old(Now()), timer, current)
    {
      var callback := timers[timer];
      ClearTimeout(timer);
      match callback
      case Debounce(version, request) =>
        debounce := None;
        if stopped || version != revision || !current { return; }
        var call := |calls|;
        calls := calls + [Call(version, request, Scheduled, false)];
        active := Some(call);
        var id := SetTimeout(Deadline(call));
        deadline := Some(id);
      case Deadline(call) =>
        deadline := None;
        Abort(call);
    }

    /** The summary settled; the result is applied only when it still matters. */
    method Settle(call: nat, result: bool, current: bool) returns (applied: bool)
      requires call < |calls|
      modifies this`calls
      ensures Now() == Moved(old(Now()), call, Settled) && applied == Applies(old(Now()), call, result, current)
    {
      var c := calls[call];
      applied := result && !c.aborted && !stopped && c.version == revision && current;
      calls := calls[call := c.(phase := Settled)];
    }

    method Finish(call: nat)
      requires call < |calls|
      modifies this
      ensures Now() == CleanedUp(old(Now()), call)
    {
      calls := calls[call := calls[call].(phase := Finished)];
      if calls[call].version != revision { return; }
      if deadline.Some? { ClearTimeout(deadline.value); }
      deadline, active := None, None;
    }

    method Reset()
      modifies this
      ensures Now() == Resetted(old(Now()))
    {
      Cancel();
      key := None;
    }

    method Stop()
      modifies this
      ensures Now() == Stopped(old(Now()))
    {
      stopped := true;
      Cancel();
    }
  }
}
