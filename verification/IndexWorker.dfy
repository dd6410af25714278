/** The bounded ingress in front of the scheduler, and the worker that drains it. */
module IndexWorker {
  import opened Scheduler

  // ---------------------------------------------------------------- permits

  /** The whole path of an event: a permit is taken from `free`, is held by a sender
      until the event is in `channel`, and travels with it through the lanes and the
      running handler. `open` says whether the worker still owns the receiver. */
  datatype Sys = Sys(capacity: nat, free: nat, held: nat, channel: seq<Event>, open: bool, sched: Sched)

  datatype SysAction =
    | Acquire
    | Push(event: Event)
    | Recv
    | StartOne
    | FinishOne(index: nat)
    | Stop

  datatype SendOutcome = Accepted | Full | Closed

  function SysInit(capacity: nat, limit: nat): Sys {
    Sys(capacity, capacity, 0, [], true, Scheduler.Init(limit))
  }

  /** A push to a receiver that is gone hands the event back and drops its permit; a
      finished handler drops its permit; a worker that stops drops everything it
      holds. */
  ghost function SysApply(s: Sys, action: SysAction): Sys {
    match action
    case Acquire => if s.free > 0 then s.(free := s.free - 1, held := s.held + 1) else s
    case Push(event) =>
      if s.held == 0 then s
      else if s.open then s.(held := s.held - 1, channel := s.channel + [event])
      else s.(held := s.held - 1, free := s.free + 1)
    case Recv =>
      if s.open && s.channel != [] then
        s.(channel := s.channel[1..], sched := Scheduler.Apply(s.sched, Accept(s.channel[0])))
      else s
    case StartOne => s.(sched := Scheduler.Apply(s.sched, Start))
    case FinishOne(i) =>
      s.(sched := Scheduler.Apply(s.sched, Finish(i)),
         free := if i < |s.sched.running| then s.free + 1 else s.free)
    case Stop =>
      s.(open := false, channel := [], sched := Scheduler.Init(s.sched.limit),
         free := s.free + Pending(s))
  }

  ghost function SysRun(s: Sys, actions: seq<SysAction>): Sys
    decreases |actions|
  {
    if actions == [] then s else SysRun(SysApply(s, actions[0]), actions[1..])
  }

  ghost function TrySend(s: Sys, event: Event): (Sys, SendOutcome) {
    if s.free == 0 then (s, Full)
    else (SysApply(SysApply(s, Acquire), Push(event)), if s.open then Accepted else Closed)
  }

  function Depth(s: Sys): int {
    s.capacity - s.free
  }

  /** Events that have a permit and are not with a sender. */
  ghost function Pending(s: Sys): nat {
    |s.channel| + Total(s.sched.lanes.waiting) + |s.sched.running|
  }

  ghost predicate Conserved(s: Sys) {
    Scheduler.Inv(s.sched) && s.free + s.held + Pending(s) == s.capacity
  }

  /** What one scheduler step does to the number of events it holds. */
  lemma SchedCounts(s: Sched, action: Action)
    requires Inv(s)
    ensures var s' := Apply(s, action);
            Total(s'.lanes.waiting) + |s'.running|
            == Total(s.lanes.waiting) + |s.running|
               + (if action.Accept? then 1 else if action.Finish? && action.index < |s.running| then -1 else 0)
  {
    match action
    case Accept(event) => AcceptCounts(s.lanes, event);
    case Start => if CanStart(s) { StartCounts(s.lanes); }
    case Finish(_) =>
  }

  lemma SchedStepKeeps(s: Sys, action: Action, s': Sys)
    requires Conserved(s)
    requires s'.sched == Apply(s.sched, action) && s'.capacity == s.capacity && s'.held == s.held
    requires s'.free + |s'.channel| == s.free + |s.channel|
               - (if action.Accept? then 1 else if action.Finish? && action.index < |s.sched.running| then -1 else 0)
    ensures Conserved(s')
  {
    ApplyKeeps(s.sched, action);
    SchedCounts(s.sched, action);
  }

  lemma SysApplyKeeps(s: Sys, action: SysAction)
    requires Conserved(s)
    ensures Conserved(SysApply(s, action))
  {
    var s' := SysApply(s, action);
    match action
    case Acquire =>
    case Push(_) =>
    case Recv =>
      if s.open && s.channel != [] {
        SchedStepKeeps(s, Accept(s.channel[0]), s');
      }
    case StartOne => SchedStepKeeps(s, Start, s');
    case FinishOne(i) => SchedStepKeeps(s, Finish(i), s');
    case Stop => InitInv(s.sched.limit);
  }

  lemma {:induction false} SysRunKeeps(s: Sys, actions: seq<SysAction>)
    requires Conserved(s)
    ensures Conserved(SysRun(s, actions)) && SysRun(s, actions).capacity == s.capacity
    decreases |actions|
  {
    if actions != [] {
      SysApplyKeeps(s, actions[0]);
      SysRunKeeps(SysApply(s, actions[0]), actions[1..]);
    }
  }

  /** Permit conservation over every run: free permits, permits held by senders, and
      events in the channel, the lanes and the running handlers always add up to the
      capacity. So the reported depth counts exactly the permits in use, and an event
      is refused as `Full` exactly when `capacity` of them are out. */
  lemma PermitsConserved(capacity: nat, limit: nat, actions: seq<SysAction>, event: Event)
    ensures var s := SysRun(SysInit(capacity, limit), actions);
            && s.free + s.held + |s.channel| + Total(s.sched.lanes.waiting) + |s.sched.running| == capacity
            && Depth(s) == s.held + Pending(s)
            && (TrySend(s, event).1 == Full <==> s.held + Pending(s) == capacity)
            && (TrySend(s, event).1 == Closed <==> s.held + Pending(s) < capacity && !s.open)
  {
    Scheduler.InitInv(limit);
    SysRunKeeps(SysInit(capacity, limit), actions);
  }

  /** A refused event leaves no trace: neither `Full` nor `Closed` changes any state,
      so a send to a stopped worker returns its permit. An accepted one is last in the
      channel. */
  lemma RefusalIsFree(s: Sys, event: Event)
    requires Conserved(s)
    ensures var (s', outcome) := TrySend(s, event);
            && (outcome != Accepted ==> s' == s)
            && (outcome == Accepted ==> s'.channel == s.channel + [event] && s'.free == s.free - 1
                                        && s'.sched == s.sched && s'.held == s.held)
            && Conserved(s')
  {
    SysApplyKeeps(s, Acquire);
    SysApplyKeeps(SysApply(s, Acquire), Push(event));
  }

  // ---------------------------------------------------------------- from sender to handler

  /** The events that sends put in the channel over a run, in order. */
  ghost function Sent(s: Sys, actions: seq<SysAction>): seq<Event>
    decreases |actions|
  {
    if actions == [] then []
    else
      (if actions[0].Push? && s.held > 0 && s.open then [actions[0].event] else [])
      + Sent(SysApply(s, actions[0]), actions[1..])
  }

  /** Nothing is lost or reordered on the way in: while the worker runs, what it has taken,
      followed by what is in the channel, is what was sent. */
  lemma {:induction false} TakenIsSent(s: Sys, actions: seq<SysAction>)
    requires forall a :: a in actions ==> a != Stop
    ensures var s' := SysRun(s, actions);
            s'.sched.accepted + s'.channel == s.sched.accepted + s.channel + Sent(s, actions)
    decreases |actions|
  {
    if actions != [] {
      var s1 := SysApply(s, actions[0]);
      assert actions[0] in actions && forall a :: a in actions[1..] ==> a in actions;
      TakenIsSent(s1, actions[1..]);
      OneTaken(s, actions[0]);
    }
  }

  lemma OneTaken(s: Sys, action: SysAction)
    requires action != Stop
    ensures var s' := SysApply(s, action);
            s'.sched.accepted + s'.channel
            == s.sched.accepted + s.channel
               + if action.Push? && s.held > 0 && s.open then [action.event] else []
  {
    match action
    case Push(event) => Assoc(s.sched.accepted, s.channel, [event]);
    case Recv =>
      if s.open && s.channel != [] {
        assert s.channel == [s.channel[0]] + s.channel[1..];
        Assoc(s.sched.accepted, [s.channel[0]], s.channel[1..]);
      }
    case Acquire =>
    case StartOne =>
    case FinishOne(_) =>
  }

  /** Once the worker has stopped it stays so: nothing is accepted, nothing is in the
      channel, and every permit is free or with a sender. */
  lemma StopIsFinal(s: Sys, actions: seq<SysAction>, event: Event)
    requires Conserved(s)
    ensures var s' := SysRun(SysApply(s, Stop), actions);
            && !s'.open && s'.channel == [] && Total(s'.sched.lanes.waiting) + |s'.sched.running| == 0
            && s'.free + s'.held == s'.capacity == s.capacity
            && TrySend(s', event).1 != Accepted
  {
    SysApplyKeeps(s, Stop);
    StoppedStays(SysApply(s, Stop), actions);
  }

  lemma {:induction false} StoppedStays(s: Sys, actions: seq<SysAction>)
    requires Conserved(s) && !s.open && Pending(s) == 0
    ensures var s' := SysRun(s, actions);
            Conserved(s') && !s'.open && Pending(s') == 0 && s'.capacity == s.capacity
    decreases |actions|
  {
    if actions != [] {
      var s1 := SysApply(s, actions[0]);
      SysApplyKeeps(s, actions[0]);
      if actions[0].StartOne? { SchedCounts(s.sched, Start); }
      if actions[0].Stop? { InitInv(s.sched.limit); }
      assert Pending(s1) == 0;
      StoppedStays(s1, actions[1..]);
    }
  }

  /** What to do next to empty the queue: take what is in the channel, finish what runs,
      start what waits. */
  ghost function NextAction(s: Sys): SysAction {
    if s.channel != [] then Recv else if s.sched.running != [] then FinishOne(0) else StartOne
  }

  ghost function Work(s: Sys): nat {
    3 * |s.channel| + 2 * Total(s.sched.lanes.waiting) + |s.sched.running|
  }

  lemma WorkFalls(s: Sys)
    requires Conserved(s) && s.open && s.sched.limit >= 1 && Pending(s) > 0
    ensures var s' := SysApply(s, NextAction(s));
            && Work(s') < Work(s) && s'.open && s'.held == s.held && s'.sched.limit == s.sched.limit
            && s'.capacity == s.capacity && s'.sched.accepted + s'.channel == s.sched.accepted + s.channel
  {
    OneTaken(s, NextAction(s));
    if s.channel != [] {
      SchedCounts(s.sched, Accept(s.channel[0]));
    } else if s.sched.running != [] {
      SchedCounts(s.sched, Finish(0));
    } else {
      SchedCounts(s.sched, Start);
      NeverStalls(s.sched);
    }
  }

  /** Nothing gets stuck on the way out: from every state of a running worker some run,
      taking nothing new, handles everything exactly once, those of one key in the order
      sent, and gives back every permit no sender holds. */
  lemma QueueEmpties(s: Sys)
    requires Conserved(s) && s.open && s.sched.limit >= 1
    ensures exists actions :: Emptied(s, SysRun(s, actions))
  {
    var actions := Emptying(s);
  }

  lemma {:induction false} Emptying(s: Sys) returns (actions: seq<SysAction>)
    requires Conserved(s) && s.open && s.sched.limit >= 1
    ensures Emptied(s, SysRun(s, actions))
    decreases Work(s)
  {
    if Pending(s) == 0 {
      NothingLeft(s);
      actions := [];
    } else {
      var next := NextAction(s);
      WorkFalls(s);
      SysApplyKeeps(s, next);
      actions := Emptying(SysApply(s, next));
      RunOneMore(s, next, actions);
      EmptiedEarlier(s, SysApply(s, next), SysRun(SysApply(s, next), actions));
      actions := [next] + actions;
    }
  }

  lemma EmptiedEarlier(s: Sys, s1: Sys, s': Sys)
    requires s1.held == s.held && s1.capacity == s.capacity && Emptied(s1, s')
    requires s1.sched.accepted + s1.channel == s.sched.accepted + s.channel
    ensures Emptied(s, s')
  {
  }

  lemma RunOneMore(s: Sys, action: SysAction, actions: seq<SysAction>)
    ensures SysRun(s, [action] + actions) == SysRun(SysApply(s, action), actions)
  {
    assert ([action] + actions)[1..] == actions;
  }

  ghost predicate Emptied(s: Sys, s': Sys) {
    && s'.held == s.held && s'.free + s'.held == s.capacity && s'.channel == []
    && s'.sched.accepted == s.sched.accepted + s.channel
    && multiset(s'.sched.finished) == multiset(s'.sched.accepted)
    && (forall k :: Of(s'.sched.finished, k) == Of(s'.sched.accepted, k))
  }

  lemma NothingLeft(s: Sys)
    requires Conserved(s) && Pending(s) == 0
    ensures Emptied(s, s)
  {
    IdleMeansHandled(s.sched);
    assert s.sched.accepted + s.channel == s.sched.accepted;
  }

  /** The sender's side: the semaphore's free permits and the channel behind it. */
  class IndexQueue {
    const capacity: nat
    var free: nat
    var channel: seq<Event>
    var open: bool

    constructor (capacity: nat)
      ensures this.capacity == free == capacity && channel == [] && open
    {
      this.capacity := capacity;
      free, channel, open := capacity, [], true;
    }

    /** Agrees with the system step whatever else the system holds. */
    method Offer(event: Event) returns (outcome: SendOutcome)
      modifies this
      ensures forall held, sched ::
                TrySend(Sys(capacity, old(free), held, old(channel), old(open), sched), event)
                == (Sys(capacity, free, held, channel, open, sched), outcome)
    {
      if free == 0 {
        return Full;
      }
      free := free - 1;
      if !open {
        free := free + 1;
        return Closed;
      }
      channel := channel + [event];
      outcome := Accepted;
    }
  }

  // ---------------------------------------------------------------- the worker

  /** The lane table and the loops that run it. The ghost fields record what passed
      through. */
  class Worker {
    const limit: nat
    var waiting: map<Key, seq<Event>>
    var active: set<Key>
    var ready: seq<Key>
    var running: seq<Event>
    ghost var accepted: seq<Event>
    ghost var started: seq<Event>
    ghost var finished: seq<Event>

    ghost function Value(): Sched
      reads this
    {
      Sched(Lanes(waiting, active, ready), running, limit, accepted, started, finished)
    }

    ghost predicate Valid()
      reads this
    {
      limit >= 1 && Inv(Value())
    }

    constructor (limit: nat)
      requires limit >= 1
      ensures Valid() && Value() == Scheduler.Init(limit)
    {
      this.limit := limit;
      waiting, active, ready, running := map[], {}, [], [];
      accepted, started, finished := [], [], [];
      new;
      Scheduler.InitInv(limit);
    }

    method Accept(event: Event)
      modifies this
      ensures Value() == Apply(old(Value()), Scheduler.Accept(event))
    {
      var key := event.Key();
      var lane := (if key in waiting then waiting[key] else []) + [event];
      waiting := waiting[key := lane];
      if |lane| == 1 && key !in active {
        ready := ready + [key];
      }
      accepted := accepted + [event];
    }

    /** `start_next` and the push of its handler: false when no key is ready. */
    method StartNext() returns (any: bool)
      requires |running| < limit
      requires ready != [] ==> ready[0] in waiting && waiting[ready[0]] != []
      modifies this
      ensures Value() == Apply(old(Value()), Scheduler.Start)
      ensures any == (old(ready) != [])
      ensures any ==> |running| == |old(running)| + 1
    {
      if ready == [] {
        return false;
      }
      var key := ready[0];
      ready := ready[1..];
      var lane := waiting[key];
      var queued := lane[0];
      lane := lane[1..];
      waiting := if lane == [] then waiting - {key} else waiting[key := lane];
      active := active + {key};
      running := running + [queued];
      started := started + [queued];
      any := true;
    }

    /** The handler at `i` completed. */
    method Finish(i: nat)
      requires i < |running|
      modifies this
      ensures Value() == Apply(old(Value()), Scheduler.Finish(i))
    {
      var key := running[i].Key();
      finished := finished + [running[i]];
      running := running[..i] + running[i + 1..];
      active := active - {key};
      if key in waiting {
        ready := ready + [key];
      }
    }

    /** A received event is queued: one more waits. */
    method Take(event: Event)
      requires Valid()
      modifies this
      ensures Valid() && accepted == old(accepted) + [event] && running == old(running)
      ensures Total(waiting) == Total(old(waiting)) + 1
    {
      ApplyKeeps(Value(), Scheduler.Accept(event));
      SchedCounts(Value(), Scheduler.Accept(event));
      Accept(event);
    }

    /** `running.next()` yields whichever handler completes first: one fewer runs. */
    method Complete()
      requires Valid() && running != []
      modifies this
      ensures Valid() && accepted == old(accepted) && |running| == |old(running)| - 1
      ensures Total(waiting) == Total(old(waiting))
      ensures exists e :: finished == old(finished) + [e] && e in old(running)
    {
      var i: nat :| i < |running|;
      ApplyKeeps(Value(), Scheduler.Finish(i));
      SchedCounts(Value(), Scheduler.Finish(i));
      Finish(i);
    }

    /** Fill the free slots from the front of the ready queue; afterwards the slots are
        full or the queue empty, and something runs unless nothing waited. */
    method StartReady()
      requires Valid()
      modifies this
      ensures Valid() && accepted == old(accepted) && finished == old(finished)
      ensures |running| == limit || ready == []
      ensures Total(waiting) + |running| == Total(old(waiting)) + |old(running)|
      ensures waiting != map[] ==> running != []
    {
      var any := true;
      while |running| < limit && any
        invariant Valid() && accepted == old(accepted) && finished == old(finished)
        invariant any || ready == []
        invariant Total(waiting) + |running| == Total(old(waiting)) + |old(running)|
        decreases limit - |running|, any
      {
        SchedCounts(Value(), Scheduler.Start);
        ApplyKeeps(Value(), Scheduler.Start);
        if ready != [] {
          StartNextKeepsLanes(Value().lanes);
        }
        any := StartNext();
      }
      if running == [] && waiting != map[] {
        NeverStalls(Value());
      }
    }

    /** Run everything accepted to completion, whichever handler finishes first each
        time: the work left falls by one per iteration, and at the end every accepted
        event has been handled exactly once, those of one key finishing in order. */
    method Drain()
      requires Valid()
      modifies this
      ensures Valid() && waiting == map[] && running == []
      ensures accepted == old(accepted)
      ensures multiset(finished) == multiset(accepted)
      ensures forall k :: Of(finished, k) == Of(accepted, k)
    {
      while waiting != map[] || running != []
        invariant Valid() && accepted == old(accepted)
        decreases Total(waiting) + |running|
      {
        StartReady();
        Complete();
      }
      IdleMeansHandled(Value());
    }

    /** The main loop over what producers send before they hang up. `select!` may take
        any branch that is enabled: a finished handler, the next event, or the shutdown,
        which sweeps what has already arrived and drains. It ends in every schedule, it
        never waits with work left and nothing to wait for, and whatever was taken from
        the channel has been handled exactly once, those of one key finishing in
        order; without a shutdown that is everything. */
    method RunLoop(arrivals: seq<Event>) returns (taken: nat, shutdown: bool)
      requires Valid() && Value() == Scheduler.Init(limit)
      modifies this
      ensures waiting == map[] && running == []
      ensures taken <= |arrivals| && (!shutdown ==> taken == |arrivals|)
      ensures multiset(finished) == multiset(arrivals[..taken])
      ensures forall k :: Of(finished, k) == Of(arrivals[..taken], k)
    {
      taken, shutdown := 0, false;
      var open := true;
      while true
        invariant Valid() && taken <= |arrivals| && accepted == arrivals[..taken]
        invariant !open ==> taken == |arrivals|
        invariant !shutdown
        decreases 2 * (|arrivals| - taken) + Total(waiting) + |running| + (if open then 1 else 0)
      {
        StartReady();
        if !open && waiting == map[] && running == [] {
          break;
        }
        var cancelled: bool := *;
        if cancelled {
          shutdown := true;
          var seen: nat :| taken <= seen <= |arrivals|;
          taken := Sweep(arrivals, taken, seen);
          Drain();
          return;
        }
        taken, open := Select(arrivals, taken, open);
      }
      IdleMeansHandled(Value());
    }

    /** One pass of `select!` without a shutdown: a handler finishes, or the next event
        arrives, or the producers turn out to have hung up. */
    method Select(arrivals: seq<Event>, from: nat, wasOpen: bool) returns (taken: nat, open: bool)
      requires Valid() && from <= |arrivals| && accepted == arrivals[..from]
      requires !wasOpen ==> from == |arrivals| && running != []
      modifies this
      ensures Valid() && from <= taken <= |arrivals| && accepted == arrivals[..taken]
      ensures !open ==> taken == |arrivals|
      ensures 2 * (|arrivals| - taken) + Total(waiting) + |running| + (if open then 1 else 0)
           == 2 * (|arrivals| - from) + Total(old(waiting)) + |old(running)| + (if wasOpen then 1 else 0) - 1
    {
      taken, open := from, wasOpen;
      var handlerFirst: bool := *;
      if running != [] && (!open || handlerFirst) {
        Complete();
      } else if taken < |arrivals| {
        Take(arrivals[taken]);
        taken := taken + 1;
      } else {
        open := false;
      }
    }

    /** Take everything already in the channel. */
    method Sweep(arrivals: seq<Event>, from: nat, seen: nat) returns (taken: nat)
      requires Valid() && from <= seen <= |arrivals| && accepted == arrivals[..from]
      modifies this
      ensures Valid() && taken == seen && accepted == arrivals[..seen]
    {
      taken := from;
      while taken < seen
        invariant Valid() && from <= taken <= seen && accepted == arrivals[..taken]
      {
        assert arrivals[..taken + 1] == arrivals[..taken] + [arrivals[taken]];
        Take(arrivals[taken]);
        taken := taken + 1;
      }
    }
  }
}
