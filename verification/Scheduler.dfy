/** The indexing scheduler: one FIFO lane per file, a queue of files ready to start,
    a bound on how many run at once, and the permit that travels with each event from
    the moment it is accepted until its handler has finished. */
module Scheduler {
  /** A file: knowledge base and object path. */
  type Key = (string, string)

  datatype Kind = Upsert | Refresh | Tombstone
  datatype Event = Event(kb: string, objectKey: string, kind: Kind) {
    function Key(): Key { (kb, objectKey) }
  }

  /** Events share a key exactly when they are about the same file, whatever happened to it. */
  lemma SameFile(a: Event, b: Event)
    ensures a.Key() == b.Key() <==> a.kb == b.kb && a.objectKey == b.objectKey
  {
  }

  /** Accepted events waiting to run, and the order in which keys became ready. */
  datatype Lanes = Lanes(waiting: map<Key, seq<Event>>, active: set<Key>, ready: seq<Key>) {
    function Lane(key: Key): seq<Event> {
      if key in waiting then waiting[key] else []
    }

    function Accept(event: Event): Lanes {
      var key := event.Key();
      var lane := Lane(key) + [event];
      this.(waiting := waiting[key := lane],
            ready := if |lane| == 1 && key !in active then ready + [key] else ready)
    }

    function Head(): Event
      requires ready != [] && Lane(ready[0]) != []
    {
      Lane(ready[0])[0]
    }

    /** The key that has been ready longest becomes active, and its lane loses its head. */
    function StartNext(): Lanes
      requires ready != [] && Lane(ready[0]) != []
    {
      var key := ready[0];
      var rest := Lane(key)[1..];
      Lanes(if rest == [] then waiting - {key} else waiting[key := rest], active + {key}, ready[1..])
    }

    function Finish(key: Key): Lanes {
      this.(active := active - {key}, ready := if key in waiting then ready + [key] else ready)
    }
  }

  /** The lanes, the handlers running, and what has been accepted, started and
      finished so far. */
  datatype Sched = Sched(lanes: Lanes, running: seq<Event>, limit: nat,
                         accepted: seq<Event>, started: seq<Event>, finished: seq<Event>)

  datatype Action = Accept(event: Event) | Start | Finish(index: nat)

  function Init(limit: nat): Sched {
    Sched(Lanes(map[], {}, []), [], limit, [], [], [])
  }

  predicate CanStart(s: Sched) {
    |s.running| < s.limit && s.lanes.ready != [] && s.lanes.Lane(s.lanes.ready[0]) != []
  }

  function Without(running: seq<Event>, i: nat): seq<Event>
    requires i < |running|
  {
    running[..i] + running[i + 1..]
  }

  /** One scheduler step; a step that is not enabled changes nothing. */
  function Apply(s: Sched, action: Action): Sched {
    match action
    case Accept(event) =>
      s.(lanes := s.lanes.Accept(event), accepted := s.accepted + [event])
    case Start =>
      if CanStart(s) then
        s.(lanes := s.lanes.StartNext(),
           running := s.running + [s.lanes.Head()],
           started := s.started + [s.lanes.Head()])
      else s
    case Finish(i) =>
      if i < |s.running| then
        s.(lanes := s.lanes.Finish(s.running[i].Key()),
           running := Without(s.running, i),
           finished := s.finished + [s.running[i]])
      else s
  }

  function Run(s: Sched, actions: seq<Action>): Sched
    decreases |actions|
  {
    if actions == [] then s else Run(Apply(s, actions[0]), actions[1..])
  }

  // ---------------------------------------------------------------- invariant

  /** The events of one key, in order. */
  function Of(events: seq<Event>, key: Key): seq<Event> {
    if events == [] then []
    else
      var last := events[|events| - 1];
      Of(events[..|events| - 1], key) + if last.Key() == key then [last] else []
  }

  ghost predicate NoDup(keys: seq<Key>) {
    forall i, j :: 0 <= i < j < |keys| ==> keys[i] != keys[j]
  }

  /** A key is ready exactly once exactly when it has events waiting and no handler. */
  ghost predicate LanesInv(l: Lanes) {
    && (forall k :: k in l.waiting ==> l.waiting[k] != [])
    && (forall k, i :: k in l.waiting && 0 <= i < |l.waiting[k]| ==> l.waiting[k][i].Key() == k)
    && NoDup(l.ready)
    && (forall k :: k in l.ready <==> k in l.waiting && k !in l.active)
  }

  /** At most one handler per key, and the active set is exactly the running keys. */
  ghost predicate RunningInv(running: seq<Event>, active: set<Key>, limit: nat) {
    && (forall i, j :: 0 <= i < j < |running| ==> running[i].Key() != running[j].Key())
    && (forall i :: 0 <= i < |running| ==> running[i].Key() in active)
    && (forall k :: k in active ==> exists i :: 0 <= i < |running| && running[i].Key() == k)
    && |running| <= limit
  }

  ghost predicate Inv(s: Sched) {
    && LanesInv(s.lanes)
    && RunningInv(s.running, s.lanes.active, s.limit)
    && (forall k :: InOrder(s, k))
  }

  /** Per key: what has finished, then what runs, is what has started; and that, then
      what waits, is what was accepted. All in order. */
  ghost predicate InOrder(s: Sched, key: Key) {
    && Of(s.started, key) + s.lanes.Lane(key) == Of(s.accepted, key)
    && Of(s.finished, key) + Of(s.running, key) == Of(s.started, key)
  }

  lemma OfAppend(events: seq<Event>, event: Event, key: Key)
    ensures Of(events + [event], key) == Of(events, key) + if event.Key() == key then [event] else []
  {
    assert (events + [event])[..|events|] == events;
  }

  lemma AcceptKeepsLanes(l: Lanes, event: Event)
    requires LanesInv(l)
    ensures LanesInv(l.Accept(event))
  {
    assert event.Key() !in l.waiting ==> event.Key() !in l.ready;
  }

  lemma AcceptKeepsOrder(s: Sched, event: Event, k: Key)
    requires InOrder(s, k)
    ensures InOrder(Apply(s, Accept(event)), k)
  {
    OfAppend(s.accepted, event, k);
    Assoc(Of(s.started, k), s.lanes.Lane(k), [event]);
  }

  lemma AcceptKeeps(s: Sched, event: Event)
    requires Inv(s)
    ensures Inv(Apply(s, Accept(event)))
  {
    AcceptKeepsLanes(s.lanes, event);
    forall k ensures InOrder(Apply(s, Accept(event)), k) {
      AcceptKeepsOrder(s, event, k);
    }
  }

  lemma StartNextKeepsLanes(l: Lanes)
    requires LanesInv(l) && l.ready != []
    ensures l.Lane(l.ready[0]) != [] && LanesInv(l.StartNext())
    ensures l.Head().Key() == l.ready[0] && l.ready[0] !in l.active
  {
    assert l.ready[0] in l.ready;
    var l' := l.StartNext();
    forall k ensures k in l'.ready <==> k in l'.waiting && k !in l'.active {
      assert k in l.ready <==> k == l.ready[0] || k in l'.ready;
      assert l.ready[0] !in l'.ready;
    }
  }

  lemma LaneAfterStart(l: Lanes, k: Key)
    requires l.ready != [] && l.Lane(l.ready[0]) != []
    ensures l.Lane(k) == (if k == l.ready[0] then [l.Head()] else []) + l.StartNext().Lane(k)
  {
  }

  lemma StartKeepsOrder(s: Sched, k: Key)
    requires InOrder(s, k) && CanStart(s) && s.lanes.Head().Key() == s.lanes.ready[0]
    ensures InOrder(Apply(s, Start), k)
  {
    var s' := Apply(s, Start);
    var event := s.lanes.Head();
    var next := if k == s.lanes.ready[0] then [event] else [];
    LaneAfterStart(s.lanes, k);
    OfAppend(s.started, event, k);
    OfAppend(s.running, event, k);
    Assoc(Of(s.started, k), next, s'.lanes.Lane(k));
    Assoc(Of(s.finished, k), Of(s.running, k), next);
  }

  lemma StartKeeps(s: Sched)
    requires Inv(s)
    ensures Inv(Apply(s, Start))
  {
    if CanStart(s) {
      StartNextKeepsLanes(s.lanes);
      StartKeepsRunning(s.running, s.lanes.active, s.limit, s.lanes.Head());
      forall k ensures InOrder(Apply(s, Start), k) {
        StartKeepsOrder(s, k);
      }
    }
  }

  lemma StartKeepsRunning(running: seq<Event>, active: set<Key>, limit: nat, event: Event)
    requires RunningInv(running, active, limit) && |running| < limit && event.Key() !in active
    ensures RunningInv(running + [event], active + {event.Key()}, limit)
  {
    var more := running + [event];
    forall k | k in active + {event.Key()} ensures exists i :: 0 <= i < |more| && more[i].Key() == k {
      if k == event.Key() {
        assert more[|running|].Key() == k;
      } else {
        var i :| 0 <= i < |running| && running[i].Key() == k;
        assert more[i].Key() == k;
      }
    }
  }

  lemma {:induction false} OfConcat(a: seq<Event>, b: seq<Event>, k: Key)
    ensures Of(a + b, k) == Of(a, k) + Of(b, k)
    decreases |b|
  {
    if b == [] {
      assert a + b == a;
    } else {
      var init, last := b[..|b| - 1], b[|b| - 1];
      assert a + b == (a + init) + [last];
      OfConcat(a, init, k);
      OfAppend(a + init, last, k);
    }
  }

  lemma {:induction false} OfNone(events: seq<Event>, k: Key)
    requires forall i :: 0 <= i < |events| ==> events[i].Key() != k
    ensures Of(events, k) == []
  {
    if events != [] {
      OfNone(events[..|events| - 1], k);
    }
  }

  lemma OfAround(before: seq<Event>, event: Event, after: seq<Event>, k: Key)
    ensures Of(before + [event] + after, k)
         == Of(before, k) + (if event.Key() == k then [event] else []) + Of(after, k)
  {
    OfConcat(before + [event], after, k);
    OfAppend(before, event, k);
  }

  /** The handler that finishes was the only one of its key, so what finishes is next in
      line. */
  lemma Handover(finished: seq<Event>, before: seq<Event>, event: Event, after: seq<Event>, k: Key)
    requires forall i :: 0 <= i < |before| ==> before[i].Key() != event.Key()
    requires forall i :: 0 <= i < |after| ==> after[i].Key() != event.Key()
    ensures Of(finished + [event], k) + Of(before + after, k) == Of(finished, k) + Of(before + [event] + after, k)
  {
    OfAround(before, event, after, k);
    OfConcat(before, after, k);
    OfAppend(finished, event, k);
    if event.Key() == k {
      OfNone(before, k);
      OfNone(after, k);
    }
    Regroup(Of(finished, k), Of(before, k), if event.Key() == k then [event] else [], Of(after, k));
  }

  lemma Regroup(finished: seq<Event>, before: seq<Event>, next: seq<Event>, after: seq<Event>)
    requires next == [] || (before == [] && after == [])
    ensures (finished + next) + (before + after) == finished + (before + next + after)
  {
  }

  lemma Assoc(a: seq<Event>, b: seq<Event>, c: seq<Event>)
    ensures (a + b) + c == a + (b + c)
  {
  }

  lemma StillRuns(running: seq<Event>, i: nat, j: nat)
    requires i < |running| && j < |running| && i != j
    ensures running[j] in Without(running, i)
  {
    assert Without(running, i)[if j < i then j else j - 1] == running[j];
  }

  lemma FinishKeepsRunning(running: seq<Event>, active: set<Key>, limit: nat, i: nat)
    requires RunningInv(running, active, limit) && i < |running|
    ensures RunningInv(Without(running, i), active - {running[i].Key()}, limit)
    ensures running[i].Key() in active
  {
    forall k | k in active - {running[i].Key()}
      ensures exists j :: 0 <= j < |Without(running, i)| && Without(running, i)[j].Key() == k
    {
      var j :| 0 <= j < |running| && running[j].Key() == k;
      StillRuns(running, i, j);
    }
  }

  lemma FinishKeepsLanes(l: Lanes, key: Key)
    requires LanesInv(l) && key in l.active
    ensures LanesInv(l.Finish(key))
  {
    assert key !in l.ready;
  }

  lemma FinishKeepsOrder(s: Sched, i: nat, k: Key)
    requires InOrder(s, k) && i < |s.running|
    requires forall a, b :: 0 <= a < b < |s.running| ==> s.running[a].Key() != s.running[b].Key()
    ensures InOrder(Apply(s, Finish(i)), k)
  {
    var before, after := s.running[..i], s.running[i + 1..];
    assert s.running == before + [s.running[i]] + after;
    Handover(s.finished, before, s.running[i], after, k);
  }

  lemma FinishKeeps(s: Sched, i: nat)
    requires Inv(s)
    ensures Inv(Apply(s, Finish(i)))
  {
    if i < |s.running| {
      FinishKeepsRunning(s.running, s.lanes.active, s.limit, i);
      FinishKeepsLanes(s.lanes, s.running[i].Key());
      forall k ensures InOrder(Apply(s, Finish(i)), k) {
        FinishKeepsOrder(s, i, k);
      }
    }
  }

  lemma ApplyKeeps(s: Sched, action: Action)
    requires Inv(s)
    ensures Inv(Apply(s, action))
  {
    match action
    case Accept(event) => AcceptKeeps(s, event);
    case Start => StartKeeps(s);
    case Finish(i) => FinishKeeps(s, i);
  }

  lemma {:induction false} RunKeeps(s: Sched, actions: seq<Action>)
    requires Inv(s)
    ensures Inv(Run(s, actions))
    decreases |actions|
  {
    if actions != [] {
      ApplyKeeps(s, actions[0]);
      RunKeeps(Apply(s, actions[0]), actions[1..]);
    }
  }

  lemma InitInv(limit: nat)
    ensures Inv(Init(limit))
  {
  }

  /** Ordering and exclusion, for every interleaving of accepts, starts and finishes:
      per key, what has finished, what runs and what still waits make up, in that order,
      what was accepted; running handlers have distinct keys, are exactly the active ones, and
      never exceed the bound; a ready key is listed once and is exactly one that waits
      without a handler. */
  lemma Scheduling(limit: nat, actions: seq<Action>, key: Key)
    ensures var s := Run(Init(limit), actions);
            && Of(s.finished, key) + Of(s.running, key) == Of(s.started, key)
            && Of(s.started, key) + s.lanes.Lane(key) == Of(s.accepted, key)
            && (forall i, j :: 0 <= i < j < |s.running| ==> s.running[i].Key() != s.running[j].Key())
            && (key in s.lanes.active <==> exists i :: 0 <= i < |s.running| && s.running[i].Key() == key)
            && |s.running| <= limit
            && (key in s.lanes.ready <==> s.lanes.Lane(key) != [] && key !in s.lanes.active)
            && NoDup(s.lanes.ready)
  {
    InitInv(limit);
    RunKeeps(Init(limit), actions);
    LimitFixed(Init(limit), actions);
    assert InOrder(Run(Init(limit), actions), key);
  }

  lemma {:induction false} LimitFixed(s: Sched, actions: seq<Action>)
    ensures Run(s, actions).limit == s.limit
    decreases |actions|
  {
    if actions != [] {
      LimitFixed(Apply(s, actions[0]), actions[1..]);
    }
  }

  // ---------------------------------------------------------------- fairness

  /** Where a key stands `s'` after `s`, when it was at position p of the ready queue:
      still queued, one place further up per start; or started, as the start right
      after p others, none of them its own. */
  ghost predicate Served(s: Sched, s': Sched, p: nat)
    requires p < |s.lanes.ready|
  {
    var key := s.lanes.ready[p];
    var before := |s.started|;
    && s.started <= s'.started
    && (|s'.started| <= before + p ==>
          var q := p - (|s'.started| - before);
          q < |s'.lanes.ready| && s'.lanes.ready[q] == key)
    && (|s'.started| > before + p ==> s'.started[before + p].Key() == key)
    && (forall m :: before <= m < |s'.started| && m < before + p ==> s'.started[m].Key() != key)
  }

  lemma OneStepServed(s: Sched, action: Action, p: nat)
    requires Inv(s) && p < |s.lanes.ready|
    ensures Served(s, Apply(s, action), p)
  {
    if action.Start? && CanStart(s) {
      StartNextKeepsLanes(s.lanes);
    }
  }

  lemma ServedOnward(s: Sched, s1: Sched, s': Sched, p: nat)
    requires p < |s.lanes.ready| && Served(s, s1, p)
    requires |s1.started| > |s.started| + p ==> s1.started <= s'.started
    requires |s1.started| <= |s.started| + p ==> Served(s1, s', p - (|s1.started| - |s.started|))
    ensures Served(s, s', p)
  {
  }

  /** Fairness: a key at position p in the ready queue starts after exactly p other
      starts, whatever accepts and finishes intervene. */
  lemma {:induction false} StartsInReadyOrder(s: Sched, actions: seq<Action>, p: nat)
    requires Inv(s) && p < |s.lanes.ready|
    ensures Served(s, Run(s, actions), p)
    decreases |actions|
  {
    if actions != [] {
      var s1 := Apply(s, actions[0]);
      ApplyKeeps(s, actions[0]);
      OneStepServed(s, actions[0], p);
      if |s1.started| > |s.started| + p {
        StartedGrows(s1, actions[1..]);
      } else {
        StartsInReadyOrder(s1, actions[1..], p - (|s1.started| - |s.started|));
      }
      ServedOnward(s, s1, Run(s1, actions[1..]), p);
    }
  }

  lemma {:induction false} StartedGrows(s: Sched, actions: seq<Action>)
    ensures s.started <= Run(s, actions).started
    decreases |actions|
  {
    if actions != [] {
      StartedGrows(Apply(s, actions[0]), actions[1..]);
    }
  }

  // ---------------------------------------------------------------- counting what waits

  ghost function Total(waiting: map<Key, seq<Event>>): nat
    decreases |waiting|
  {
    if waiting == map[] then 0
    else
      var k :| k in waiting;
      |waiting[k]| + Total(waiting - {k})
  }

  lemma {:induction false} TotalSplits(waiting: map<Key, seq<Event>>, key: Key)
    requires key in waiting
    ensures Total(waiting) == |waiting[key]| + Total(waiting - {key})
    decreases |waiting|
  {
    var k :| k in waiting && Total(waiting) == |waiting[k]| + Total(waiting - {k});
    if k != key {
      TotalSplits(waiting - {k}, key);
      TotalSplits(waiting - {key}, k);
      assert waiting - {k} - {key} == waiting - {key} - {k};
    }
  }

  lemma TotalUpdate(waiting: map<Key, seq<Event>>, key: Key, lane: seq<Event>)
    ensures Total(waiting[key := lane])
         == Total(waiting) - (if key in waiting then |waiting[key]| else 0) + |lane|
  {
    TotalSplits(waiting[key := lane], key);
    assert waiting[key := lane] - {key} == waiting - {key};
    if key in waiting {
      TotalSplits(waiting, key);
    } else {
      assert waiting - {key} == waiting;
    }
  }

  lemma AcceptCounts(l: Lanes, event: Event)
    ensures Total(l.Accept(event).waiting) == Total(l.waiting) + 1
  {
    TotalUpdate(l.waiting, event.Key(), l.Lane(event.Key()) + [event]);
  }

  lemma StartCounts(l: Lanes)
    requires l.ready != [] && l.Lane(l.ready[0]) != []
    ensures Total(l.StartNext().waiting) == Total(l.waiting) - 1
  {
    var key := l.ready[0];
    TotalSplits(l.waiting, key);
    TotalUpdate(l.waiting, key, l.waiting[key][1..]);
  }

  /** Work left with nothing running is never stuck: a lane that waits without a
      handler is in the ready queue. */
  lemma NeverStalls(s: Sched)
    requires Inv(s) && s.running == [] && s.lanes.waiting != map[] && s.limit >= 1
    ensures CanStart(s)
  {
    var k :| k in s.lanes.waiting;
    assert k !in s.lanes.active;
    assert k in s.lanes.ready;
    StartNextKeepsLanes(s.lanes);
  }

  /** Once nothing waits and nothing runs, every accepted event has been handled
      exactly once, and those of one key finished in the order they were accepted. */
  lemma IdleMeansHandled(s: Sched)
    requires Inv(s) && s.running == [] && s.lanes.waiting == map[]
    ensures multiset(s.finished) == multiset(s.accepted)
    ensures forall k :: Of(s.finished, k) == Of(s.accepted, k)
  {
    forall k ensures Of(s.finished, k) == Of(s.accepted, k) {
      assert InOrder(s, k);
    }
    SameEvents(s.finished, s.accepted);
  }

  lemma SameEvents(a: seq<Event>, b: seq<Event>)
    requires forall k :: Of(a, k) == Of(b, k)
    ensures multiset(a) == multiset(b)
  {
    forall e ensures multiset(a)[e] == multiset(b)[e] {
      CountOf(a, e);
      CountOf(b, e);
    }
  }

  lemma {:induction false} CountOf(events: seq<Event>, e: Event)
    ensures multiset(Of(events, e.Key()))[e] == multiset(events)[e]
  {
    if events != [] {
      var init, last := events[..|events| - 1], events[|events| - 1];
      CountOf(init, e);
      assert events == init + [last];
      assert multiset(events) == multiset(init) + multiset{last};
    }
  }
}
