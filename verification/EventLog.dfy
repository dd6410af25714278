/** The in-process event log: a bounded ring of recent events, a lossy broadcast
    channel for live ones, and subscribers that join the two.

    Publishing and subscribing hold the ring lock, so each is one atomic step. A
    subscriber reads its receiver without the lock and takes the lock afterwards to
    refill, so a lagging read and the refill that answers it are two steps, with any
    number of publishes between them. */
module EventLog {
  import opened Basics

  datatype Event = Event(kb: string, body: string)
  datatype Entry = Entry(id: nat, event: Event)

  /** The ring, and the broadcast channel: `sent` is everything ever sent on it, of
      which a receiver can still read the last `depth`. */
  datatype Log = Log(nextId: nat, capacity: nat, buf: seq<Entry>, depth: nat, sent: seq<Entry>)

  datatype Phase = Reading | Refilling | Lagged(resumeAfter: nat)

  /** One subscriber. `start` and `yielded` record where it began and what it has
      delivered; `unread` is the id of the next entry its receiver will read. */
  datatype Sub = Sub(kb: string, backlog: seq<Entry>, unread: nat, cursor: nat, phase: Phase,
                     start: nat, yielded: seq<Entry>)

  datatype Gone = Gone(requested: nat, oldest: nat)

  // ---------------------------------------------------------------- ring

  function Oldest(buf: seq<Entry>): Option<nat> {
    if buf == [] then None else Some(buf[0].id)
  }

  function After(buf: seq<Entry>, cursor: nat): seq<Entry> {
    if buf == [] then []
    else (if buf[0].id > cursor then [buf[0]] else []) + After(buf[1..], cursor)
  }

  /** The last `capacity` entries: what popping the front until the ring fits leaves. */
  function Newest(buf: seq<Entry>, capacity: nat): seq<Entry> {
    if |buf| > capacity then buf[|buf| - capacity..] else buf
  }

  function Published(log: Log, event: Event): Log {
    var entry := Entry(log.nextId, event);
    log.(nextId := log.nextId + 1,
         buf := Newest(log.buf + [entry], log.capacity),
         sent := log.sent + [entry])
  }

  function Latest(log: Log): nat {
    if log.nextId == 0 then 0 else log.nextId - 1
  }

  /** `subscribe`: refuse a position that is behind the ring or ahead of the log,
      otherwise snapshot the backlog and attach a receiver at the channel's tail. */
  function Subscribed(log: Log, kb: string, after: Option<nat>): Result<Sub, Gone> {
    var oldest := Oldest(log.buf).GetOr(log.nextId);
    if after.Some? && ((after.value < Latest(log) && after.value + 1 < oldest) || after.value > Latest(log)) then
      Failure(Gone(after.value, oldest))
    else if after.Some? && after.value < Latest(log) then
      Success(Sub(kb, After(log.buf, after.value), log.nextId, after.value, Reading, after.value, []))
    else
      Success(Sub(kb, [], log.nextId, Latest(log), Reading, Latest(log), []))
  }

  /** The broker's retention test on the bounds of a stream. */
  predicate IsGone(after: nat, first: nat, last: nat) {
    (after < last && after + 1 < first) || after > last
  }

  // ---------------------------------------------------------------- subscriber

  /** Pass one entry: skip it if already covered, deliver it if it is the
      subscriber's knowledge base's. */
  function Passed(sub: Sub, entry: Entry): Sub {
    if entry.id <= sub.cursor then sub
    else if entry.event.kb == sub.kb then
      sub.(cursor := entry.id, yielded := sub.yielded + [entry])
    else
      sub.(cursor := entry.id)
  }

  /** The lock-holding half of a lag: resubscribe, refill from the ring, or give up
      when the ring no longer reaches back to the cursor. */
  function Refilled(log: Log, sub: Sub): Sub {
    var oldest := Oldest(log.buf);
    if oldest.Some? && oldest.value > sub.cursor + 1 then
      sub.(unread := log.nextId, phase := Lagged(sub.cursor))
    else
      sub.(unread := log.nextId, backlog := After(log.buf, sub.cursor), phase := Reading)
  }

  /** One atomic step of a subscriber; a subscriber with nothing to read, or whose
      stream has ended, does not move. */
  function Stepped(log: Log, sub: Sub): Sub {
    match sub.phase
    case Lagged(_) => sub
    case Refilling => Refilled(log, sub)
    case Reading =>
      if sub.backlog != [] then
        Passed(sub.(backlog := sub.backlog[1..]), sub.backlog[0])
      else if sub.unread == 0 || sub.unread > |log.sent| then
        sub
      else if |log.sent| - (sub.unread - 1) > log.depth then
        sub.(phase := Refilling)
      else
        Passed(sub.(unread := sub.unread + 1), log.sent[sub.unread - 1])
  }

  // ---------------------------------------------------------------- whole system

  datatype State = State(log: Log, subs: seq<Sub>)

  datatype Action =
    | Publish(event: Event)
    | Subscribe(kb: string, after: Option<nat>)
    | Step(index: nat)

  function Init(capacity: nat, depth: nat): State {
    State(Log(1, if capacity < 1 then 1 else capacity, [], depth, []), [])
  }

  function Apply(s: State, action: Action): State {
    match action
    case Publish(event) => s.(log := Published(s.log, event))
    case Subscribe(kb, after) =>
      (match Subscribed(s.log, kb, after)
       case Failure(_) => s
       case Success(sub) => s.(subs := s.subs + [sub]))
    case Step(i) =>
      if i < |s.subs| then s.(subs := s.subs[i := Stepped(s.log, s.subs[i])]) else s
  }

  /** Every interleaving of publishes, subscribes and subscriber steps is a sequence
      of actions. */
  function Run(s: State, actions: seq<Action>): State
    decreases |actions|
  {
    if actions == [] then s else Run(Apply(s, actions[0]), actions[1..])
  }

  // ---------------------------------------------------------------- invariant

  ghost predicate LogInv(log: Log) {
    && 1 <= log.capacity
    && log.nextId == |log.sent| + 1
    && (forall i :: 0 <= i < |log.sent| ==> log.sent[i].id == i + 1)
    && log.buf == Newest(log.sent, log.capacity)
  }

  /** The entries of `kb` in the stretch of the log a subscriber has passed. */
  function OfKb(entries: seq<Entry>, kb: string): seq<Entry> {
    if entries == [] then []
    else
      var last := entries[|entries| - 1];
      OfKb(entries[..|entries| - 1], kb) + if last.event.kb == kb then [last] else []
  }

  ghost predicate SubInv(log: Log, sub: Sub) {
    && sub.start <= sub.cursor <= |log.sent|
    && sub.yielded == OfKb(log.sent[sub.start..sub.cursor], sub.kb)
    && (sub.phase.Reading? ==>
          && sub.cursor + 1 <= sub.unread <= |log.sent| + 1
          && sub.backlog == log.sent[sub.cursor..sub.unread - 1])
    && (sub.phase.Refilling? ==> sub.backlog == [] && |log.sent| - sub.cursor > log.depth)
    && (sub.phase.Lagged? ==>
          sub.phase.resumeAfter == sub.cursor && |log.sent| - sub.cursor > log.capacity)
  }

  ghost predicate Inv(s: State) {
    LogInv(s.log) && forall i :: 0 <= i < |s.subs| ==> SubInv(s.log, s.subs[i])
  }

  lemma PublishKeepsLog(log: Log, event: Event)
    requires LogInv(log)
    ensures LogInv(Published(log, event))
  {
    var log' := Published(log, event);
    assert log.buf + [Entry(log.nextId, event)]
        == log'.sent[if |log.sent| > log.capacity then |log.sent| - log.capacity else 0..];
  }

  lemma PublishKeepsSub(log: Log, event: Event, sub: Sub)
    requires LogInv(log) && SubInv(log, sub)
    ensures SubInv(Published(log, event), sub)
  {
    var log' := Published(log, event);
    assert log'.sent[sub.start..sub.cursor] == log.sent[sub.start..sub.cursor];
    if sub.phase.Reading? {
      assert log'.sent[sub.cursor..sub.unread - 1] == log.sent[sub.cursor..sub.unread - 1];
    }
  }

  lemma {:induction false} AfterIsSuffix(entries: seq<Entry>, first: nat, cursor: nat)
    requires forall i :: 0 <= i < |entries| ==> entries[i].id == first + i
    requires first <= cursor + 1 <= first + |entries|
    ensures After(entries, cursor) == entries[cursor + 1 - first..]
    decreases |entries|
  {
    if entries != [] {
      if first <= cursor {
        AfterIsSuffix(entries[1..], first + 1, cursor);
      } else {
        AfterIsAll(entries, cursor);
      }
    }
  }

  lemma {:induction false} AfterIsAll(entries: seq<Entry>, cursor: nat)
    requires forall i :: 0 <= i < |entries| ==> entries[i].id > cursor
    ensures After(entries, cursor) == entries
  {
    if entries != [] {
      AfterIsAll(entries[1..], cursor);
    }
  }

  /** Whatever the ring still holds after a position it reaches back to is the log
      after that position. */
  lemma BacklogIsTail(log: Log, cursor: nat)
    requires LogInv(log)
    requires cursor <= |log.sent| <= cursor + log.capacity
    ensures After(log.buf, cursor) == log.sent[cursor..]
  {
    var dropped := |log.sent| - |log.buf|;
    AfterIsSuffix(log.buf, dropped + 1, cursor);
  }

  lemma SubscribeKeeps(log: Log, kb: string, after: Option<nat>)
    requires LogInv(log)
    ensures var r := Subscribed(log, kb, after); r.Success? ==> SubInv(log, r.value)
  {
    var r := Subscribed(log, kb, after);
    if r.Success? && after.Some? && after.value < Latest(log) {
      BacklogIsTail(log, after.value);
    }
  }

  lemma PassKeeps(log: Log, sub: Sub, next: Sub)
    requires LogInv(log) && SubInv(log, sub) && sub.phase.Reading?
    requires sub.cursor < |log.sent|
    requires next == sub.(backlog := next.backlog, unread := next.unread)
    requires sub.cursor + 2 <= next.unread <= |log.sent| + 1
    requires next.backlog == log.sent[sub.cursor + 1..next.unread - 1]
    ensures SubInv(log, Passed(next, log.sent[sub.cursor]))
  {
    OfKbExtends(log.sent, sub.start, sub.cursor, sub.kb);
  }

  lemma OfKbExtends(sent: seq<Entry>, start: nat, cursor: nat, kb: string)
    requires start <= cursor < |sent|
    ensures OfKb(sent[start..cursor + 1], kb)
         == OfKb(sent[start..cursor], kb) + if sent[cursor].event.kb == kb then [sent[cursor]] else []
  {
    var stretch := sent[start..cursor + 1];
    assert |stretch| - 1 == cursor - start && stretch[cursor - start] == sent[cursor];
    assert stretch[..cursor - start] == sent[start..cursor];
  }

  lemma RefillKeeps(log: Log, sub: Sub)
    requires LogInv(log) && SubInv(log, sub) && sub.phase.Refilling?
    ensures SubInv(log, Refilled(log, sub))
    ensures Refilled(log, sub).phase.Lagged? <==> |log.sent| - sub.cursor > log.capacity
  {
    if |log.sent| <= sub.cursor + log.capacity {
      BacklogIsTail(log, sub.cursor);
    }
  }

  lemma ReadKeeps(log: Log, sub: Sub)
    requires LogInv(log) && SubInv(log, sub) && sub.phase.Reading?
    ensures SubInv(log, Stepped(log, sub))
  {
    if sub.backlog != [] {
      assert sub.backlog[0] == log.sent[sub.cursor];
      assert sub.backlog[1..] == log.sent[sub.cursor + 1..sub.unread - 1];
      PassKeeps(log, sub, sub.(backlog := sub.backlog[1..]));
    } else {
      assert sub.unread == sub.cursor + 1;
      if sub.unread <= |log.sent| && |log.sent| - (sub.unread - 1) <= log.depth {
        PassKeeps(log, sub, sub.(unread := sub.unread + 1));
      }
    }
  }

  lemma StepKeeps(log: Log, sub: Sub)
    requires LogInv(log) && SubInv(log, sub)
    ensures SubInv(log, Stepped(log, sub))
  {
    match sub.phase
    case Lagged(_) =>
    case Refilling => RefillKeeps(log, sub);
    case Reading => ReadKeeps(log, sub);
  }

  lemma ApplyKeeps(s: State, action: Action)
    requires Inv(s)
    ensures Inv(Apply(s, action))
  {
    match action
    case Publish(event) =>
      PublishKeepsLog(s.log, event);
      forall i | 0 <= i < |s.subs| ensures SubInv(Published(s.log, event), s.subs[i]) {
        PublishKeepsSub(s.log, event, s.subs[i]);
      }
    case Subscribe(kb, after) =>
      SubscribeKeeps(s.log, kb, after);
    case Step(i) =>
      if i < |s.subs| {
        StepKeeps(s.log, s.subs[i]);
      }
  }

  lemma {:induction false} RunKeeps(s: State, actions: seq<Action>)
    requires Inv(s)
    ensures Inv(Run(s, actions))
    decreases |actions|
  {
    if actions != [] {
      ApplyKeeps(s, actions[0]);
      RunKeeps(Apply(s, actions[0]), actions[1..]);
    }
  }

  // ---------------------------------------------------------------- delivery

  ghost predicate Ascending(entries: seq<Entry>) {
    forall a, b :: 0 <= a < b < |entries| ==> entries[a].id < entries[b].id
  }

  lemma {:induction false} OfKbMembers(entries: seq<Entry>, kb: string, first: nat)
    requires forall i :: 0 <= i < |entries| ==> entries[i].id == first + i
    ensures forall e :: e in OfKb(entries, kb) <==> e in entries && e.event.kb == kb
    ensures Ascending(OfKb(entries, kb))
    decreases |entries|
  {
    if entries != [] {
      var init := entries[..|entries| - 1];
      OfKbMembers(init, kb, first);
      assert forall e :: e in entries <==> e in init || e == entries[|entries| - 1];
      var r := OfKb(init, kb);
      forall i | 0 <= i < |r| ensures r[i].id < first + |init| {
        assert r[i] in init;
      }
    }
  }

  lemma StretchMembers(log: Log, start: nat, cursor: nat)
    requires LogInv(log) && start <= cursor <= |log.sent|
    ensures forall e :: e in log.sent[start..cursor] <==> e in log.sent && start < e.id <= cursor
  {
    var stretch := log.sent[start..cursor];
    forall e | e in log.sent && start < e.id <= cursor ensures e in stretch {
      assert e == log.sent[e.id - 1] == stretch[e.id - 1 - start];
    }
    forall e | e in stretch ensures e in log.sent && start < e.id <= cursor {
      var i :| 0 <= i < |stretch| && stretch[i] == e;
      assert e == log.sent[start + i];
    }
  }

  lemma YieldedExactly(log: Log, sub: Sub)
    requires LogInv(log) && SubInv(log, sub)
    ensures forall e :: e in sub.yielded <==>
                        e in log.sent && e.event.kb == sub.kb && sub.start < e.id <= sub.cursor
    ensures Ascending(sub.yielded)
  {
    OfKbMembers(log.sent[sub.start..sub.cursor], sub.kb, sub.start + 1);
    StretchMembers(log, sub.start, sub.cursor);
  }

  /** The events published in a run, in order. */
  function PublishedIn(actions: seq<Action>): seq<Event> {
    if actions == [] then []
    else (if actions[0].Publish? then [actions[0].event] else []) + PublishedIn(actions[1..])
  }

  function EventsOf(entries: seq<Entry>): (events: seq<Event>)
    ensures |events| == |entries|
  {
    if entries == [] then [] else EventsOf(entries[..|entries| - 1]) + [entries[|entries| - 1].event]
  }

  lemma {:induction false} EventsOfAt(entries: seq<Entry>, i: nat)
    requires i < |entries|
    ensures EventsOf(entries)[i] == entries[i].event
  {
    if i < |entries| - 1 {
      EventsOfAt(entries[..|entries| - 1], i);
    }
  }

  lemma {:induction false} RunAppends(s: State, actions: seq<Action>)
    ensures EventsOf(Run(s, actions).log.sent) == EventsOf(s.log.sent) + PublishedIn(actions)
    decreases |actions|
  {
    if actions != [] {
      var s1 := Apply(s, actions[0]);
      RunAppends(s1, actions[1..]);
      if actions[0].Publish? {
        assert s1.log.sent[..|s.log.sent|] == s.log.sent;
        assert EventsOf(s1.log.sent) == EventsOf(s.log.sent) + [actions[0].event];
      }
    }
  }

  /** What is logged is what was published: in every run the events of the log are those
      of the publish actions, unchanged and in order, numbered from one. */
  lemma LogIsPublished(capacity: nat, depth: nat, actions: seq<Action>)
    ensures var sent, published := Run(Init(capacity, depth), actions).log.sent, PublishedIn(actions);
            && |sent| == |published|
            && (forall i :: 0 <= i < |sent| ==> sent[i] == Entry(i + 1, published[i]))
  {
    var s := Run(Init(capacity, depth), actions);
    RunKeeps(Init(capacity, depth), actions);
    RunAppends(Init(capacity, depth), actions);
    forall i | 0 <= i < |s.log.sent| ensures s.log.sent[i] == Entry(i + 1, PublishedIn(actions)[i]) {
      EventsOfAt(s.log.sent, i);
    }
  }

  /** An event of `kb` published as number `id`, with `from < id <= to`. */
  ghost predicate Due(e: Entry, published: seq<Event>, kb: string, from: nat, to: nat) {
    from < e.id <= to && e.id <= |published| && e.event == published[e.id - 1] && e.event.kb == kb
  }

  lemma LoggedIsDue(sent: seq<Entry>, published: seq<Event>, kb: string, from: nat, to: nat, e: Entry)
    requires |sent| == |published|
    requires forall i :: 0 <= i < |sent| ==> sent[i] == Entry(i + 1, published[i])
    ensures e in sent && e.event.kb == kb && from < e.id <= to <==> Due(e, published, kb, from, to)
  {
    if Due(e, published, kb, from, to) {
      assert sent[e.id - 1] == e;
    }
  }

  /** The delivery guarantee, for every ring capacity, every channel depth and every
      interleaving: what a subscription has yielded is exactly its knowledge base's
      published events with ids in (start, cursor], each once, in id order. */
  lemma Delivery(capacity: nat, depth: nat, actions: seq<Action>, i: nat)
    requires i < |Run(Init(capacity, depth), actions).subs|
    ensures var sub := Run(Init(capacity, depth), actions).subs[i];
            && (forall e :: e in sub.yielded <==> Due(e, PublishedIn(actions), sub.kb, sub.start, sub.cursor))
            && Ascending(sub.yielded)
  {
    RunKeeps(Init(capacity, depth), actions);
    var s := Run(Init(capacity, depth), actions);
    var sub := s.subs[i];
    YieldedExactly(s.log, sub);
    LogIsPublished(capacity, depth, actions);
    forall e ensures e in sub.yielded <==> Due(e, PublishedIn(actions), sub.kb, sub.start, sub.cursor) {
      LoggedIsDue(s.log.sent, PublishedIn(actions), sub.kb, sub.start, sub.cursor, e);
    }
  }

  lemma {:induction false} IdentityFixed(s: State, actions: seq<Action>, i: nat)
    requires i < |s.subs|
    ensures var s' := Run(s, actions);
            i < |s'.subs| && s'.subs[i].start == s.subs[i].start && s'.subs[i].kb == s.subs[i].kb
    decreases |actions|
  {
    if actions != [] {
      IdentityFixed(Apply(s, actions[0]), actions[1..], i);
    }
  }

  /** The same guarantee from the caller's side: whatever happened before an accepted
      `subscribe(kb, after)` and whatever happens after it, the stream has delivered
      exactly the events published to `kb` from the requested position (or from "now") up
      to its cursor. */
  lemma SubscriptionDelivers(capacity: nat, depth: nat, before: seq<Action>, kb: string,
                             after: Option<nat>, more: seq<Action>)
    requires Subscribed(Run(Init(capacity, depth), before).log, kb, after).Success?
    ensures var s := Run(Init(capacity, depth), before);
            var all := before + [Subscribe(kb, after)] + more;
            var s' := Run(Init(capacity, depth), all);
            var from := after.GetOr(|PublishedIn(before)|);
            && |s.subs| < |s'.subs|
            && (forall e :: e in s'.subs[|s.subs|].yielded <==>
                  Due(e, PublishedIn(all), kb, from, s'.subs[|s.subs|].cursor))
            && Ascending(s'.subs[|s.subs|].yielded)
  {
    var init := Init(capacity, depth);
    var s := Run(init, before);
    var all := before + [Subscribe(kb, after)] + more;
    RunKeeps(init, before);
    RunConcat(init, before, [Subscribe(kb, after)]);
    RunConcat(init, before + [Subscribe(kb, after)], more);
    assert Run(s, [Subscribe(kb, after)]) == Apply(s, Subscribe(kb, after)) by {
      assert [Subscribe(kb, after)][1..] == [];
    }
    IdentityFixed(Apply(s, Subscribe(kb, after)), more, |s.subs|);
    LogIsPublished(capacity, depth, before);
    Delivery(capacity, depth, all, |s.subs|);
  }

  /** In every reachable state the entry a reading subscriber is about to pass is the
      one right after its cursor: the "already covered" branch is never taken, and no
      id is skipped. */
  lemma NextIsSuccessor(capacity: nat, depth: nat, actions: seq<Action>, i: nat)
    requires var s := Run(Init(capacity, depth), actions);
             i < |s.subs| && s.subs[i].phase.Reading?
    ensures var s := Run(Init(capacity, depth), actions);
            var sub := s.subs[i];
            var next := Stepped(s.log, sub);
            && (sub.backlog != [] ==> sub.backlog[0].id == sub.cursor + 1)
            && (sub.backlog == [] ==> sub.unread == sub.cursor + 1)
            && next.cursor <= sub.cursor + 1
            && (next.cursor == sub.cursor ==> next == sub || next.phase.Refilling?)
  {
    RunKeeps(Init(capacity, depth), actions);
    var s := Run(Init(capacity, depth), actions);
    assert SubInv(s.log, s.subs[i]);
  }

  // ---------------------------------------------------------------- retention

  ghost predicate Evicted(log: Log, id: nat) {
    1 <= id <= |log.sent| && forall e :: e in log.buf ==> e.id != id
  }

  lemma EvictedIff(log: Log, id: nat)
    requires LogInv(log)
    ensures Evicted(log, id) <==> 1 <= id && id + log.capacity <= |log.sent|
  {
    var dropped := |log.sent| - |log.buf|;
    if 1 <= id <= |log.sent| && dropped < id {
      assert log.buf[id - 1 - dropped] == log.sent[id - 1];
      assert log.buf[id - 1 - dropped] in log.buf;
    }
  }

  /** An id after the position that was published and is no longer retained. */
  predicate Missed(after: nat, first: nat, last: nat, id: nat) {
    after < id <= last && id < first
  }

  /** The broker's test says what the ring's does of any retained stretch: a position is
      gone exactly when it is ahead of the log or some id after it precedes the stretch,
      an empty stretch included, whether (0, 0) or (n + 1, n). */
  lemma BrokerGoneIff(after: nat, first: nat, last: nat)
    ensures IsGone(after, first, last) <==> after > last || exists id: nat :: Missed(after, first, last, id)
  {
    if after < last && after + 1 < first {
      assert Missed(after, first, last, after + 1);
    }
  }

  /** A resume position is refused exactly when it names an id never handed out, or
      when some event after it has been evicted; the broker's test on the same bounds
      agrees; and the id a refusal names is the first a client can still get. */
  lemma GoneIff(capacity: nat, depth: nat, actions: seq<Action>, kb: string, requested: nat)
    ensures var log := Run(Init(capacity, depth), actions).log;
            var latest := |log.sent|;
            var refused := Subscribed(log, kb, Some(requested)).Failure?;
            && latest == |PublishedIn(actions)|
            && (refused <==> requested > latest || requested + (if capacity < 1 then 1 else capacity) < latest)
            && (refused <==> requested > latest
                             || exists id :: requested < id <= latest && Evicted(log, id))
            && (refused <==> IsGone(requested, Oldest(log.buf).GetOr(latest + 1), latest))
            && (refused ==>
                  var gone := Subscribed(log, kb, Some(requested)).error;
                  && gone.requested == requested && gone.oldest >= 1
                  && Subscribed(log, kb, Some(gone.oldest - 1)).Success?
                  && (forall r: nat :: Subscribed(log, kb, Some(r)).Success? ==> gone.oldest - 1 <= r))
  {
    RunKeeps(Init(capacity, depth), actions);
    LogIsPublished(capacity, depth, actions);
    ParametersFixed(Init(capacity, depth), actions);
    RefusedIff(Run(Init(capacity, depth), actions).log, kb, requested);
    EvictedAfter(Run(Init(capacity, depth), actions).log, requested);
  }

  lemma OldestIs(log: Log)
    requires LogInv(log)
    ensures Oldest(log.buf).GetOr(log.nextId)
         == if |log.sent| > log.capacity then |log.sent| - log.capacity + 1
            else 1
  {
  }

  lemma RefusedIff(log: Log, kb: string, requested: nat)
    requires LogInv(log)
    ensures var r := Subscribed(log, kb, Some(requested));
            && (r.Failure? <==> requested > |log.sent| || requested + log.capacity < |log.sent|)
            && (r.Failure? <==> IsGone(requested, Oldest(log.buf).GetOr(|log.sent| + 1), |log.sent|))
            && (r.Failure? ==>
                  && r.error.requested == requested && r.error.oldest >= 1
                  && Subscribed(log, kb, Some(r.error.oldest - 1)).Success?
                  && (forall p: nat :: Subscribed(log, kb, Some(p)).Success? ==> r.error.oldest - 1 <= p))
  {
    OldestIs(log);
  }

  lemma EvictedAfter(log: Log, requested: nat)
    requires LogInv(log)
    ensures (exists id :: requested < id <= |log.sent| && Evicted(log, id)) <==> requested + log.capacity < |log.sent|
  {
    if requested + log.capacity < |log.sent| {
      EvictedIff(log, requested + 1);
    }
    if id :| requested < id <= |log.sent| && Evicted(log, id) {
      EvictedIff(log, id);
    }
  }

  // ---------------------------------------------------------------- lag

  lemma {:induction false} RunConcat(s: State, first: seq<Action>, more: seq<Action>)
    ensures Run(s, first + more) == Run(Run(s, first), more)
    decreases |first|
  {
    if first == [] {
      assert first + more == more;
    } else {
      assert (first + more)[1..] == first[1..] + more;
      RunConcat(Apply(s, first[0]), first[1..], more);
    }
  }

  /** A stream that has ended stays ended, where it was, and the log only grows. */
  lemma {:induction false} EndedStays(s: State, actions: seq<Action>, i: nat)
    requires i < |s.subs|
    ensures var s' := Run(s, actions);
            && i < |s'.subs|
            && |s'.log.sent| >= |s.log.sent|
            && s'.log.capacity == s.log.capacity
            && (s.subs[i].phase.Lagged? ==> s'.subs[i] == s.subs[i])
    decreases |actions|
  {
    if actions != [] {
      EndedStays(Apply(s, actions[0]), actions[1..], i);
    }
  }

  /** After a stream ends with `Lagged { resume_after: c }`, every later attempt to
      resume after `c` is refused: the client cannot silently skip what it missed. */
  lemma LaggedThenGone(capacity: nat, depth: nat, actions: seq<Action>, more: seq<Action>, i: nat, kb: string)
    requires var s := Run(Init(capacity, depth), actions);
             i < |s.subs| && s.subs[i].phase.Lagged?
    ensures var c := Run(Init(capacity, depth), actions).subs[i].phase.resumeAfter;
            Subscribed(Run(Init(capacity, depth), actions + more).log, kb, Some(c)).Failure?
  {
    var s := Run(Init(capacity, depth), actions);
    RunConcat(Init(capacity, depth), actions, more);
    RunKeeps(Init(capacity, depth), actions);
    assert SubInv(s.log, s.subs[i]);
    RunKeeps(Init(capacity, depth), actions + more);
    EndedStays(s, more, i);
  }

  /** Exactly when a refill gives up: the subscriber is more than a whole ring behind. */
  lemma RefillEndsIff(capacity: nat, depth: nat, actions: seq<Action>, i: nat)
    requires var s := Run(Init(capacity, depth), actions);
             i < |s.subs| && s.subs[i].phase.Refilling?
    ensures var s := Run(Init(capacity, depth), actions);
            Stepped(s.log, s.subs[i]).phase.Lagged?
            <==> |s.log.sent| - s.subs[i].cursor > s.log.capacity
  {
    RunKeeps(Init(capacity, depth), actions);
    var s := Run(Init(capacity, depth), actions);
    assert SubInv(s.log, s.subs[i]);
  }

  /** A channel at least as deep as the ring never lets a refill succeed: by the time
      the receiver lags, the ring has already dropped what it missed. */
  lemma DeepChannelLagIsFinal(capacity: nat, depth: nat, actions: seq<Action>, i: nat)
    requires depth >= 1 && depth >= capacity
    requires var s := Run(Init(capacity, depth), actions);
             i < |s.subs| && s.subs[i].phase.Refilling?
    ensures var s := Run(Init(capacity, depth), actions);
            Stepped(s.log, s.subs[i]).phase == Lagged(s.subs[i].cursor)
  {
    RunKeeps(Init(capacity, depth), actions);
    var s := Run(Init(capacity, depth), actions);
    assert SubInv(s.log, s.subs[i]);
    ParametersFixed(Init(capacity, depth), actions);
  }

  lemma {:induction false} ParametersFixed(s: State, actions: seq<Action>)
    ensures var s' := Run(s, actions);
            s'.log.capacity == s.log.capacity && s'.log.depth == s.log.depth
    decreases |actions|
  {
    if actions != [] {
      ParametersFixed(Apply(s, actions[0]), actions[1..]);
    }
  }

  function Steps(log: Log, sub: Sub, n: nat): Sub
    decreases n
  {
    if n == 0 then sub else Steps(log, Stepped(log, sub), n - 1)
  }

  /** In every reachable state a subscriber within the channel's depth catches up: one
      step per event it is behind brings it level with the log, and then it has delivered
      every event of its knowledge base published since it started. */
  lemma CatchesUp(capacity: nat, depth: nat, actions: seq<Action>, i: nat)
    requires var s := Run(Init(capacity, depth), actions);
             && i < |s.subs| && s.subs[i].phase.Reading?
             && |s.log.sent| - (s.subs[i].unread - 1) <= s.log.depth
    ensures var s := Run(Init(capacity, depth), actions);
            var sub := s.subs[i];
            sub.cursor <= |s.log.sent| && CaughtUp(s.log, sub, Steps(s.log, sub, |s.log.sent| - sub.cursor))
  {
    RunKeeps(Init(capacity, depth), actions);
    var s := Run(Init(capacity, depth), actions);
    assert SubInv(s.log, s.subs[i]);
    CatchesUpFrom(s.log, s.subs[i]);
  }

  /** A lag that finds the subscriber within the ring is repaired without losing an event,
      in every reachable state: the refill and one step per event behind bring it level
      with the log, everything since its start delivered. */
  lemma RefillCatchesUp(capacity: nat, depth: nat, actions: seq<Action>, i: nat)
    requires var s := Run(Init(capacity, depth), actions);
             && i < |s.subs| && s.subs[i].phase.Refilling?
             && |s.log.sent| - s.subs[i].cursor <= s.log.capacity
    ensures var s := Run(Init(capacity, depth), actions);
            var sub := s.subs[i];
            && sub.cursor <= |s.log.sent|
            && CaughtUp(s.log, sub, Steps(s.log, sub, |s.log.sent| - sub.cursor + 1))
  {
    RunKeeps(Init(capacity, depth), actions);
    var s := Run(Init(capacity, depth), actions);
    assert SubInv(s.log, s.subs[i]);
    RefillCatchesUpFrom(s.log, s.subs[i]);
  }

  ghost predicate Repairable(s: State, i: nat) {
    i < |s.subs| && s.subs[i].phase.Refilling? && |s.log.sent| - s.subs[i].cursor <= s.log.capacity
  }

  function Publishes(e: Event, n: nat): seq<Action> {
    if n == 0 then [] else [Publish(e)] + Publishes(e, n - 1)
  }

  lemma {:induction false} PublishesOnly(s: State, e: Event, n: nat)
    ensures var s' := Run(s, Publishes(e, n));
            && s'.subs == s.subs && |s'.log.sent| == |s.log.sent| + n
            && s'.log.capacity == s.log.capacity && s'.log.depth == s.log.depth
    decreases n
  {
    if n > 0 {
      PublishesOnly(Apply(s, Publish(e)), e, n - 1);
    }
  }

  /** One event more than the channel holds, and the next read lags. */
  lemma LagReached(capacity: nat, depth: nat, e: Event)
    requires depth < Init(capacity, depth).log.capacity
    ensures Repairable(Run(Init(capacity, depth), [Subscribe(e.kb, None)] + Publishes(e, depth + 1) + [Step(0)]), 0)
  {
    var first, burst := [Subscribe(e.kb, None)], Publishes(e, depth + 1);
    var s0 := Init(capacity, depth);
    var s1 := Apply(s0, first[0]);
    assert Run(s0, first) == s1;
    var s2 := Run(s1, burst);
    PublishesOnly(s1, e, depth + 1);
    RunConcat(s0, first, burst);
    RunConcat(s0, first + burst, [Step(0)]);
    assert Run(s2, [Step(0)]) == Apply(s2, Step(0));
  }

  /** A lag that a refill repairs can happen exactly when the channel is shallower than
      the ring; at equal depths there is none. */
  lemma RepairableIff(capacity: nat, depth: nat)
    ensures (exists actions, i: nat :: Repairable(Run(Init(capacity, depth), actions), i))
            <==> depth < Init(capacity, depth).log.capacity
  {
    if depth < Init(capacity, depth).log.capacity {
      var e := Event("", "");
      LagReached(capacity, depth, e);
      var actions := [Subscribe(e.kb, None)] + Publishes(e, depth + 1) + [Step(0)];
      assert Repairable(Run(Init(capacity, depth), actions), 0);
    }
    if actions, i: nat :| Repairable(Run(Init(capacity, depth), actions), i) {
      RunKeeps(Init(capacity, depth), actions);
      var s := Run(Init(capacity, depth), actions);
      assert SubInv(s.log, s.subs[i]);
      ParametersFixed(Init(capacity, depth), actions);
    }
  }

  ghost predicate CaughtUp(log: Log, sub: Sub, sub': Sub) {
    && sub'.phase.Reading? && sub'.cursor == |log.sent|
    && (forall e :: e in sub'.yielded <==> e in log.sent && e.event.kb == sub.kb && sub.start < e.id)
  }

  lemma CatchesUpFrom(log: Log, sub: Sub)
    requires LogInv(log) && SubInv(log, sub)
    requires sub.phase.Reading? && |log.sent| - (sub.unread - 1) <= log.depth
    ensures CaughtUp(log, sub, Steps(log, sub, |log.sent| - sub.cursor))
  {
    ReachesAll(log, sub, |log.sent| - sub.cursor);
  }

  lemma ReachesAll(log: Log, sub: Sub, n: nat)
    requires LogInv(log) && SubInv(log, sub) && sub.cursor + n == |log.sent|
    requires sub.phase.Reading? && |log.sent| - (sub.unread - 1) <= log.depth
    ensures CaughtUp(log, sub, Steps(log, sub, n))
  {
    StepsReach(log, sub, n);
    DeliveredAll(log, Steps(log, sub, n));
  }

  lemma DeliveredAll(log: Log, sub: Sub)
    requires LogInv(log) && SubInv(log, sub) && sub.cursor == |log.sent|
    ensures forall e :: e in sub.yielded <==> e in log.sent && e.event.kb == sub.kb && sub.start < e.id
  {
    YieldedExactly(log, sub);
    StretchMembers(log, 0, |log.sent|);
    assert log.sent[0..|log.sent|] == log.sent;
  }

  lemma RefillCatchesUpFrom(log: Log, sub: Sub)
    requires LogInv(log) && SubInv(log, sub)
    requires sub.phase.Refilling? && |log.sent| - sub.cursor <= log.capacity
    ensures CaughtUp(log, sub, Steps(log, sub, |log.sent| - sub.cursor + 1))
  {
    RefillKeeps(log, sub);
    CatchesUpFrom(log, Refilled(log, sub));
  }

  lemma {:induction false} StepsReach(log: Log, sub: Sub, n: nat)
    requires LogInv(log) && SubInv(log, sub)
    requires sub.phase.Reading? && |log.sent| - (sub.unread - 1) <= log.depth
    requires n <= |log.sent| - sub.cursor
    ensures var sub' := Steps(log, sub, n);
            && SubInv(log, sub') && sub'.phase.Reading? && sub'.cursor == sub.cursor + n
            && sub'.start == sub.start && sub'.kb == sub.kb
    decreases n
  {
    if n > 0 {
      StepKeeps(log, sub);
      StepAdvances(log, sub);
      StepsReach(log, Stepped(log, sub), n - 1);
    }
  }

  lemma StepAdvances(log: Log, sub: Sub)
    requires LogInv(log) && SubInv(log, sub) && sub.cursor < |log.sent|
    requires sub.phase.Reading? && |log.sent| - (sub.unread - 1) <= log.depth
    ensures var next := Stepped(log, sub);
            && next.phase.Reading? && next.cursor == sub.cursor + 1
            && next.start == sub.start && next.kb == sub.kb && next.unread >= sub.unread
  {
    if sub.backlog != [] {
      assert sub.backlog[0] == log.sent[sub.cursor];
    }
  }

  // ---------------------------------------------------------------- the objects

  /** The adapter itself. `depth` is the broadcast channel's. */
  class MemoryPublisher {
    var nextId: nat
    const capacity: nat
    var buf: seq<Entry>
    const depth: nat
    var sent: seq<Entry>

    function Value(): Log
      reads this
    {
      Log(nextId, capacity, buf, depth, sent)
    }

    constructor (capacity: nat, depth: nat)
      ensures Value() == Init(capacity, depth).log && LogInv(Value())
    {
      this.capacity := if capacity < 1 then 1 else capacity;
      this.depth := depth;
      nextId, buf, sent := 1, [], [];
    }

    method Publish(event: Event) returns (id: nat)
      requires LogInv(Value())
      modifies this
      ensures Value() == Published(old(Value()), event) && LogInv(Value())
      ensures id == old(nextId)
    {
      PublishKeepsLog(Value(), event);
      id := nextId;
      nextId := nextId + 1;
      var entry := Entry(id, event);
      ghost var pushed := buf + [entry];
      buf := buf + [entry];
      while |buf| > capacity
        invariant |buf| <= |pushed| && buf == pushed[|pushed| - |buf|..]
        invariant |pushed| >= capacity ==> |buf| >= capacity
        invariant |pushed| < capacity ==> buf == pushed
        invariant nextId == old(nextId) + 1 && sent == old(sent)
      {
        buf := buf[1..];
      }
      sent := sent + [entry];
    }

    method Subscribe(kb: string, after: Option<nat>) returns (r: Result<Sub, Gone>)
      requires LogInv(Value())
      ensures r == Subscribed(Value(), kb, after)
      ensures r.Success? ==> SubInv(Value(), r.value)
    {
      SubscribeKeeps(Value(), kb, after);
      var latest := nextId - 1;
      if after.Some? {
        var requested := after.value;
        var oldest := Oldest(buf).GetOr(nextId);
        var behind := requested < latest && requested + 1 < oldest;
        if behind || requested > latest {
          return Failure(Gone(requested, oldest));
        }
      }
      var backlog, cursor := [], latest;
      if after.Some? && after.value < latest {
        backlog, cursor := After(buf, after.value), after.value;
      }
      r := Success(Sub(kb, backlog, nextId, cursor, Reading, cursor, []));
    }
  }

  datatype Polled = Yield(entry: Entry) | Skip | Pending | End(resumeAfter: nat)

  /** A live subscription: `Poll` is one atomic step of its stream. */
  class Subscription {
    const inner: MemoryPublisher
    const kb: string
    var backlog: seq<Entry>
    var unread: nat
    var cursor: nat
    var phase: Phase
    ghost const start: nat
    ghost var yielded: seq<Entry>

    ghost function Value(): Sub
      reads this
    {
      Sub(kb, backlog, unread, cursor, phase, start, yielded)
    }

    constructor (inner: MemoryPublisher, sub: Sub)
      ensures this.inner == inner && Value() == sub
    {
      this.inner := inner;
      kb, backlog, unread, cursor, phase := sub.kb, sub.backlog, sub.unread, sub.cursor, sub.phase;
      start, yielded := sub.start, sub.yielded;
    }

    /** Answer a lag under the ring lock. */
    method Refill() returns (polled: Polled)
      requires LogInv(inner.Value()) && phase.Refilling?
      modifies this
      ensures Value() == Refilled(inner.Value(), old(Value()))
      ensures polled == if phase.Lagged? then End(cursor) else Skip
    {
      unread := inner.nextId;
      var refill := After(inner.buf, cursor);
      var oldest := Oldest(inner.buf);
      if oldest.Some? && oldest.value > cursor + 1 {
        phase := Lagged(cursor);
        return End(cursor);
      }
      backlog := refill;
      phase := Reading;
      polled := Skip;
    }

    method Poll() returns (polled: Polled)
      requires LogInv(inner.Value()) && SubInv(inner.Value(), Value())
      modifies this
      ensures Value() == Stepped(inner.Value(), old(Value()))
      ensures yielded == old(yielded) + if polled.Yield? then [polled.entry] else []
      ensures polled.Yield? ==> polled.entry.id == cursor == old(cursor) + 1 && polled.entry.event.kb == kb
      ensures polled.End? ==> phase == Lagged(polled.resumeAfter)
      ensures polled.Pending? ==> Value() == old(Value())
    {
      if phase.Lagged? {
        return End(phase.resumeAfter);
      } else if phase.Refilling? {
        polled := Refill();
        return;
      }
      var entry: Entry;
      if backlog != [] {
        entry := backlog[0];
        assert entry == inner.sent[cursor];
        backlog := backlog[1..];
      } else if unread > |inner.sent| {
        return Pending;
      } else if |inner.sent| - (unread - 1) > inner.depth {
        phase := Refilling;
        return Skip;
      } else {
        entry := inner.sent[unread - 1];
        unread := unread + 1;
      }
      polled := PassOver(entry);
    }

    /** Move the cursor over one entry, delivering it if it is this stream's. */
    method PassOver(entry: Entry) returns (polled: Polled)
      modifies this
      ensures Value() == Passed(old(Value()), entry)
      ensures polled == if yielded == old(yielded) then Skip else Yield(entry)
      ensures entry.id > old(cursor) ==> cursor == entry.id && (polled.Yield? <==> entry.event.kb == kb)
    {
      if entry.id <= cursor {
        return Skip;
      }
      cursor := entry.id;
      if entry.event.kb == kb {
        yielded := yielded + [entry];
        assert |yielded| > |old(yielded)|;
        polled := Yield(entry);
      } else {
        polled := Skip;
      }
    }
  }
}
