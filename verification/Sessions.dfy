/** Session ownership on the MCP transport: rmcp's session table, which this server only
    reads and which may drop a session at any moment, and the table of who opened each
    session, which it keeps beside it. */
module Sessions {
  import opened Basics

  datatype Principal = Anyone | Service | User(subject: string, groups: set<string>)
  datatype Owner = Anonymous | ServiceToken | Subject(subject: string)

  function OwnerOf(principal: Principal): Owner {
    match principal
    case Anyone => Anonymous
    case Service => ServiceToken
    case User(subject, _) => Subject(subject)
  }

  /** A caller keeps its sessions when its groups change, and shares them with nobody
      else: owners coincide exactly when the principals are the same but for groups. */
  lemma SameOwner(p: Principal, q: Principal)
    ensures OwnerOf(p) == OwnerOf(q) <==> p == q || (p.User? && q.User? && p.subject == q.subject)
  {
  }

  type Id = string

  /** Never minted: rmcp's ids are version 4 UUIDs. */
  const NO_SUCH_SESSION: Id := "00000000-0000-0000-0000-000000000000"

  // ---------------------------------------------------------------- the owner table

  predicate Admits(owners: map<Id, Owner>, id: Id, presented: Option<Owner>) {
    id !in owners || presented == Some(owners[id])
  }

  /** `record`: keep the owners of sessions that were live, and add the new one. */
  function Recorded(owners: map<Id, Owner>, live: set<Id>, id: Id, owner: Owner): map<Id, Owner> {
    (map k | k in owners && k in live :: owners[k])[id := owner]
  }

  function Forgotten(owners: map<Id, Owner>, id: Id): map<Id, Owner> {
    owners - {id}
  }

  // ---------------------------------------------------------------- requests as steps

  /** A request part-way through `bind_session`.
      - Passed: it opens a session and found room under the bound.
      - Opened: rmcp has opened `id` for it; nothing is recorded yet.
      - Locked: it holds the owners lock and has read rmcp's table.
      - Presented: it carries `id`; ownership has not been checked.
      - Admitted: the check passed; it is about to be forwarded.
      - Closing: a forwarded DELETE succeeded; its record is to be forgotten. */
  datatype Request =
    | Passed(owner: Option<Owner>)
    | Opened(id: Id, owner: Option<Owner>)
    | Locked(id: Id, owner: Option<Owner>, snapshot: set<Id>)
    | Presented(id: Id, owner: Option<Owner>, delete: bool)
    | Admitted(id: Id, owner: Option<Owner>, delete: bool)
    | Closing(id: Id)

  /** A forwarded request: the id it carried to rmcp, who sent it, and who had opened
      the session, if rmcp held one with a recorded opener. */
  datatype Forward = Forward(id: Id, sender: Option<Owner>, opener: Option<Owner>)

  /** `minted` maps every id rmcp ever issued to the principal that opened it, `released`
      holds the ids returned to a client, and `early` those some request carried before
      they were. */
  datatype State = State(max: nat, live: set<Id>, owners: map<Id, Owner>, requests: map<nat, Request>,
                         minted: map<Id, Option<Owner>>, released: set<Id>, early: set<Id>,
                         forwarded: seq<Forward>)

  datatype Action =
    | Pass(request: nat, owner: Option<Owner>)
    | Open(request: nat, id: Id)
    | Snapshot(request: nat)
    | Commit(request: nat)
    | ReleaseUnbound(request: nat)
    | Present(request: nat, id: Id, owner: Option<Owner>, delete: bool)
    | Check(request: nat)
    | ForwardIt(request: nat, success: bool)
    | Forget(request: nat)
    | Cancel(request: nat)
    | Drop(id: Id)

  function Init(max: nat): State {
    State(max, {}, map[], map[], map[], {}, {}, [])
  }

  predicate AtCapacity(live: set<Id>, max: nat) {
    |live| >= max
  }

  predicate Unlocked(s: State) {
    forall t :: t in s.requests ==> !s.requests[t].Locked?
  }

  /** What each step needs: a lock that is free, or an id rmcp has never issued. A request
      may carry any id at all. */
  predicate Enabled(s: State, a: Action) {
    match a
    case Pass(t, _) => t !in s.requests && !AtCapacity(s.live, s.max)
    case Open(t, id) =>
      t in s.requests && s.requests[t].Passed? && id !in s.minted && id != NO_SUCH_SESSION
    case Snapshot(t) => t in s.requests && s.requests[t].Opened? && s.requests[t].owner.Some? && Unlocked(s)
    case Commit(t) => t in s.requests && s.requests[t].Locked? && s.requests[t].owner.Some?
    case ReleaseUnbound(t) => t in s.requests && s.requests[t].Opened? && s.requests[t].owner.None?
    case Present(t, _, _, _) => t !in s.requests
    case Check(t) => t in s.requests && s.requests[t].Presented? && Unlocked(s)
    case ForwardIt(t, _) => t in s.requests && s.requests[t].Admitted?
    case Forget(t) => t in s.requests && s.requests[t].Closing? && Unlocked(s)
    case Cancel(t) => t in s.requests
    case Drop(_) => true
  }

  function Step(s: State, a: Action): State
    requires Enabled(s, a)
  {
    match a
    case Pass(t, owner) => s.(requests := s.requests[t := Passed(owner)])
    case Open(t, id) =>
      var owner := s.requests[t].owner;
      s.(live := s.live + {id}, minted := s.minted[id := owner], requests := s.requests[t := Opened(id, owner)])
    case Snapshot(t) =>
      var Opened(id, owner) := s.requests[t];
      s.(requests := s.requests[t := Locked(id, owner, s.live)])
    case Commit(t) =>
      var Locked(id, owner, snapshot) := s.requests[t];
      s.(owners := Recorded(s.owners, snapshot, id, owner.value),
         released := s.released + {id}, requests := s.requests - {t})
    case ReleaseUnbound(t) =>
      s.(released := s.released + {s.requests[t].id}, requests := s.requests - {t})
    case Present(t, id, owner, delete) =>
      s.(early := if id in s.released then s.early else s.early + {id},
         requests := s.requests[t := Presented(id, owner, delete)])
    case Check(t) =>
      var Presented(id, owner, delete) := s.requests[t];
      if Admits(s.owners, id, owner) then s.(requests := s.requests[t := Admitted(id, owner, delete)])
      else s.(requests := s.requests - {t}, forwarded := s.forwarded + [Forwarding(s, NO_SUCH_SESSION, owner)])
    case ForwardIt(t, success) =>
      var Admitted(id, owner, delete) := s.requests[t];
      var s' := s.(forwarded := s.forwarded + [Forwarding(s, id, owner)]);
      if delete && success then s'.(live := s.live - {id}, requests := s.requests[t := Closing(id)])
      else s'.(requests := s.requests - {t})
    case Forget(t) =>
      s.(owners := Forgotten(s.owners, s.requests[t].id), requests := s.requests - {t})
    case Cancel(t) => s.(requests := s.requests - {t})
    case Drop(id) => s.(live := s.live - {id})
  }

  function Forwarding(s: State, id: Id, sender: Option<Owner>): Forward {
    Forward(id, sender, if id in s.live && id in s.minted then s.minted[id] else None)
  }

  /** A run: a sequence of states, each the enabled step of the one before. */
  ghost predicate IsRun(run: seq<State>, actions: seq<Action>) {
    && |run| == |actions| + 1 && run[0] == Init(run[0].max)
    && forall i :: 0 <= i < |actions| ==> Enabled(run[i], actions[i]) && run[i + 1] == Step(run[i], actions[i])
  }

  // ---------------------------------------------------------------- invariant

  /** Every record names the session's true opener, and every released session rmcp
      still holds, if a principal opened it and nobody carried its id early, has its
      record. */
  ghost predicate TableInv(s: State) {
    && s.live <= s.minted.Keys && s.released <= s.minted.Keys && NO_SUCH_SESSION !in s.minted
    && (forall id :: id in s.owners ==> id in s.minted && s.minted[id] == Some(s.owners[id]))
    && (forall id :: id in s.released && id in s.live && id !in s.early && s.minted[id].Some? ==> id in s.owners)
  }

  ghost predicate RequestInv(s: State, request: Request)
    requires TableInv(s)
  {
    match request
    case Passed(_) => true
    case Opened(id, owner) => id in s.minted && s.minted[id] == owner
    case Locked(id, owner, snapshot) =>
      && id in s.minted && s.minted[id] == owner
      && (forall k :: k in s.owners && k in s.live ==> k in snapshot)
    case Presented(id, _, _) => id in s.early || id in s.released
    case Admitted(id, owner, _) =>
      id in s.early || (id in s.released && (id in s.live && s.minted[id].Some? ==> owner == s.minted[id]))
    case Closing(id) => id in s.early || (id in s.released && id !in s.live)
  }

  /** It came from the session's opener, unless its id was carried early. */
  ghost predicate Proper(s: State, f: Forward) {
    f.opener.Some? && f.id !in s.early ==> f.sender == f.opener
  }

  ghost predicate Inv(s: State) {
    && TableInv(s)
    && (forall t :: t in s.requests ==> RequestInv(s, s.requests[t]))
    && (forall t, u :: t in s.requests && u in s.requests && s.requests[t].Locked? && s.requests[u].Locked? ==> t == u)
    && (forall f :: f in s.forwarded ==> Proper(s, f))
  }

  /** Steps that leave both tables' keys alone, or only shrink rmcp's, keep every request. */
  lemma OthersKeep(s: State, s': State, request: Request)
    requires TableInv(s) && RequestInv(s, request)
    requires s'.live <= s.live && s'.owners == s.owners && s'.minted == s.minted
    requires s.released <= s'.released <= s'.minted.Keys && s.early <= s'.early
    requires TableInv(s')
    ensures RequestInv(s', request)
  {
  }

  lemma OpenKeeps(s: State, a: Action)
    requires Inv(s) && a.Open? && Enabled(s, a)
    ensures Inv(Step(s, a))
  {
    var s' := Step(s, a);
    forall t | t in s'.requests ensures RequestInv(s', s'.requests[t]) {
      if t != a.request {
        assert RequestInv(s, s.requests[t]);
      }
    }
  }

  lemma SnapshotKeeps(s: State, a: Action)
    requires Inv(s) && a.Snapshot? && Enabled(s, a)
    ensures Inv(Step(s, a))
  {
    var s' := Step(s, a);
    forall t | t in s'.requests ensures RequestInv(s', s'.requests[t]) {
      assert RequestInv(s, s.requests[t]);
    }
  }

  /** The lock-order argument: a record that survives the sweep was in the snapshot
      because nothing could be recorded while the lock was held. */
  lemma CommitKeeps(s: State, a: Action)
    requires Inv(s) && a.Commit? && Enabled(s, a)
    ensures Inv(Step(s, a))
  {
    var s' := Step(s, a);
    assert RequestInv(s, s.requests[a.request]);
    forall t | t in s'.requests ensures RequestInv(s', s'.requests[t]) {
      assert RequestInv(s, s.requests[t]);
    }
  }

  lemma CheckKeeps(s: State, a: Action)
    requires Inv(s) && a.Check? && Enabled(s, a)
    ensures Inv(Step(s, a))
  {
    var s' := Step(s, a);
    forall t | t in s'.requests ensures RequestInv(s', s'.requests[t]) {
      assert RequestInv(s, s.requests[t]);
    }
  }

  lemma ForwardKeeps(s: State, a: Action)
    requires Inv(s) && a.ForwardIt? && Enabled(s, a)
    ensures Inv(Step(s, a))
  {
    var s' := Step(s, a);
    assert RequestInv(s, s.requests[a.request]);
    forall t | t in s'.requests ensures RequestInv(s', s'.requests[t]) {
      assert RequestInv(s, s.requests[t]);
    }
  }

  lemma ForgetKeeps(s: State, a: Action)
    requires Inv(s) && a.Forget? && Enabled(s, a)
    ensures Inv(Step(s, a))
  {
    var s' := Step(s, a);
    assert RequestInv(s, s.requests[a.request]);
    forall t | t in s'.requests ensures RequestInv(s', s'.requests[t]) {
      assert RequestInv(s, s.requests[t]);
    }
  }

  lemma ReleaseKeeps(s: State, a: Action)
    requires Inv(s) && a.ReleaseUnbound? && Enabled(s, a)
    ensures Inv(Step(s, a))
  {
    var s' := Step(s, a);
    assert RequestInv(s, s.requests[a.request]);
    assert TableInv(s');
    forall t | t in s'.requests ensures RequestInv(s', s'.requests[t]) {
      OthersKeep(s, s', s.requests[t]);
    }
  }

  lemma PresentKeeps(s: State, a: Action)
    requires Inv(s) && a.Present? && Enabled(s, a)
    ensures Inv(Step(s, a))
  {
    var s' := Step(s, a);
    assert TableInv(s');
    forall t | t in s'.requests ensures RequestInv(s', s'.requests[t]) {
      if t != a.request {
        OthersKeep(s, s', s.requests[t]);
      }
    }
  }

  lemma QuietKeeps(s: State, a: Action)
    requires Inv(s) && Enabled(s, a) && (a.Pass? || a.Cancel? || a.Drop?)
    ensures Inv(Step(s, a))
  {
    var s' := Step(s, a);
    assert TableInv(s');
    forall t | t in s'.requests ensures RequestInv(s', s'.requests[t]) {
      if t in s.requests {
        OthersKeep(s, s', s.requests[t]);
      }
    }
  }

  lemma StepKeeps(s: State, a: Action)
    requires Inv(s) && Enabled(s, a)
    ensures Inv(Step(s, a))
  {
    match a
    case Pass(_, _) => QuietKeeps(s, a);
    case Open(_, _) => OpenKeeps(s, a);
    case Snapshot(_) => SnapshotKeeps(s, a);
    case Commit(_) => CommitKeeps(s, a);
    case Check(_) => CheckKeeps(s, a);
    case ForwardIt(_, _) => ForwardKeeps(s, a);
    case Forget(_) => ForgetKeeps(s, a);
    case ReleaseUnbound(_) => ReleaseKeeps(s, a);
    case Present(_, _, _, _) => PresentKeeps(s, a);
    case Cancel(_) => QuietKeeps(s, a);
    case Drop(_) => QuietKeeps(s, a);
  }

  lemma {:induction false} RunKeeps(run: seq<State>, actions: seq<Action>, i: nat)
    requires IsRun(run, actions) && i < |run|
    ensures Inv(run[i])
  {
    if i > 0 {
      RunKeeps(run, actions, i - 1);
      StepKeeps(run[i - 1], actions[i - 1]);
    }
  }

  /** Ownership, in every reachable state, for every id that no request carried before it
      was released. If rmcp still holds the session and a principal opened it, that
      principal is its recorded owner; it admits its opener and nobody else; one opened
      with no principal on the request, which the code can only log, admits everyone. And
      no request ever forwarded to such a session came from anyone but its opener. A
      record never names anyone else, whatever requests carried. */
  lemma Ownership(run: seq<State>, actions: seq<Action>, i: nat, id: Id, presented: Option<Owner>)
    requires IsRun(run, actions) && i < |run|
    ensures var s := run[i];
            && (id in s.released && id in s.live && id !in s.early ==>
                  && id in s.minted
                  && (s.minted[id].Some? ==> id in s.owners && Some(s.owners[id]) == s.minted[id])
                  && (Admits(s.owners, id, presented) <==> s.minted[id].None? || presented == s.minted[id]))
            && (id in s.owners ==> id in s.minted && Some(s.owners[id]) == s.minted[id])
            && (forall f :: f in s.forwarded && f.opener.Some? && f.id !in s.early ==> f.sender == f.opener)
  {
    RunKeeps(run, actions, i);
    assert forall f :: f in run[i].forwarded ==> Proper(run[i], f);
  }

  /** A request that holds the lock read rmcp's table when it took it. */
  lemma {:induction false} SnapshotTaken(run: seq<State>, actions: seq<Action>, i: nat, t: nat)
    requires IsRun(run, actions) && i < |run| && t in run[i].requests && run[i].requests[t].Locked?
    ensures exists j :: 0 <= j < i && actions[j] == Snapshot(t) && run[i].requests[t].snapshot == run[j].live
  {
    assert i > 0;
    var s, a := run[i - 1], actions[i - 1];
    assert Enabled(s, a) && run[i] == Step(s, a);
    if a != Snapshot(t) {
      assert t in s.requests && s.requests[t] == run[i].requests[t];
      SnapshotTaken(run, actions, i - 1, t);
    }
  }

  /** What a record does to the table, in every run: it releases the new id under its
      opener, keeps exactly the records of sessions rmcp held when the lock was taken, and
      so leaves no more records than that and one. */
  lemma RecordSweeps(run: seq<State>, actions: seq<Action>, i: nat)
    requires IsRun(run, actions) && i < |actions| && actions[i].Commit?
    ensures var request := run[i].requests[actions[i].request];
            var before, after := run[i].owners, run[i + 1].owners;
            && request.id in run[i].minted && request.id in after
            && Some(after[request.id]) == request.owner == run[i].minted[request.id]
            && run[i + 1].released == run[i].released + {request.id}
            && (exists j :: 0 <= j < i && actions[j] == Snapshot(actions[i].request) && request.snapshot == run[j].live)
            && (forall k :: k != request.id ==>
                  && (k in after <==> k in before && k in request.snapshot)
                  && (k in after ==> after[k] == before[k]))
            && |after| <= |request.snapshot| + 1
  {
    var request := run[i].requests[actions[i].request];
    RunKeeps(run, actions, i);
    assert RequestInv(run[i], request);
    SnapshotTaken(run, actions, i, actions[i].request);
    Bounded(run[i + 1].owners.Keys, request.snapshot, request.id);
  }

  lemma Bounded(keys: set<Id>, snapshot: set<Id>, id: Id)
    requires keys <= snapshot + {id}
    ensures |keys| <= |snapshot| + 1
  {
    SubsetSize(keys - {id}, snapshot);
    if id in keys {
      assert |keys - {id}| == |keys| - 1;
    } else {
      assert keys - {id} == keys;
    }
  }

  // ---------------------------------------------------------------- what a request gets

  /** What a check decides, in every run, for a session rmcp holds whose id was not carried
      early: its opener's request, or anyone's if it has none, is admitted as it came, and
      any other goes to rmcp under an id that names nothing. */
  lemma CheckDecides(run: seq<State>, actions: seq<Action>, i: nat)
    requires IsRun(run, actions) && i < |actions| && actions[i].Check?
    requires var id := run[i].requests[actions[i].request].id;
             id in run[i].released && id in run[i].live && id !in run[i].early
    ensures var s, t := run[i], actions[i].request;
            var Presented(id, sender, delete) := s.requests[t];
            && id in s.minted
            && run[i + 1] == if s.minted[id].None? || sender == s.minted[id]
                             then s.(requests := s.requests[t := Admitted(id, sender, delete)])
                             else s.(requests := s.requests - {t},
                                     forwarded := s.forwarded + [Forward(NO_SUCH_SESSION, sender, None)])
  {
    RunKeeps(run, actions, i);
    var Presented(id, sender, delete) := run[i].requests[actions[i].request];
    Ownership(run, actions, i, id, sender);
  }

  /** An admitted request reaches rmcp with the id it carried, whatever has happened since;
      only a DELETE that rmcp accepts ends the session, and then its record is to go. */
  lemma ForwardCarries(run: seq<State>, actions: seq<Action>, i: nat)
    requires IsRun(run, actions) && i < |actions| && actions[i].ForwardIt?
    ensures var s, s', t := run[i], run[i + 1], actions[i].request;
            var Admitted(id, sender, delete) := s.requests[t];
            var ends := delete && actions[i].success;
            && (id in s.live ==> id in s.minted)
            && s'.forwarded == s.forwarded + [Forward(id, sender, if id in s.live then s.minted[id] else None)]
            && s'.owners == s.owners && s'.released == s.released
            && s'.live == (if ends then s.live - {id} else s.live)
            && s'.requests == if ends then s.requests[t := Closing(id)] else s.requests - {t}
  {
    RunKeeps(run, actions, i);
  }

  /** Forgetting removes that session's record and no other. */
  lemma ForgetRemoves(run: seq<State>, actions: seq<Action>, i: nat, k: Id)
    requires IsRun(run, actions) && i < |actions| && actions[i].Forget?
    ensures var s, s', t := run[i], run[i + 1], actions[i].request;
            && (k in s'.owners <==> k in s.owners && k != s.requests[t].id)
            && (k in s'.owners ==> s'.owners[k] == s.owners[k])
            && s'.live == s.live && s'.forwarded == s.forwarded && s'.requests == s.requests - {t}
  {
    assert Enabled(run[i], actions[i]) && run[i + 1] == Step(run[i], actions[i]);
  }

  /** A session as a client sees it. */
  ghost predicate Usable(s: State, id: Id) {
    Inv(s) && Unlocked(s) && id in s.released && id in s.live && id !in s.early
  }

  /** A whole request on a session, when nothing else runs: from the session's opener, or
      from anyone if it has none, it reaches rmcp with its own id; if it is a DELETE that
      rmcp accepts, the session and its record are gone afterwards, and otherwise nothing
      else has changed. */
  lemma OpenerServed(s: State, t: nat, id: Id, sender: Option<Owner>, delete: bool, success: bool)
    requires Usable(s, id) && t !in s.requests && (s.minted[id].None? || sender == s.minted[id])
    ensures var s1 := Step(s, Present(t, id, sender, delete));
            var s2 := Step(s1, Check(t));
            && Enabled(s2, ForwardIt(t, success))
            && var s3 := Step(s2, ForwardIt(t, success));
               && s3.forwarded == s.forwarded + [Forward(id, sender, s.minted[id])]
               && s3.owners == s.owners && s3.early == s.early
               && (!(delete && success) ==> s3.live == s.live && s3.requests == s.requests)
               && (delete && success ==>
                     && s3.live == s.live - {id} && Enabled(s3, Forget(t))
                     && var s4 := Step(s3, Forget(t));
                        && id !in s4.owners && s4.live == s3.live && s4.requests == s.requests
                        && (forall k :: k != id ==> (k in s4.owners <==> k in s.owners))
                        && (forall k :: k in s4.owners ==> s4.owners[k] == s.owners[k]))
  {
  }

  /** From anyone else it does not: rmcp is asked about an id it cannot hold, and no table
      changes. */
  lemma StrangerTurnedAway(s: State, t: nat, id: Id, sender: Option<Owner>, delete: bool)
    requires Usable(s, id) && t !in s.requests && s.minted[id].Some? && sender != s.minted[id]
    ensures var s1 := Step(s, Present(t, id, sender, delete));
            var s2 := Step(s1, Check(t));
            && s2.forwarded == s.forwarded + [Forward(NO_SUCH_SESSION, sender, None)]
            && s2.live == s.live && s2.owners == s.owners && s2.requests == s.requests
  {
  }

  /** Opening a session: a request is let in exactly when fewer than `max` are held, and
      rmcp then opens the session for it. */
  lemma SessionOpens(s: State, t: nat, id: Id, owner: Option<Owner>)
    requires t !in s.requests && id !in s.minted && id != NO_SUCH_SESSION
    ensures Enabled(s, Pass(t, owner)) <==> |s.live| < s.max
    ensures |s.live| < s.max ==>
              && Enabled(Step(s, Pass(t, owner)), Open(t, id))
              && Step(Step(s, Pass(t, owner)), Open(t, id))
                 == s.(live := s.live + {id}, minted := s.minted[id := owner],
                       requests := s.requests[t := Opened(id, owner)])
  {
  }

  /** Its response releases it: recorded under its opener, other records surviving exactly
      if rmcp still holds their sessions. */
  lemma SessionRecorded(s: State, t: nat)
    requires Inv(s) && Unlocked(s) && t in s.requests && s.requests[t].Opened? && s.requests[t].owner.Some?
    ensures var Opened(id, owner) := s.requests[t];
            && Enabled(s, Snapshot(t)) && Enabled(Step(s, Snapshot(t)), Commit(t))
            && var s' := Step(Step(s, Snapshot(t)), Commit(t));
               && s'.live == s.live && s'.released == s.released + {id} && s'.forwarded == s.forwarded
               && s'.requests == s.requests - {t}
               && id in s'.owners && Some(s'.owners[id]) == owner
               && (forall k :: k != id ==> (k in s'.owners <==> k in s.owners && k in s.live))
               && (forall k :: k != id && k in s'.owners ==> s'.owners[k] == s.owners[k])
  {
    var s1 := Step(s, Snapshot(t));
    assert s1.requests - {t} == s.requests - {t};
  }

  /** One opened with no principal on the request is released without a record. */
  lemma SessionUnbound(s: State, t: nat)
    requires t in s.requests && s.requests[t].Opened? && s.requests[t].owner.None?
    ensures Enabled(s, ReleaseUnbound(t)) && !Enabled(s, Snapshot(t))
    ensures var s' := Step(s, ReleaseUnbound(t));
            && s'.owners == s.owners && s'.live == s.live
            && s'.released == s.released + {s.requests[t].id} && s'.requests == s.requests - {t}
  {
  }

  // ---------------------------------------------------------------- the soft bound

  /** Requests that found room and whose session rmcp has yet to open. */
  function Waiting(s: State): set<nat> {
    set t | t in s.requests && s.requests[t].Passed?
  }

  /** Opening turns a waiting request into a session; every other step but a pass adds
      neither. */
  lemma OthersDoNotGrow(s: State, a: Action)
    requires Enabled(s, a) && !a.Pass? && !a.Open?
    ensures Step(s, a).live <= s.live && Waiting(Step(s, a)) <= Waiting(s) && Step(s, a).max == s.max
  {
  }

  lemma OpenMoves(s: State, a: Action)
    requires a.Open? && Enabled(s, a)
    ensures Waiting(Step(s, a)) == Waiting(s) - {a.request} && a.request in Waiting(s)
    ensures Step(s, a).live == s.live + {a.id} && Step(s, a).max == s.max
  {
  }

  lemma StepOvershoot(s: State, a: Action, s': State, n: nat)
    requires Enabled(s, a) && s' == Step(s, a) && |s'.requests| <= n
    requires |s.live| + |Waiting(s)| < s.max + n
    ensures |s'.live| + |Waiting(s')| < s'.max + n && s'.max == s.max
  {
    if a.Pass? {
      SubsetSize(Waiting(s'), s'.requests.Keys);
    } else if a.Open? {
      OpenMoves(s, a);
    } else {
      OthersDoNotGrow(s, a);
      SubsetSize(Waiting(s'), Waiting(s));
      SubsetSize(s'.live, s.live);
    }
  }

  /** The session bound is soft, and this soft: with at most `n` requests in flight at
      once, rmcp never holds `n` sessions more than the bound. */
  lemma {:induction false} OvershootBounded(run: seq<State>, actions: seq<Action>, i: nat, n: nat)
    requires IsRun(run, actions) && i < |run| && n >= 1
    requires forall j :: 0 <= j <= i ==> |run[j].requests| <= n
    ensures |run[i].live| + |Waiting(run[i])| < run[0].max + n && run[i].max == run[0].max
  {
    if i > 0 {
      OvershootBounded(run, actions, i - 1, n);
      StepOvershoot(run[i - 1], actions[i - 1], run[i], n);
    }
  }

  // ---------------------------------------------------------------- the object

  class McpSessions {
    var owners: map<Id, Owner>

    constructor ()
      ensures owners == map[]
    {
      owners := map[];
    }

    method Admit(id: Id, presented: Option<Owner>) returns (ok: bool)
      ensures ok <==> Admits(owners, id, presented)
    {
      ok := if id in owners then presented == Some(owners[id]) else true;
    }

    /** `live` is rmcp's table as read under its own lock. */
    method Record(live: set<Id>, id: Id, owner: Owner)
      modifies this
      ensures owners == Recorded(old(owners), live, id, owner)
      ensures owners.Keys <= live + {id}
    {
      owners := map k | k in owners && k in live :: owners[k];
      owners := owners[id := owner];
    }

    method Forget(id: Id)
      modifies this
      ensures owners == Forgotten(old(owners), id)
    {
      owners := owners - {id};
    }
  }
}
