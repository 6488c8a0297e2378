/**
 The worker manager. Each region under the latch is one atomic step, and so is each read of a flag
 outside of it; a call is in flight between its steps, and steps of different calls and of the workers
 themselves interleave in any order.
 */
module EduMgr {
  import opened Bytes

  datatype Kind = Listener | Agent | Unknown

  datatype Status = Creating | Running | Waiting | Idle | Destroy

  datatype Cb = Cb(kind: Kind, status: Status, forced: bool)

  type Queue = map<nat, Cb>

  /** The manager's fields; `held` says that the latch has been taken and will never be released. */
  datatype Mgr = Mgr(run: Queue, idle: Queue, next: nat, quiesced: bool, destroyed: bool, held: bool)

  predicate IsPoolable(kind: Kind) { kind == Agent }

  // ---------------------------------------------------------------- the latched regions

  lemma {:induction false} Least(s: set<nat>) returns (n: nat)
    requires s != {}
    ensures n in s && forall k :: k in s ==> n <= k
  {
    var x :| x in s;
    n := x;
    if s != {x} {
      var m := LeastOther(s, x);
      n := if x < m then x else m;
    }
  }

  lemma {:induction false} LeastOther(s: set<nat>, x: nat) returns (n: nat)
    requires x in s && s != {x}
    ensures n in s && forall k :: k in s && k != x ==> n <= k
    decreases s, 0
  {
    var t := s - {x};
    assert s == t + {x};
    n := Least(t);
    forall k | k in s && k != x
      ensures n <= k
    {
      assert k in t;
    }
  }

  lemma {:induction false} HasLeast(s: set<nat>)
    requires s != {}
    ensures exists n :: n in s && forall k :: k in s ==> n <= k
  {
    var n := Least(s);
  }

  /** The id under begin() of an ordered map. */
  function First(q: Queue): (n: nat)
    requires q != map[]
    ensures n in q && forall k :: k in q ==> n <= k
  {
    assert q.Keys != {};
    HasLeast(q.Keys);
    var n :| n in q.Keys && forall k :: k in q.Keys ==> n <= k;
    n
  }

  /** begin(), which is end() on an empty queue. */
  function Front(q: Queue): Option<nat> {
    if q == map[] then None else Some(First(q))
  }

  /** The iterator points at a worker that is still idle. */
  predicate Fit(m: Mgr, it: Option<nat>) {
    it.Some? && it.value in m.idle
  }

  function Find(m: Mgr, id: nat): Option<Cb> {
    if id in m.run then Some(m.run[id]) else if id in m.idle then Some(m.idle[id]) else None
  }

  /** startEDU when an idle worker will do, the one its iterator points at. */
  function Reuse(m: Mgr, kind: Kind, id: nat): Mgr
    requires id in m.idle
  {
    m.(idle := m.idle - {id}, run := m.run[id := m.idle[id].(kind := kind, status := Waiting)])
  }

  /** The latched part of _createNewEDU; if the thread cannot be started the latch stays held. */
  function Enter(m: Mgr, kind: Kind, thread: bool): Mgr {
    if thread then m.(run := m.run[m.next := Cb(kind, Creating, false)], next := m.next + 1)
    else m.(run := m.run[m.next := Cb(kind, Creating, false)] - {m.next}, next := m.next + 1, held := true)
  }

  function Activated(m: Mgr, id: nat): Mgr {
    if id in m.idle then m.(idle := m.idle - {id}, run := m.run[id := m.idle[id].(status := Running)])
    else if id in m.run then m.(run := m.run[id := m.run[id].(status := Running)])
    else m
  }

  function Waited(m: Mgr, id: nat): Mgr {
    if id in m.run && m.run[id].status == Running then m.(run := m.run[id := m.run[id].(status := Waiting)]) else m
  }

  function Removed(m: Mgr, id: nat): Mgr {
    if id in m.run then m.(run := m.run - {id})
    else if id in m.idle then m.(idle := m.idle - {id})
    else m
  }

  function Deactivated(m: Mgr, id: nat): Mgr {
    if id in m.run then m.(run := m.run - {id}, idle := m.idle[id := m.run[id].(status := Waiting)])
    else if id in m.idle then m.(idle := m.idle[id := m.idle[id].(status := Waiting)])
    else m
  }

  /** returnEDU in one go: the pool takes an agent only when there are as many workers as its limit, or more. */
  function Returned(m: Mgr, id: nat, force: bool, maxPool: nat): Mgr {
    match Find(m, id)
    case None => m
    case Some(cb) =>
      if !IsPoolable(cb.kind) || force || m.destroyed || maxPool > |m.run| + |m.idle| then Removed(m, id)
      else Deactivated(m, id)
  }

  /** A worker's own writes to its control block, wherever it is queued. */
  function WithStatus(m: Mgr, id: nat, status: Status): Mgr {
    if id in m.run then m.(run := m.run[id := m.run[id].(status := status)])
    else if id in m.idle then m.(idle := m.idle[id := m.idle[id].(status := status)])
    else m
  }

  function ForceAll(q: Queue): (r: Queue)
    ensures r.Keys == q.Keys && forall id :: id in q ==> r[id] == q[id].(forced := true)
  {
    map id | id in q :: q[id].(forced := true)
  }

  // ---------------------------------------------------------------- the worker after each of them

  /** Apart from the worker `id` nothing has changed. */
  ghost predicate Only(m: Mgr, n: Mgr, id: nat) {
    && m.run - {id} == n.run - {id} && m.idle - {id} == n.idle - {id}
    && n.next == m.next && n.quiesced == m.quiesced && n.destroyed == m.destroyed && n.held == m.held
  }

  /** The worker is in the run queue alone, with this control block. */
  predicate InRun(m: Mgr, id: nat, cb: Cb) {
    id in m.run && id !in m.idle && m.run[id] == cb
  }

  /** The worker is in the pool alone. */
  predicate Pooled(m: Mgr, id: nat, cb: Cb) {
    id in m.idle && id !in m.run && m.idle[id] == cb
  }

  lemma SameRest(q: Queue, id: nat, cb: Cb)
    ensures q[id := cb] - {id} == q - {id} && (q - {id}) - {id} == q - {id}
  {
  }

  /** startEDU takes an idle worker to the run queue, of the kind asked for, waiting. */
  lemma {:induction false} ReusedIs(m: Mgr, kind: Kind, id: nat)
    requires id in m.idle
    ensures Only(m, Reuse(m, kind, id), id) && InRun(Reuse(m, kind, id), id, Cb(kind, Waiting, m.idle[id].forced))
  {
    SameRest(m.run, id, m.idle[id].(kind := kind, status := Waiting));
  }

  /** A new worker gets the next id, once, and is in the run queue, being created; there is none if its thread fails. */
  lemma {:induction false} EnteredIs(m: Mgr, kind: Kind, thread: bool)
    requires m.next !in m.run && m.next !in m.idle
    ensures Enter(m, kind, thread).next == m.next + 1 && Enter(m, kind, thread).idle == m.idle
    ensures thread ==> InRun(Enter(m, kind, thread), m.next, Cb(kind, Creating, false)) && Enter(m, kind, thread).held == m.held
    ensures !thread ==> Enter(m, kind, thread).held
    ensures Enter(m, kind, thread).run - {m.next} == m.run
  {
    SameRest(m.run, m.next, Cb(kind, Creating, false));
    assert m.run - {m.next} == m.run;
  }

  /** activateEDU: in the run queue and running, wherever it was. */
  lemma {:induction false} ActivatedIs(m: Mgr, id: nat)
    requires m.run.Keys !! m.idle.Keys
    ensures Only(m, Activated(m, id), id) && (Find(m, id) == None ==> Activated(m, id) == m)
    ensures Find(m, id).Some? ==> InRun(Activated(m, id), id, Cb(Find(m, id).value.kind, Running, Find(m, id).value.forced))
  {
    if id in m.run {
      SameRest(m.run, id, m.run[id].(status := Running));
    } else if id in m.idle {
      SameRest(m.run, id, m.idle[id].(status := Running));
    }
  }

  /** waitEDU: a running worker waits, where it is; any other stays as it is. */
  lemma {:induction false} WaitedIs(m: Mgr, id: nat)
    requires m.run.Keys !! m.idle.Keys
    ensures Only(m, Waited(m, id), id)
    ensures if id in m.run && m.run[id].status == Running
      then InRun(Waited(m, id), id, Cb(m.run[id].kind, Waiting, m.run[id].forced)) else Waited(m, id) == m
  {
    if id in m.run {
      SameRest(m.run, id, m.run[id].(status := Waiting));
    }
  }

  /** _destroyEDU: in neither queue. */
  lemma {:induction false} RemovedIs(m: Mgr, id: nat)
    requires m.run.Keys !! m.idle.Keys
    ensures Only(m, Removed(m, id), id) && id !in Removed(m, id).run && id !in Removed(m, id).idle
  {
    assert id in m.run ==> m.run - {id} - {id} == m.run - {id};
    assert id in m.idle ==> m.idle - {id} - {id} == m.idle - {id};
  }

  /** _deactivateEDU: in the pool and waiting, wherever it was. */
  lemma {:induction false} DeactivatedIs(m: Mgr, id: nat)
    requires m.run.Keys !! m.idle.Keys
    ensures Only(m, Deactivated(m, id), id) && (Find(m, id) == None ==> Deactivated(m, id) == m)
    ensures Find(m, id).Some? ==> Pooled(Deactivated(m, id), id, Cb(Find(m, id).value.kind, Waiting, Find(m, id).value.forced))
  {
    if id in m.run {
      SameRest(m.run, id, m.run[id]);
      SameRest(m.idle, id, m.run[id].(status := Waiting));
    } else if id in m.idle {
      SameRest(m.idle, id, m.idle[id].(status := Waiting));
    }
  }

  /** returnEDU: what is no agent, or is forced out, or comes back at the end or below the limit is gone; the rest is pooled. */
  lemma {:induction false} ReturnedIs(m: Mgr, id: nat, force: bool, maxPool: nat)
    requires m.run.Keys !! m.idle.Keys && Find(m, id).Some?
    ensures Only(m, Returned(m, id, force, maxPool), id)
    ensures var cb, n := Find(m, id).value, Returned(m, id, force, maxPool);
      if cb.kind != Agent || force || m.destroyed || |m.run| + |m.idle| < maxPool then id !in n.run && id !in n.idle
      else Pooled(n, id, Cb(Agent, Waiting, cb.forced))
  {
    RemovedIs(m, id);
    DeactivatedIs(m, id);
  }

  /** A worker that sets its status stays where it is, and as it is but for that. */
  lemma {:induction false} WithStatusIs(m: Mgr, id: nat, status: Status)
    requires m.run.Keys !! m.idle.Keys
    ensures Only(m, WithStatus(m, id, status), id) && (Find(m, id) == None ==> WithStatus(m, id, status) == m)
    ensures id in m.run ==> InRun(WithStatus(m, id, status), id, Cb(m.run[id].kind, status, m.run[id].forced))
    ensures id in m.idle ==> Pooled(WithStatus(m, id, status), id, Cb(m.idle[id].kind, status, m.idle[id].forced))
  {
    if id in m.run {
      SameRest(m.run, id, m.run[id].(status := status));
    } else if id in m.idle {
      SameRest(m.idle, id, m.idle[id].(status := status));
    }
  }

  // ---------------------------------------------------------------- steps

  /** An id handed out, for which kind of worker, and whether its thread started. */
  datatype Made = Made(id: nat, kind: Kind, thread: bool)

  /** A startEDU in flight, with the iterator it took before the latch: the first idle worker then, or end(). */
  datatype Begun = Begun(kind: Kind, it: Option<nat>)

  /** How far a returnEDU has come: it has read the type, has yet to ask for the size, or has chosen. */
  datatype Stage = Read | Counting | Decided(destroy: bool)

  /** A returnEDU in flight, with the type it read. */
  datatype Return = Return(id: nat, kind: Kind, force: bool, stage: Stage)

  /**
   The calls in flight that have yet to look at the flag, to latch, to look at the flag again, to latch again;
   and the returns.
   */
  datatype Calls = Calls(begun: seq<Begun>, starts: seq<Begun>, creates: seq<Kind>, enters: seq<Kind>, returning: seq<Return>)

  /** `stray` says that an iterator has been followed that points at no idle worker: all is undefined from then on. */
  datatype World = World(m: Mgr, log: seq<Made>, dead: nat, calls: Calls, stray: bool)

  datatype Step =
    | Begin(kind: Kind)
    | StartRead(i: nat)
    | Start(i: nat)
    | CreateRead(i: nat, memory: bool)
    | Create(i: nat, thread: bool)
    | Activate(id: nat)
    | Wait(id: nat)
    | ReturnRead(id: nat, force: bool)
    | ReturnTest(i: nat)
    | ReturnCount(i: nat, maxPool: nat)
    | ReturnAct(i: nat)
    | Poll(id: nat)
    | Got(id: nat)
    | Force
    | Quiesce(on: bool)
    | SetDestroyed

  function Without<T>(s: seq<T>, i: nat): (r: seq<T>)
    requires i < |s|
    ensures forall x :: x in r ==> x in s
  {
    s[..i] + s[i + 1..]
  }

  /** Whether the step has to take the latch. */
  predicate Latches(step: Step) {
    step.Start? || step.Create? || step.Activate? || step.Wait? ||
    step.ReturnRead? || step.ReturnCount? || step.ReturnAct? || step.Force?
  }

  predicate Enabled(w: World, step: Step) {
    && (Latches(step) ==> !w.m.held)
    && match step
       case StartRead(i) => i < |w.calls.begun|
       case Start(i) => i < |w.calls.starts|
       case CreateRead(i, _) => i < |w.calls.creates|
       case Create(i, _) => i < |w.calls.enters|
       case ReturnTest(i) => i < |w.calls.returning| && w.calls.returning[i].stage == Read
       case ReturnCount(i, _) => i < |w.calls.returning| && w.calls.returning[i].stage == Counting
       case ReturnAct(i) => i < |w.calls.returning| && w.calls.returning[i].stage.Decided?
       case Poll(id) => Find(w.m, id).Some?
       case Got(id) => Find(w.m, id).Some?
       case _ => true
  }

  function Advanced(c: Calls, i: nat, stage: Stage): Calls
    requires i < |c.returning|
  {
    c.(returning := c.returning[i := c.returning[i].(stage := stage)])
  }

  function Next(w: World, step: Step): World
    requires Enabled(w, step)
  {
    var c := w.calls;
    match step
    case Begin(kind) => w.(calls := c.(begun := c.begun + [Begun(kind, Front(w.m.idle))]))
    case StartRead(i) =>
      var d := c.(begun := Without(c.begun, i));
      w.(calls := if w.m.quiesced then d else d.(starts := d.starts + [c.begun[i]]))
    case Start(i) =>
      var s, d := c.starts[i], c.(starts := Without(c.starts, i));
      if w.m.idle == map[] || !IsPoolable(s.kind) then w.(calls := d.(creates := d.creates + [s.kind]))
      else if Fit(w.m, s.it) then w.(calls := d, m := Reuse(w.m, s.kind, s.it.value))
      else w.(calls := d, stray := true)
    case CreateRead(i, memory) =>
      var kind, d := c.creates[i], c.(creates := Without(c.creates, i));
      if w.m.quiesced || !memory then w.(calls := d) else w.(calls := d.(enters := d.enters + [kind]))
    case Create(i, thread) =>
      var kind := c.enters[i];
      w.(calls := c.(enters := Without(c.enters, i)), m := Enter(w.m, kind, thread),
         log := w.log + [Made(w.m.next, kind, thread)])
    case Activate(id) => w.(m := Activated(w.m, id))
    case Wait(id) => w.(m := Waited(w.m, id))
    case ReturnRead(id, force) =>
      (match Find(w.m, id)
       case None => w
       case Some(cb) => w.(calls := c.(returning := c.returning + [Return(id, cb.kind, force, Read)])))
    case ReturnTest(i) =>
      var r := c.returning[i];
      w.(calls := Advanced(c, i, if !IsPoolable(r.kind) || r.force || w.m.destroyed then Decided(true) else Counting))
    case ReturnCount(i, maxPool) => w.(calls := Advanced(c, i, Decided(maxPool > |w.m.run| + |w.m.idle|)))
    case ReturnAct(i) =>
      var r := c.returning[i];
      var v := w.(calls := c.(returning := Without(c.returning, i)));
      if r.stage.destroy then
        v.(m := Removed(w.m, r.id), dead := w.dead + if Find(w.m, r.id).Some? then 1 else 0)
      else v.(m := Deactivated(w.m, r.id))
    case Poll(id) => if Find(w.m, id).value.status == Idle then w else w.(m := WithStatus(w.m, id, Waiting))
    case Got(id) => w.(m := WithStatus(w.m, id, Running))
    case Force => w.(m := w.m.(run := ForceAll(w.m.run), idle := ForceAll(w.m.idle)))
    case Quiesce(on) => w.(m := w.m.(quiesced := on))
    case SetDestroyed => w.(m := w.m.(destroyed := true))
  }

  /** A worker that polls waits, unless it is idle; one that got an event runs. */
  lemma {:induction false} WorkerSteps(w: World, id: nat)
    requires w.m.run.Keys !! w.m.idle.Keys && Find(w.m, id).Some?
    ensures var cb := Find(w.m, id).value;
      && Find(Next(w, Poll(id)).m, id) == Some(if cb.status == Idle then cb else Cb(cb.kind, Waiting, cb.forced))
      && Find(Next(w, Got(id)).m, id) == Some(Cb(cb.kind, Running, cb.forced))
  {
    WithStatusIs(w.m, id, Waiting);
    WithStatusIs(w.m, id, Running);
  }

  /** What the steps that read the flags decide. */
  lemma {:induction false} FlagsRead(w: World, i: nat, maxPool: nat)
    ensures Enabled(w, StartRead(i)) ==>
      Next(w, StartRead(i)).calls.starts == w.calls.starts + if w.m.quiesced then [] else [w.calls.begun[i]]
    ensures Enabled(w, CreateRead(i, true)) ==>
      Next(w, CreateRead(i, true)).calls.enters == w.calls.enters + if w.m.quiesced then [] else [w.calls.creates[i]]
    ensures Enabled(w, CreateRead(i, false)) ==> Next(w, CreateRead(i, false)).calls.enters == w.calls.enters
    ensures Enabled(w, ReturnTest(i)) ==>
      var r := w.calls.returning[i];
      Next(w, ReturnTest(i)).calls.returning[i].stage == if r.kind == Agent && !r.force && !w.m.destroyed then Counting else Decided(true)
    ensures Enabled(w, ReturnCount(i, maxPool)) ==>
      Next(w, ReturnCount(i, maxPool)).calls.returning[i].stage == Decided(|w.m.run| + |w.m.idle| < maxPool)
  {
    assert w.calls.starts + [] == w.calls.starts && w.calls.enters + [] == w.calls.enters;
  }

  // ---------------------------------------------------------------- the invariant

  /** Workers whose thread was started. */
  function Started(log: seq<Made>): nat {
    if log == [] then 0 else Started(log[..|log| - 1]) + if log[|log| - 1].thread then 1 else 0
  }

  /** Ids count up from 1 and are never handed out again. */
  predicate Numbered(w: World) {
    && w.m.next == |w.log| + 1
    && forall k :: 0 <= k < |w.log| ==> w.log[k].id == k + 1
  }

  /** `kind` is what the worker `id` was made as. */
  predicate MadeAs(log: seq<Made>, id: nat, kind: Kind) {
    0 < id <= |log| && log[id - 1].kind == kind
  }

  /** Every queued worker was made, keeps its kind, and is not being destroyed. */
  predicate Sound(log: seq<Made>, q: Queue) {
    forall id :: id in q ==> MadeAs(log, id, q[id].kind) && q[id].status != Destroy
  }

  predicate AllPoolable(q: Queue) {
    forall id :: id in q ==> IsPoolable(q[id].kind)
  }

  predicate Inv(w: World) {
    && Numbered(w)
    && w.m.run.Keys !! w.m.idle.Keys
    && Sound(w.log, w.m.run) && Sound(w.log, w.m.idle)
    && AllPoolable(w.m.idle)
    && (forall r :: r in w.calls.returning ==> Returnable(w.log, r))
    && |w.m.run| + |w.m.idle| + w.dead == Started(w.log)
    && (w.m.held <==> exists k :: 0 <= k < |w.log| && !w.log[k].thread)
  }

  function Init(): World {
    World(Mgr(map[], map[], 1, false, false, false), [], 0, Calls([], [], [], [], []), false)
  }

  lemma InitHolds()
    ensures Inv(Init())
  {
  }

  lemma SizeAdd(q: Queue, id: nat, cb: Cb)
    ensures |q[id := cb]| == |q| + if id in q then 0 else 1
  {
    assert q[id := cb].Keys == q.Keys + {id};
    assert |q.Keys| == |q| && |q[id := cb].Keys| == |q[id := cb]|;
  }

  lemma SizeDrop(q: Queue, id: nat)
    ensures |q - {id}| == |q| - if id in q then 1 else 0
  {
    assert (q - {id}).Keys == q.Keys - {id};
    assert |q.Keys| == |q| && |(q - {id}).Keys| == |q - {id}|;
  }

  /** Moving workers between queues, or taking one off, as the kind they were made, keeps the invariant. */
  lemma {:induction false} QueuesKeep(w: World, run: Queue, idle: Queue, dead: nat)
    requires Inv(w) && Sound(w.log, run) && Sound(w.log, idle) && run.Keys !! idle.Keys
    requires |run| + |idle| + dead == |w.m.run| + |w.m.idle| + w.dead
    requires AllPoolable(idle)
    ensures Inv(w.(m := w.m.(run := run, idle := idle), dead := dead))
  {
  }

  lemma {:induction false} MoveKeeps(w: World, run: Queue, idle: Queue)
    requires Inv(w) && Sound(w.log, run) && Sound(w.log, idle) && run.Keys !! idle.Keys
    requires |run| + |idle| == |w.m.run| + |w.m.idle|
    requires AllPoolable(idle)
    ensures Inv(w.(m := w.m.(run := run, idle := idle)))
  {
    QueuesKeep(w, run, idle, w.dead);
  }

  lemma SoundDrop(log: seq<Made>, q: Queue, id: nat)
    requires Sound(log, q)
    ensures Sound(log, q - {id}) && (AllPoolable(q) ==> AllPoolable(q - {id}))
  {
  }

  /** Queues with no id in common have none when a worker goes from one to the other, or leaves. */
  lemma Apart(q: Queue, r: Queue, id: nat, cb: Cb)
    requires q.Keys !! r.Keys
    ensures (q - {id}).Keys !! r[id := cb].Keys && (q - {id}).Keys !! r.Keys
  {
    assert (q - {id}).Keys == q.Keys - {id};
  }

  lemma SoundAdd(log: seq<Made>, q: Queue, id: nat, cb: Cb)
    requires Sound(log, q) && MadeAs(log, id, cb.kind) && cb.status != Destroy
    ensures Sound(log, q[id := cb]) && (AllPoolable(q) && IsPoolable(cb.kind) ==> AllPoolable(q[id := cb]))
  {
  }

  /** An idle worker goes to the run queue. */
  lemma {:induction false} TakenKeeps(w: World, id: nat, cb: Cb)
    requires Inv(w) && id in w.m.idle && cb.kind == Agent && cb.status != Destroy
    ensures Inv(w.(m := w.m.(run := w.m.run[id := cb], idle := w.m.idle - {id})))
  {
    assert MadeAs(w.log, id, w.m.idle[id].kind) && IsPoolable(w.m.idle[id].kind);
    SizeAdd(w.m.run, id, cb);
    SizeDrop(w.m.idle, id);
    SoundAdd(w.log, w.m.run, id, cb);
    SoundDrop(w.log, w.m.idle, id);
    Apart(w.m.idle, w.m.run, id, cb);
    MoveKeeps(w, w.m.run[id := cb], w.m.idle - {id});
  }

  lemma {:induction false} ReuseKeeps(w: World, kind: Kind, id: nat)
    requires Inv(w) && id in w.m.idle && IsPoolable(kind)
    ensures Inv(w.(m := Reuse(w.m, kind, id)))
  {
    TakenKeeps(w, id, w.m.idle[id].(kind := kind, status := Waiting));
  }

  lemma {:induction false} ActivateKeeps(w: World, id: nat)
    requires Inv(w)
    ensures Inv(w.(m := Activated(w.m, id)))
  {
    if id in w.m.idle {
      assert IsPoolable(w.m.idle[id].kind);
      TakenKeeps(w, id, w.m.idle[id].(status := Running));
    } else {
      StatusKeeps(w, id, Running);
    }
  }

  lemma {:induction false} StatusKeeps(w: World, id: nat, status: Status)
    requires Inv(w) && status != Destroy
    ensures Inv(w.(m := WithStatus(w.m, id, status)))
  {
    if id in w.m.run {
      SizeAdd(w.m.run, id, w.m.run[id].(status := status));
      MoveKeeps(w, w.m.run[id := w.m.run[id].(status := status)], w.m.idle);
    } else if id in w.m.idle {
      SizeAdd(w.m.idle, id, w.m.idle[id].(status := status));
      MoveKeeps(w, w.m.run, w.m.idle[id := w.m.idle[id].(status := status)]);
    }
  }

  /** A running agent goes to the idle queue. */
  lemma {:induction false} PooledKeeps(w: World, id: nat, cb: Cb)
    requires Inv(w) && id in w.m.run && MadeAs(w.log, id, Agent) && cb.kind == Agent && cb.status != Destroy
    ensures Inv(w.(m := w.m.(run := w.m.run - {id}, idle := w.m.idle[id := cb])))
  {
    SizeAdd(w.m.idle, id, cb);
    SizeDrop(w.m.run, id);
    SoundAdd(w.log, w.m.idle, id, cb);
    SoundDrop(w.log, w.m.run, id);
    Apart(w.m.run, w.m.idle, id, cb);
    MoveKeeps(w, w.m.run - {id}, w.m.idle[id := cb]);
  }

  lemma {:induction false} DeactivateKeeps(w: World, id: nat)
    requires Inv(w) && MadeAs(w.log, id, Agent)
    ensures Inv(w.(m := Deactivated(w.m, id)))
  {
    if id in w.m.run {
      PooledKeeps(w, id, w.m.run[id].(status := Waiting));
    } else {
      StatusKeeps(w, id, Waiting);
    }
  }

  lemma {:induction false} RemoveKeeps(w: World, id: nat)
    requires Inv(w)
    ensures Inv(w.(m := Removed(w.m, id), dead := w.dead + if Find(w.m, id).Some? then 1 else 0))
  {
    var v := w.(m := Removed(w.m, id), dead := w.dead + if Find(w.m, id).Some? then 1 else 0);
    if id in w.m.run {
      RemoveRunning(w, id);
      assert v == w.(m := w.m.(run := w.m.run - {id}, idle := w.m.idle), dead := w.dead + 1);
    } else if id in w.m.idle {
      RemoveIdle(w, id);
      assert v == w.(m := w.m.(run := w.m.run, idle := w.m.idle - {id}), dead := w.dead + 1);
    } else {
      assert v == w;
    }
  }

  lemma {:induction false} RemoveRunning(w: World, id: nat)
    requires Inv(w) && id in w.m.run
    ensures Inv(w.(m := w.m.(run := w.m.run - {id}, idle := w.m.idle), dead := w.dead + 1))
  {
    SizeDrop(w.m.run, id);
    SoundDrop(w.log, w.m.run, id);
    Apart(w.m.run, w.m.idle, id, w.m.run[id]);
    QueuesKeep(w, w.m.run - {id}, w.m.idle, w.dead + 1);
  }

  lemma {:induction false} RemoveIdle(w: World, id: nat)
    requires Inv(w) && id in w.m.idle
    ensures Inv(w.(m := w.m.(run := w.m.run, idle := w.m.idle - {id}), dead := w.dead + 1))
  {
    SizeDrop(w.m.idle, id);
    SoundDrop(w.log, w.m.idle, id);
    Apart(w.m.idle, w.m.run, id, w.m.idle[id]);
    QueuesKeep(w, w.m.run, w.m.idle - {id}, w.dead + 1);
  }

  lemma {:induction false} EnterKeeps(w: World, kind: Kind, thread: bool)
    requires Inv(w) && !w.m.held
    ensures Inv(w.(m := Enter(w.m, kind, thread), log := w.log + [Made(w.m.next, kind, thread)]))
  {
    var log := w.log + [Made(w.m.next, kind, thread)];
    GrownSound(w.log, log, w.m.run);
    GrownSound(w.log, log, w.m.idle);
    if thread {
      EnterStarted(w, log, kind, Cb(kind, Creating, false));
    } else {
      PutAndTaken(w.m.run, w.m.next, Cb(kind, Creating, false));
      EnterFailed(w, log, kind);
    }
  }

  lemma PutAndTaken(q: Queue, id: nat, cb: Cb)
    requires id !in q
    ensures q[id := cb] - {id} == q
  {
  }

  lemma {:induction false} EnterStarted(w: World, log: seq<Made>, kind: Kind, cb: Cb)
    requires Inv(w) && !w.m.held && Sound(log, w.m.run) && Sound(log, w.m.idle)
    requires log == w.log + [Made(w.m.next, kind, true)] && cb == Cb(kind, Creating, false)
    ensures Inv(w.(m := w.m.(run := w.m.run[w.m.next := cb], next := w.m.next + 1), log := log))
  {
    assert log[..|log| - 1] == w.log;
    assert w.m.next !in w.m.run && w.m.next !in w.m.idle;
    assert MadeAs(log, w.m.next, kind);
    SizeAdd(w.m.run, w.m.next, cb);
    assert forall r :: r in w.calls.returning ==> Returnable(w.log, r) && Returnable(log, r);
  }

  lemma {:induction false} EnterFailed(w: World, log: seq<Made>, kind: Kind)
    requires Inv(w) && !w.m.held && Sound(log, w.m.run) && Sound(log, w.m.idle)
    requires log == w.log + [Made(w.m.next, kind, false)]
    ensures Inv(w.(m := w.m.(next := w.m.next + 1, held := true), log := log))
  {
    assert log[..|log| - 1] == w.log && !log[|w.log|].thread;
    assert forall r :: r in w.calls.returning ==> Returnable(w.log, r) && Returnable(log, r);
  }

  lemma {:induction false} GrownSound(log: seq<Made>, more: seq<Made>, q: Queue)
    requires Sound(log, q) && log <= more
    ensures Sound(more, q)
  {
    forall id | id in q
      ensures MadeAs(more, id, q[id].kind) && q[id].status != Destroy
    {
      assert MadeAs(log, id, q[id].kind);
    }
  }

  lemma {:induction false} ForceKeeps(w: World)
    requires Inv(w)
    ensures Inv(w.(m := w.m.(run := ForceAll(w.m.run), idle := ForceAll(w.m.idle))))
  {
    assert |ForceAll(w.m.run).Keys| == |w.m.run.Keys| && |ForceAll(w.m.idle).Keys| == |w.m.idle.Keys|;
    MoveKeeps(w, ForceAll(w.m.run), ForceAll(w.m.idle));
  }

  predicate Returnable(log: seq<Made>, r: Return) {
    MadeAs(log, r.id, r.kind) && (r.stage == Counting || r.stage == Decided(false) ==> IsPoolable(r.kind))
  }

  /** Calls in flight matter only through the returns among them, and flags not at all. */
  lemma {:induction false} CallsKeep(w: World, c: Calls, quiesced: bool, destroyed: bool)
    requires Inv(w) && forall r :: r in c.returning ==> Returnable(w.log, r)
    ensures Inv(w.(calls := c, m := w.m.(quiesced := quiesced, destroyed := destroyed)))
  {
  }

  lemma {:induction false} SameCalls(w: World, c: Calls)
    requires Inv(w) && forall r :: r in c.returning ==> Returnable(w.log, r)
    ensures Inv(w.(calls := c))
  {
    CallsKeep(w, c, w.m.quiesced, w.m.destroyed);
  }

  lemma {:induction false} ReadKeeps(w: World, id: nat, force: bool, cb: Cb)
    requires Inv(w) && Find(w.m, id) == Some(cb)
    ensures Inv(w.(calls := w.calls.(returning := w.calls.returning + [Return(id, cb.kind, force, Read)])))
  {
    assert MadeAs(w.log, id, cb.kind);
    SameCalls(w, w.calls.(returning := w.calls.returning + [Return(id, cb.kind, force, Read)]));
  }

  lemma {:induction false} AdvanceKeeps(w: World, i: nat, stage: Stage)
    requires Inv(w) && i < |w.calls.returning|
    requires stage == Counting || stage == Decided(false) ==> IsPoolable(w.calls.returning[i].kind)
    ensures Inv(w.(calls := Advanced(w.calls, i, stage)))
  {
    assert Returnable(w.log, w.calls.returning[i]) by { assert w.calls.returning[i] in w.calls.returning; }
    SameCalls(w, Advanced(w.calls, i, stage));
  }

  lemma {:induction false} CountKeeps(w: World, i: nat, stage: Stage)
    requires Inv(w) && i < |w.calls.returning| && w.calls.returning[i].stage == Counting
    ensures Inv(w.(calls := Advanced(w.calls, i, stage)))
  {
    assert Returnable(w.log, w.calls.returning[i]) by { assert w.calls.returning[i] in w.calls.returning; }
    AdvanceKeeps(w, i, stage);
  }

  lemma {:induction false} ActKeeps(w: World, i: nat)
    requires Inv(w) && Enabled(w, ReturnAct(i))
    ensures Inv(Next(w, ReturnAct(i)))
  {
    var r := w.calls.returning[i];
    var v := w.(calls := w.calls.(returning := Without(w.calls.returning, i)));
    assert Returnable(w.log, r) by { assert r in w.calls.returning; }
    SameCalls(w, v.calls);
    if r.stage.destroy {
      RemoveKeeps(v, r.id);
    } else {
      DeactivateKeeps(v, r.id);
    }
  }

  lemma {:induction false} StartKeeps(w: World, i: nat)
    requires Inv(w) && Enabled(w, Start(i))
    ensures Inv(Next(w, Start(i)))
  {
    var s, c := w.calls.starts[i], w.calls.(starts := Without(w.calls.starts, i));
    SameCalls(w, c);
    if w.m.idle == map[] || !IsPoolable(s.kind) {
      SameCalls(w, c.(creates := c.creates + [s.kind]));
    } else if Fit(w.m, s.it) {
      ReuseKeeps(w.(calls := c), s.kind, s.it.value);
    }
  }

  lemma {:induction false} CreateReadKeeps(w: World, i: nat, memory: bool)
    requires Inv(w) && Enabled(w, CreateRead(i, memory))
    ensures Inv(Next(w, CreateRead(i, memory)))
  {
    var kind, c := w.calls.creates[i], w.calls.(creates := Without(w.calls.creates, i));
    SameCalls(w, c);
    SameCalls(w, c.(enters := c.enters + [kind]));
  }

  lemma {:induction false} CreateKeeps(w: World, i: nat, thread: bool)
    requires Inv(w) && Enabled(w, Create(i, thread))
    ensures Inv(Next(w, Create(i, thread)))
  {
    var v := w.(calls := w.calls.(enters := Without(w.calls.enters, i)));
    SameCalls(w, v.calls);
    EnterKeeps(v, w.calls.enters[i], thread);
  }

  /** Every step of every call and every worker keeps the invariant. */
  lemma {:induction false} StepKeeps(w: World, step: Step)
    requires Inv(w) && Enabled(w, step)
    ensures Inv(Next(w, step))
  {
    match step
    case Begin(kind) => SameCalls(w, Next(w, step).calls);
    case StartRead(i) => SameCalls(w, Next(w, step).calls);
    case Start(i) => StartKeeps(w, i);
    case CreateRead(i, memory) => CreateReadKeeps(w, i, memory);
    case Create(i, thread) => CreateKeeps(w, i, thread);
    case Activate(id) => ActivateKeeps(w, id);
    case Wait(id) => StatusKeeps(w, id, Waiting);
    case ReturnRead(id, force) => if Find(w.m, id).Some? { ReadKeeps(w, id, force, Find(w.m, id).value); }
    case ReturnTest(i) => AdvanceKeeps(w, i, Next(w, step).calls.returning[i].stage);
    case ReturnCount(i, _) => CountKeeps(w, i, Next(w, step).calls.returning[i].stage);
    case ReturnAct(i) => ActKeeps(w, i);
    case Poll(id) => StatusKeeps(w, id, Waiting);
    case Got(id) => StatusKeeps(w, id, Running);
    case Force => ForceKeeps(w);
    case Quiesce(on) => CallsKeep(w, w.calls, on, w.m.destroyed);
    case SetDestroyed => CallsKeep(w, w.calls, w.m.quiesced, true);
  }

  // ---------------------------------------------------------------- runs

  /** `worlds` is an interleaving of steps, each enabled where it is taken. */
  predicate IsRun(worlds: seq<World>, steps: seq<Step>) {
    && |worlds| == |steps| + 1
    && forall k :: 0 <= k < |steps| ==> Enabled(worlds[k], steps[k]) && worlds[k + 1] == Next(worlds[k], steps[k])
  }

  lemma {:induction false} RunKeeps(worlds: seq<World>, steps: seq<Step>, k: nat)
    requires IsRun(worlds, steps) && Inv(worlds[0]) && k < |worlds|
    ensures Inv(worlds[k])
  {
    if k > 0 {
      RunKeeps(worlds, steps, k - 1);
      StepKeeps(worlds[k - 1], steps[k - 1]);
    }
  }

  /** What every reachable state of the manager satisfies, in its own terms. */
  predicate Safe(w: World) {
    && w.m.run.Keys !! w.m.idle.Keys
    && (forall id :: id in w.m.run.Keys + w.m.idle.Keys ==> 0 < id < w.m.next)
    && (forall id :: id in w.m.idle ==> w.m.idle[id].kind == Agent)
    && (forall id :: id in w.m.run ==> w.m.run[id].status != Destroy)
    && (forall id :: id in w.m.idle ==> w.m.idle[id].status != Destroy)
    && |w.m.run| + |w.m.idle| == Started(w.log) - w.dead
    && (forall j, k :: 0 <= j < k < |w.log| ==> w.log[j].id < w.log[k].id < w.m.next)
  }

  /** In every interleaving, from a new manager on, every state is safe, as long as no stray iterator has been followed. */
  lemma {:induction false} EveryRunSafe(worlds: seq<World>, steps: seq<Step>, k: nat)
    requires IsRun(worlds, steps) && worlds[0] == Init() && k < |worlds|
    ensures !worlds[k].stray ==> Safe(worlds[k])
  {
    InitHolds();
    RunKeeps(worlds, steps, k);
  }

  // ---------------------------------------------------------------- the latch that is not released

  lemma SameQueued(m: Mgr, id: nat, status: Status)
    ensures WithStatus(m, id, status).run.Keys == m.run.Keys && WithStatus(m, id, status).idle.Keys == m.idle.Keys
    ensures WithStatus(m, id, status).held == m.held
  {
    if id in m.run {
      assert m.run[id := m.run[id].(status := status)].Keys == m.run.Keys + {id};
    } else if id in m.idle {
      assert m.idle[id := m.idle[id].(status := status)].Keys == m.idle.Keys + {id};
    }
  }

  lemma {:induction false} HeldStays(w: World, step: Step)
    requires w.m.held && Enabled(w, step)
    ensures Next(w, step).m.held && Next(w, step).log == w.log && Next(w, step).stray == w.stray
    ensures Next(w, step).m.run.Keys == w.m.run.Keys && Next(w, step).m.idle.Keys == w.m.idle.Keys
  {
    match step
    case Poll(id) => SameQueued(w.m, id, Waiting);
    case Got(id) => SameQueued(w.m, id, Running);
    case _ =>
  }

  /** Once a worker's thread has failed to start, no call ever queues, moves or removes a worker again. */
  lemma {:induction false} FrozenAfterFailure(worlds: seq<World>, steps: seq<Step>, j: nat, k: nat)
    requires IsRun(worlds, steps) && worlds[0] == Init() && j <= k < |worlds|
    requires exists i :: 0 <= i < |worlds[j].log| && !worlds[j].log[i].thread
    ensures worlds[k].m.held && worlds[k].log == worlds[j].log && worlds[k].stray == worlds[j].stray
    ensures worlds[k].m.run.Keys == worlds[j].m.run.Keys && worlds[k].m.idle.Keys == worlds[j].m.idle.Keys
  {
    if j == k {
      InitHolds();
      RunKeeps(worlds, steps, j);
    } else {
      FrozenAfterFailure(worlds, steps, j, k - 1);
      HeldStays(worlds[k - 1], steps[k - 1]);
    }
  }

  /** The latch is left held exactly when some worker's thread failed to start. */
  lemma {:induction false} HeldIff(worlds: seq<World>, steps: seq<Step>, k: nat)
    requires IsRun(worlds, steps) && worlds[0] == Init() && k < |worlds|
    ensures worlds[k].m.held <==> exists i :: 0 <= i < |worlds[k].log| && !worlds[k].log[i].thread
  {
    InitHolds();
    RunKeeps(worlds, steps, k);
  }

  // ---------------------------------------------------------------- the manager object

  datatype Code = Ok | Quiesced | OutOfMemory | SysError | InvalidStatus

  /** The calls, each as it runs when no other comes in between; the steps above say how they interleave. */
  class PmdEduMgr {
    var run: Queue
    var idle: Queue
    var next: nat
    var quiesced: bool
    var destroyed: bool
    var held: bool

    ghost function State(): Mgr
      reads this
    {
      Mgr(run, idle, next, quiesced, destroyed, held)
    }

    constructor ()
      ensures State() == Init().m
    {
      run, idle, next, quiesced, destroyed, held := map[], map[], 1, false, false, false;
    }

    /** startEDU up to the release of the latch: the id of an idle worker, or None to create one. */
    method StartEdu(kind: Kind) returns (rc: Code, id: Option<nat>)
      requires !held
      modifies this
      ensures rc == if old(quiesced) then Quiesced else Ok
      ensures id.Some? <==> rc == Ok && old(idle) != map[] && IsPoolable(kind)
      ensures id.Some? ==> id.value == First(old(idle))
      ensures State() == if id.Some? then Reuse(old(State()), kind, id.value) else old(State())
    {
      if quiesced {
        return Quiesced, None;
      }
      if idle == map[] || !IsPoolable(kind) {
        return Ok, None;
      }
      var first := First(idle);
      var cb := idle[first].(kind := kind, status := Waiting);
      idle := idle - {first};
      run := run[first := cb];
      return Ok, Some(first);
    }

    method CreateNewEdu(kind: Kind, memory: bool, thread: bool) returns (rc: Code, id: Option<nat>)
      requires !held
      modifies this
      ensures State() == if old(quiesced) || !memory then old(State()) else Enter(old(State()), kind, thread)
      ensures rc == if old(quiesced) then Quiesced else if !memory then OutOfMemory else if thread then Ok else SysError
      ensures rc == Ok ==> id == Some(old(next)) && old(next) in run
    {
      id := None;
      if quiesced {
        return Quiesced, id;
      }
      if !memory {
        return OutOfMemory, id;
      }
      id := Some(next);
      run := run[next := Cb(kind, Creating, false)];
      next := next + 1;
      if !thread {
        run := run - {id.value};
        held := true;
        return SysError, id;
      }
      return Ok, id;
    }

    method ActivateEdu(id: nat) returns (rc: Code)
      requires !held
      modifies this
      ensures State() == Activated(old(State()), id) && rc == if Find(old(State()), id).Some? then Ok else SysError
    {
      if id !in idle {
        if id !in run {
          return SysError;
        }
        run := run[id := run[id].(status := Running)];
        return Ok;
      }
      var cb := idle[id];
      idle := idle - {id};
      run := run[id := cb.(status := Running)];
      return Ok;
    }

    method WaitEdu(id: nat) returns (rc: Code)
      requires !held
      modifies this
      ensures State() == Waited(old(State()), id)
      ensures rc == if id !in old(run) then SysError
                    else if old(run)[id].status in {Waiting, Running} then Ok else InvalidStatus
    {
      if id !in run {
        return SysError;
      }
      var status := run[id].status;
      if status == Waiting {
        return Ok;
      }
      if status != Running {
        return InvalidStatus;
      }
      run := run[id := run[id].(status := Waiting)];
      return Ok;
    }

    method DestroyEdu(id: nat) returns (rc: Code)
      requires !held
      modifies this
      ensures State() == Removed(old(State()), id) && rc == if Find(old(State()), id).Some? then Ok else SysError
    {
      if id in run {
        run := run - {id};
      } else if id in idle {
        idle := idle - {id};
      } else {
        return SysError;
      }
      return Ok;
    }

    method DeactivateEdu(id: nat) returns (rc: Code)
      requires !held
      modifies this
      ensures State() == Deactivated(old(State()), id) && rc == if Find(old(State()), id).Some? then Ok else SysError
    {
      if id !in run {
        if id !in idle {
          return SysError;
        }
        idle := idle[id := idle[id].(status := Waiting)];
      } else {
        var cb := run[id];
        run := run - {id};
        idle := idle[id := cb.(status := Waiting)];
      }
      return Ok;
    }

    /** returnEDU; a worker not found is an error. */
    method ReturnEdu(id: nat, force: bool, maxPool: nat) returns (rc: Code)
      requires !held
      modifies this
      ensures rc == if Find(old(State()), id).Some? then Ok else SysError
      ensures State() == Returned(old(State()), id, force, maxPool)
    {
      var kind;
      if id !in run {
        if id !in idle {
          return SysError;
        }
        kind := idle[id].kind;
      } else {
        kind := run[id].kind;
      }
      if !IsPoolable(kind) || force || destroyed || maxPool > |run| + |idle| {
        rc := DestroyEdu(id);
      } else {
        rc := DeactivateEdu(id);
      }
    }

    /** _forceEDUs over both queues. */
    method ForceEdus()
      requires !held
      modifies this
      ensures State() == old(State()).(run := ForceAll(old(run)), idle := ForceAll(old(idle)))
    {
      run := Forced(run);
      idle := Forced(idle);
    }
  }

  method Forced(q: Queue) returns (r: Queue)
    ensures r == ForceAll(q)
  {
    r := q;
    var left := q.Keys;
    while left != {}
      invariant left <= q.Keys && r.Keys == q.Keys
      invariant forall id :: id in q ==> r[id] == if id in left then q[id] else q[id].(forced := true)
      decreases |left|
    {
      var id :| id in left;
      r := r[id := q[id].(forced := true)];
      left := left - {id};
    }
  }
}
