/** Runs of the worker manager: a failed start, an iterator that has gone stale, and what the pool limit does. */
module EduRuns {
  import opened Bytes
  import opened EduMgr

  /** The steps, each enabled where it is taken, lead from `w` to `v`. */
  predicate Reaches(w: World, steps: seq<Step>, v: World)
    decreases |steps|
  {
    if steps == [] then w == v else Enabled(w, steps[0]) && Reaches(Next(w, steps[0]), steps[1..], v)
  }

  lemma {:induction false} ReachesOn(u: World, steps: seq<Step>, v: World, more: seq<Step>, w: World)
    requires Reaches(u, steps, v) && Reaches(v, more, w)
    ensures Reaches(u, steps + more, w)
    decreases |steps|
  {
    if steps == [] {
      assert steps + more == more;
    } else {
      ReachesOn(Next(u, steps[0]), steps[1..], v, more, w);
      assert (steps + more)[1..] == steps[1..] + more;
    }
  }

  /** They are a run as EveryRunSafe has it. */
  lemma {:induction false} ReachesRun(w: World, steps: seq<Step>, v: World) returns (worlds: seq<World>)
    requires Reaches(w, steps, v)
    ensures IsRun(worlds, steps) && worlds[0] == w && worlds[|steps|] == v
    decreases |steps|
  {
    if steps == [] {
      worlds := [w];
    } else {
      var rest := ReachesRun(Next(w, steps[0]), steps[1..], v);
      worlds := [w] + rest;
      forall k | 0 <= k < |steps|
        ensures Enabled(worlds[k], steps[k]) && worlds[k + 1] == Next(worlds[k], steps[k])
      {
        if k > 0 {
          assert worlds[k] == rest[k - 1] && steps[k] == steps[1..][k - 1];
        }
      }
    }
  }

  lemma {:induction false} OneStep(w: World, step: Step, v: World)
    requires Enabled(w, step) && Next(w, step) == v
    ensures Reaches(w, [step], v)
  {
    assert [step][1..] == [];
  }

  lemma {:induction false} FourSteps(w: World, w1: World, w2: World, w3: World, v: World, steps: seq<Step>)
    requires |steps| == 4 && Enabled(w, steps[0]) && Enabled(w1, steps[1]) && Enabled(w2, steps[2]) && Enabled(w3, steps[3])
    requires Next(w, steps[0]) == w1 && Next(w1, steps[1]) == w2 && Next(w2, steps[2]) == w3 && Next(w3, steps[3]) == v
    ensures Reaches(w, steps, v)
  {
    OneStep(w3, steps[3], v);
    ReachesOn(w2, [steps[2]], w3, [steps[3]], v) by { OneStep(w2, steps[2], w3); }
    ReachesOn(w1, [steps[1]], w2, [steps[2]] + [steps[3]], v) by { OneStep(w1, steps[1], w2); }
    ReachesOn(w, [steps[0]], w1, [steps[1]] + ([steps[2]] + [steps[3]]), v) by { OneStep(w, steps[0], w1); }
    assert steps == [steps[0]] + ([steps[1]] + ([steps[2]] + [steps[3]]));
  }

  // ---------------------------------------------------------------- a call that comes alone

  /** No call is in flight, and the next one will get the latch. */
  predicate Free(w: World) {
    && w.calls == Calls([], [], [], [], []) && !w.m.held && !w.m.quiesced && !w.m.destroyed && !w.stray
  }

  lemma DropOnly<T>(x: T)
    ensures Without([x], 0) == [] && [] + [x] == [x]
  {
  }

  /** startEDU of an agent comes to its last latch when there is no idle worker. */
  lemma {:induction false} ComesToCreate(w: World) returns (steps: seq<Step>, v: World)
    requires Free(w) && w.m.idle == map[]
    ensures Reaches(w, steps, v) && v == w.(calls := Calls([], [], [], [Agent], []))
    ensures forall s :: s in steps ==> !s.ReturnCount?
  {
    var b := Begun(Agent, None);
    DropOnly(b);
    DropOnly(Agent);
    steps := [Begin(Agent), StartRead(0), Start(0), CreateRead(0, true)];
    v := w.(calls := Calls([], [], [], [Agent], []));
    FourSteps(w, w.(calls := Calls([b], [], [], [], [])), w.(calls := Calls([], [b], [], [], [])),
              w.(calls := Calls([], [], [Agent], [], [])), v, steps);
  }

  lemma {:induction false} Creates(w: World, thread: bool) returns (steps: seq<Step>, v: World)
    requires Free(w) && w.m.idle == map[]
    ensures Reaches(w, steps, v) && (forall s :: s in steps ==> !s.ReturnCount?)
    ensures v == w.(m := Enter(w.m, Agent, thread), log := w.log + [Made(w.m.next, Agent, thread)])
  {
    var first, u := ComesToCreate(w);
    DropOnly(Agent);
    v := w.(m := Enter(w.m, Agent, thread), log := w.log + [Made(w.m.next, Agent, thread)]);
    assert Enabled(u, Create(0, thread)) && Next(u, Create(0, thread)) == v;
    OneStep(u, Create(0, thread), v);
    ReachesOn(w, first, u, [Create(0, thread)], v);
    steps := first + [Create(0, thread)];
  }

  /** From a new manager: a worker's thread does not start, and no step that needs the latch is enabled any more. */
  lemma {:induction false} FailedStart() returns (steps: seq<Step>, w: World)
    ensures Reaches(Init(), steps, w) && w.m.held && !w.stray
    ensures |w.log| == 1 && !w.log[0].thread
    ensures forall s :: Latches(s) ==> !Enabled(w, s)
  {
    steps, w := Creates(Init(), false);
  }

  // ---------------------------------------------------------------- the pool limit

  lemma ReturnBegins(w: World, id: nat, w1: World)
    requires !w.m.held && w.calls.returning == [] && id in w.m.run && w.m.run[id].kind == Agent
    requires w1 == w.(calls := w.calls.(returning := [Return(id, Agent, false, Read)]))
    ensures Enabled(w, ReturnRead(id, false)) && Next(w, ReturnRead(id, false)) == w1
  {
    assert [] + [Return(id, Agent, false, Read)] == [Return(id, Agent, false, Read)];
  }

  lemma ReturnGoesOn(w: World, id: nat, maxPool: nat, w1: World, w2: World, w3: World)
    requires !w.m.held && !w.m.destroyed && maxPool <= |w.m.run| + |w.m.idle|
    requires w1 == w.(calls := w.calls.(returning := [Return(id, Agent, false, Read)]))
    requires w2 == w.(calls := w.calls.(returning := [Return(id, Agent, false, Counting)]))
    requires w3 == w.(calls := w.calls.(returning := [Return(id, Agent, false, Decided(false))]))
    ensures Enabled(w1, ReturnTest(0)) && Next(w1, ReturnTest(0)) == w2
    ensures Enabled(w2, ReturnCount(0, maxPool)) && Next(w2, ReturnCount(0, maxPool)) == w3
  {
  }

  lemma ReturnEnds(w: World, id: nat, w3: World, v: World)
    requires !w.m.held && w.calls.returning == [] && v == w.(m := Deactivated(w.m, id))
    requires w3 == w.(calls := w.calls.(returning := [Return(id, Agent, false, Decided(false))]))
    ensures Enabled(w3, ReturnAct(0)) && Next(w3, ReturnAct(0)) == v
  {
    DropOnly(Return(id, Agent, false, Decided(false)));
  }

  /** An agent alone comes back: read, test, count, act. */
  lemma {:induction false} Returns(w: World, id: nat, maxPool: nat) returns (steps: seq<Step>, v: World)
    requires !w.m.held && !w.m.destroyed && w.calls.returning == []
    requires id in w.m.run && w.m.run[id].kind == Agent && maxPool <= |w.m.run| + |w.m.idle|
    ensures Reaches(w, steps, v) && v == w.(m := Deactivated(w.m, id))
    ensures steps == [ReturnRead(id, false), ReturnTest(0), ReturnCount(0, maxPool), ReturnAct(0)]
  {
    steps := [ReturnRead(id, false), ReturnTest(0), ReturnCount(0, maxPool), ReturnAct(0)];
    v := w.(m := Deactivated(w.m, id));
    var c := w.calls;
    var w1 := w.(calls := c.(returning := [Return(id, Agent, false, Read)]));
    var w2 := w.(calls := c.(returning := [Return(id, Agent, false, Counting)]));
    var w3 := w.(calls := c.(returning := [Return(id, Agent, false, Decided(false))]));
    ReturnBegins(w, id, w1);
    ReturnGoesOn(w, id, maxPool, w1, w2, w3);
    ReturnEnds(w, id, w3, v);
    FourSteps(w, w1, w2, w3, v, steps);
  }

  /** All returns of the run were decided against this limit. */
  predicate Limited(steps: seq<Step>, maxPool: nat) {
    forall s :: s in steps && s.ReturnCount? ==> s.maxPool == maxPool
  }

  /** Of `n` agents made, the first `k` are idle and the others run. */
  ghost predicate Pool(w: World, n: nat, k: nat) {
    && Free(w) && k <= n && w.m.next == n + 1
    && (forall id :: id in w.m.idle <==> 0 < id <= k) && (forall id :: id in w.m.run <==> k < id <= n)
    && (forall id :: id in w.m.run ==> w.m.run[id].kind == Agent)
    && |w.m.idle| == k && |w.m.run| == n - k
  }

  lemma {:induction false} MakesAgents(n: nat, maxPool: nat) returns (steps: seq<Step>, w: World)
    ensures Reaches(Init(), steps, w) && Pool(w, n, 0) && Limited(steps, maxPool)
  {
    if n == 0 {
      steps, w := [], Init();
    } else {
      var first, u := MakesAgents(n - 1, maxPool);
      assert u.m.idle == map[] by { assert forall id :: id !in u.m.idle; }
      var more;
      more, w := Creates(u, true);
      SizeAdd(u.m.run, n, Cb(Agent, Creating, false));
      ReachesOn(Init(), first, u, more, w);
      steps := first + more;
    }
  }

  lemma {:induction false} PoolsAgents(n: nat, k: nat, maxPool: nat) returns (steps: seq<Step>, w: World)
    requires k <= n && maxPool <= n
    ensures Reaches(Init(), steps, w) && Pool(w, n, k) && Limited(steps, maxPool)
    decreases k
  {
    if k == 0 {
      steps, w := MakesAgents(n, maxPool);
    } else {
      var first, u := PoolsAgents(n, k - 1, maxPool);
      var more;
      more, w := Returns(u, k, maxPool);
      OnePooled(u, w, n, k);
      ReachesOn(Init(), first, u, more, w);
      steps := first + more;
    }
  }

  lemma {:induction false} OnePooled(u: World, w: World, n: nat, k: nat)
    requires 0 < k <= n && Pool(u, n, k - 1) && w == u.(m := Deactivated(u.m, k))
    ensures Pool(w, n, k)
  {
    SizeDrop(u.m.run, k);
    SizeAdd(u.m.idle, k, u.m.run[k].(status := Waiting));
  }

  /** Whatever the limit, some run from a new manager pools one worker more. */
  lemma {:induction false} PastLimit(maxPool: nat) returns (steps: seq<Step>, w: World)
    ensures Reaches(Init(), steps, w) && Limited(steps, maxPool) && !w.stray && |w.m.idle| == maxPool + 1
  {
    steps, w := PoolsAgents(maxPool + 1, maxPool + 1, maxPool);
  }

  /** No worker is idle, and no return has decided on the pool. */
  predicate NonePooled(w: World) {
    w.m.idle == map[] && forall r :: r in w.calls.returning ==> r.stage != Decided(false)
  }

  lemma {:induction false} NonePooledStep(w: World, step: Step, maxPool: nat)
    requires NonePooled(w) && Enabled(w, step) && |w.m.run| + |w.m.idle| < maxPool
    requires step.ReturnCount? ==> step.maxPool == maxPool
    ensures NonePooled(Next(w, step))
  {
    match step
    case ReturnAct(i) => assert w.calls.returning[i] in w.calls.returning;
    case _ =>
  }

  /** And as long as there are fewer workers than the limit, none is ever pooled. */
  lemma {:induction false} NeverPooled(worlds: seq<World>, steps: seq<Step>, maxPool: nat, k: nat)
    requires IsRun(worlds, steps) && worlds[0] == Init() && Limited(steps, maxPool) && k < |worlds|
    requires forall j :: 0 <= j < |worlds| ==> |worlds[j].m.run| + |worlds[j].m.idle| < maxPool
    ensures worlds[k].m.idle == map[]
  {
    NeverPooledYet(worlds, steps, maxPool, k);
  }

  lemma {:induction false} NeverPooledYet(worlds: seq<World>, steps: seq<Step>, maxPool: nat, k: nat)
    requires IsRun(worlds, steps) && worlds[0] == Init() && Limited(steps, maxPool) && k < |worlds|
    requires forall j :: 0 <= j < |worlds| ==> |worlds[j].m.run| + |worlds[j].m.idle| < maxPool
    ensures NonePooled(worlds[k])
  {
    if k > 0 {
      NeverPooledYet(worlds, steps, maxPool, k - 1);
      assert steps[k - 1] in steps;
      NonePooledStep(worlds[k - 1], steps[k - 1], maxPool);
    }
  }

  /** The return of a running agent: it is pooled exactly if the workers are as many as the limit, or more. */
  lemma {:induction false} PooledIff(m: Mgr, id: nat, maxPool: nat)
    requires m.run.Keys !! m.idle.Keys && id in m.run && m.run[id].kind == Agent && !m.destroyed
    ensures id in Returned(m, id, false, maxPool).idle <==> maxPool <= |m.run| + |m.idle|
  {
    assert id !in m.idle;
  }

  /** It leaves no more idle workers than the limit exactly if there were fewer before. */
  lemma {:induction false} LimitKeptIff(m: Mgr, id: nat, maxPool: nat)
    requires m.run.Keys !! m.idle.Keys && id in m.run && m.run[id].kind == Agent && !m.destroyed
    ensures |Returned(m, id, false, maxPool).idle| <= maxPool <==> |m.idle| < maxPool
  {
    assert id !in m.idle;
    SizeAdd(m.idle, id, m.run[id].(status := Waiting));
    SizeDrop(m.run, id);
  }

  // ---------------------------------------------------------------- the iterator taken before the latch

  /**
   A step follows a stray iterator exactly when it is startEDU under the latch, for an agent, with some worker idle
   but the one that was first when the call began, if there was one, not idle any more.
   */
  lemma {:induction false} StrayIff(w: World, step: Step)
    requires Enabled(w, step) && !w.stray
    ensures Next(w, step).stray <==>
      && step.Start? && IsPoolable(w.calls.starts[step.i].kind) && w.m.idle != map[]
      && match w.calls.starts[step.i].it case None => true case Some(id) => id !in w.m.idle
  {
  }

  /**
   From a new manager: an agent is made; a second startEDU takes its iterator, end(), and reads the flag; the
   agent comes back to the pool; the second call gets the latch and follows its iterator.
   */
  lemma {:induction false} StaleIterator() returns (steps: seq<Step>, w: World)
    ensures Reaches(Init(), steps, w) && w.stray
  {
    var s1, w1 := MakesAgents(1, 0);
    assert w1.m.idle == map[] by { assert forall id :: id !in w1.m.idle; }
    var b := Begun(Agent, None);
    DropOnly(b);
    var w2 := w1.(calls := Calls([b], [], [], [], []));
    var w3 := w1.(calls := Calls([], [b], [], [], []));
    OneStep(w1, Begin(Agent), w2);
    OneStep(w2, StartRead(0), w3);
    ReachesOn(w1, [Begin(Agent)], w2, [StartRead(0)], w3);
    var s4, w4 := Returns(w3, 1, 0);
    assert 1 in w4.m.idle;
    w := w4.(calls := w4.calls.(starts := []), stray := true);
    OneStep(w4, Start(0), w);
    ReachesOn(w3, s4, w4, [Start(0)], w);
    ReachesOn(w1, [Begin(Agent)] + [StartRead(0)], w3, s4 + [Start(0)], w);
    ReachesOn(Init(), s1, w1, [Begin(Agent)] + [StartRead(0)] + (s4 + [Start(0)]), w);
    steps := s1 + ([Begin(Agent)] + [StartRead(0)] + (s4 + [Start(0)]));
  }
}
