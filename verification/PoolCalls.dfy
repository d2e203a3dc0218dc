/**
 * What a whole call of the pool does when its own steps follow one another, told by the state it leaves:
 * AcquireConnection, ReleaseConnection and Shutdown of common/src/db/mysql_pool.cpp.
 */
module PoolCalls {
  import opened Wrappers
  import opened MysqlPool

  lemma RunNothing(s: State)
    ensures IsRun(s, [], s)
  {
  }

  lemma RunFirst(s: State, a: Action, actions: seq<Action>, s': State)
    requires Enabled(s, a) && IsRun(Do(s, a), actions, s')
    ensures IsRun(s, [a] + actions, s')
  {
    assert ([a] + actions)[1..] == actions;
  }

  lemma {:induction false} RunThen(s: State, x: seq<Action>, s1: State, y: seq<Action>, s2: State)
    requires IsRun(s, x, s1) && IsRun(s1, y, s2)
    ensures IsRun(s, x + y, s2)
    decreases |x|
  {
    if x == [] {
      assert x + y == y;
    } else {
      RunThen(Do(s, x[0]), x[1..], s1, y, s2);
      assert (x + y)[1..] == x[1..] + y;
    }
  }

  lemma RunThree(s: State, a: Action, b: Action, c: Action)
    requires Enabled(s, a) && Enabled(Do(s, a), b) && Enabled(Do(Do(s, a), b), c)
    ensures IsRun(s, [a, b, c], Do(Do(Do(s, a), b), c))
  {
    hide Do, Enabled;
    var s1 := Do(s, a);
    var s2 := Do(s1, b);
    RunNothing(Do(s2, c));
    RunFirst(s2, c, [], Do(s2, c));
    RunFirst(s1, b, [c], Do(s2, c));
    RunFirst(s, a, [b, c], Do(s2, c));
    assert [c] + [] == [c] && [b] + [c] == [b, c] && [a] + [b, c] == [a, b, c];
  }

  lemma RunFour(s: State, a: Action, b: Action, c: Action, d: Action)
    requires Enabled(s, a) && Enabled(Do(s, a), b) && Enabled(Do(Do(s, a), b), c)
    requires Enabled(Do(Do(Do(s, a), b), c), d)
    ensures IsRun(s, [a, b, c, d], Do(Do(Do(Do(s, a), b), c), d))
  {
    hide Do, Enabled;
    RunThree(Do(s, a), b, c, d);
    RunFirst(s, a, [b, c, d], Do(Do(Do(Do(s, a), b), c), d));
    assert [a] + [b, c, d] == [a, b, c, d];
  }

  /** In AcquireConnection, newly arrived or woken from the wait, with nobody holding the mutex. */
  predicate AtDoor(s: State, t: Tid) {
    t in s.pcs && s.mutex.None? && (s.pcs[t].WantAcquire? || s.pcs[t].Notified?)
  }

  /**
   * AcquireConnection with a connection in the queue: the thread, newly arrived or woken, takes the
   * front one, and nothing else in the pool changes.
   */
  lemma AcquireTakesFront(s: State, t: Tid)
    requires AtDoor(s, t) && !s.shutdown && s.queue != []
    ensures IsRun(s, [Lock(t), Evaluate(t), TestAfterWait(t), Pop(t)],
                  s.(pcs := s.pcs[t := Holding(s.queue[0])], queue := s.queue[1..], left := s.left + [s.queue[0]]))
  {
    var b := s.pcs[t].Notified? && s.pcs[t].woken;
    var s1 := Do(s, Lock(t));
    assert s1 == s.(pcs := s.pcs[t := Evaluating(b)], mutex := Some(t));
    var s2 := Do(s1, Evaluate(t));
    assert s2.pcs == s.pcs[t := Passed(b)];
    var s3 := Do(s2, TestAfterWait(t));
    assert s3.pcs == s.pcs[t := Taking(b)];
    assert Do(s3, Pop(t)).pcs == s.pcs[t := Holding(s.queue[0])];
    RunFour(s, Lock(t), Evaluate(t), TestAfterWait(t), Pop(t));
  }

  /** With no connection in the queue it goes to sleep, and nothing else changes. */
  lemma AcquireSleeps(s: State, t: Tid)
    requires AtDoor(s, t) && !s.shutdown && s.queue == []
    ensures IsRun(s, [Lock(t), Evaluate(t), Sleep(t)], s.(pcs := s.pcs[t := Asleep]))
  {
    var b := s.pcs[t].Notified? && s.pcs[t].woken;
    assert Do(s, Lock(t)) == s.(pcs := s.pcs[t := Evaluating(b)], mutex := Some(t));
    var s2 := Do(Do(s, Lock(t)), Evaluate(t));
    assert s2.pcs == s.pcs[t := Blocking];
    assert Do(s2, Sleep(t)).pcs == s.pcs[t := Asleep];
    RunThree(s, Lock(t), Evaluate(t), Sleep(t));
  }

  /** Once the flag is set it comes back empty-handed, whatever is in the queue. */
  lemma AcquireAfterShutdown(s: State, t: Tid)
    requires AtDoor(s, t) && s.shutdown
    ensures IsRun(s, [Lock(t), Evaluate(t), TestAfterWait(t)], s.(pcs := s.pcs[t := Idle]))
  {
    var b := s.pcs[t].Notified? && s.pcs[t].woken;
    assert Do(s, Lock(t)) == s.(pcs := s.pcs[t := Evaluating(b)], mutex := Some(t));
    var s2 := Do(Do(s, Lock(t)), Evaluate(t));
    assert s2.pcs == s.pcs[t := Passed(b)];
    assert Do(s2, TestAfterWait(t)).pcs == s.pcs[t := Idle];
    RunThree(s, Lock(t), Evaluate(t), TestAfterWait(t));
  }

  /** AcquireConnection returns null only when the flag is set: in any state, whichever step ends the call. */
  lemma NullOnlyAfterShutdown(s: State, a: Action)
    requires Enabled(s, a) && s.pcs[a.t].WantsConnection()
    ensures Do(s, a).pcs[a.t].Idle? ==> s.shutdown
    ensures !Do(s, a).pcs[a.t].WantsConnection() && !Do(s, a).pcs[a.t].Idle? ==>
              s.queue != [] && Do(s, a).pcs[a.t] == Holding(s.queue[0])
  {
  }

  /** ReleaseConnection puts the connection at the back of the queue and wakes one sleeper, if there is one. */
  lemma ReleaseHandsBack(s: State, t: Tid, sleeper: Tid)
    requires t in s.pcs && s.pcs[t].WantRelease? && s.mutex.None? && !s.shutdown
    requires SomeAsleep(s.pcs) ==> sleeper in s.pcs && s.pcs[sleeper].Asleep?
    ensures var c, idle := s.pcs[t].conn, s.pcs[t := Idle];
            IsRun(s, [Lock(t), TestInRelease(t), Push(t), NotifyOne(t, sleeper)],
                  s.(pcs := if SomeAsleep(s.pcs) then idle[sleeper := Notified(true)] else idle,
                     queue := s.queue + [c], entered := s.entered + [c]))
  {
    var c := s.pcs[t].conn;
    assert Do(s, Lock(t)) == s.(pcs := s.pcs[t := Testing(c)], mutex := Some(t));
    var s2 := Do(Do(s, Lock(t)), TestInRelease(t));
    assert s2.pcs == s.pcs[t := Pushing(c)];
    var s3 := Do(s2, Push(t));
    assert s3.pcs == s.pcs[t := Notifying];
    SameSleepers(s.pcs, t, Notifying);
    assert s3.pcs[t := Idle] == s.pcs[t := Idle];
    RunFour(s, Lock(t), TestInRelease(t), Push(t), NotifyOne(t, sleeper));
  }

  lemma SameSleepers(pcs: map<Tid, Pc>, t: Tid, pc: Pc)
    requires t in pcs && !pcs[t].Asleep? && !pc.Asleep?
    ensures SomeAsleep(pcs[t := pc]) <==> SomeAsleep(pcs)
    ensures forall u | u in pcs && u != t :: pcs[t := pc][u] == pcs[u]
  {
    if u :| u in pcs && pcs[u].Asleep? { assert pcs[t := pc][u].Asleep?; }
    var after := pcs[t := pc];
    if u :| u in after && after[u].Asleep? { assert pcs[u].Asleep?; }
  }

  /** Once the flag is set a returned connection is dropped. */
  lemma ReleaseAfterShutdown(s: State, t: Tid)
    requires t in s.pcs && s.pcs[t].WantRelease? && s.mutex.None? && s.shutdown
    ensures IsRun(s, [Lock(t), TestInRelease(t)],
                  s.(pcs := s.pcs[t := Idle], dropped := s.dropped + {s.pcs[t].conn}))
  {
    var c := s.pcs[t].conn;
    var s1 := Do(s, Lock(t));
    assert s1 == s.(pcs := s.pcs[t := Testing(c)], mutex := Some(t));
    var s2 := Do(s1, TestInRelease(t));
    assert s2.pcs == s.pcs[t := Idle];
    RunNothing(s2);
    RunFirst(s1, TestInRelease(t), [], s2);
    RunFirst(s, Lock(t), [TestInRelease(t)], s2);
    assert [TestInRelease(t)] + [] == [TestInRelease(t)];
    assert [Lock(t)] + [TestInRelease(t)] == [Lock(t), TestInRelease(t)];
  }

  /** Shutdown drops what is in the queue and wakes every sleeper; a second call changes nothing. */
  lemma ShutdownEmptiesAndWakes(s: State, t: Tid)
    requires t in s.pcs && s.pcs[t].Idle? && s.mutex.None?
    ensures s.shutdown ==> IsRun(s, [CallShutdown(t)], s)
    ensures !s.shutdown ==>
              IsRun(s, [CallShutdown(t), Lock(t), Drain(t), NotifyAll(t)],
                    s.(pcs := map u | u in s.pcs :: if s.pcs[u].Asleep? then Notified(true) else s.pcs[u],
                       queue := [], dropped := s.dropped + (set c | c in s.queue),
                       shutdown := true, emptied := true, finished := true))
  {
    var s1 := Do(s, CallShutdown(t));
    if s.shutdown {
      RunNothing(s);
      RunFirst(s, CallShutdown(t), [], s);
      assert [CallShutdown(t)] + [] == [CallShutdown(t)];
    } else {
      assert s1 == s.(pcs := s.pcs[t := WantShutdown], shutdown := true);
      var s2 := Do(s1, Lock(t));
      assert s2.pcs == s.pcs[t := Draining];
      var s3 := Do(s2, Drain(t));
      assert s3.pcs == s.pcs[t := NotifyingAll];
      assert s3.pcs[t := Idle] == s.pcs[t := Idle] == s.pcs;
      RunFour(s, CallShutdown(t), Lock(t), Drain(t), NotifyAll(t));
    }
  }

  /** A sleeper is served: a release, and then the sleeper's own steps, put the released connection into its hands. */
  lemma SleeperIsServed(s: State, t: Tid, sleeper: Tid) returns (actions: seq<Action>)
    requires t in s.pcs && s.pcs[t].WantRelease? && s.mutex.None? && !s.shutdown && s.queue == []
    requires sleeper in s.pcs && s.pcs[sleeper].Asleep?
    ensures var c := s.pcs[t].conn;
            IsRun(s, actions,
                  s.(pcs := s.pcs[t := Idle][sleeper := Holding(c)], entered := s.entered + [c], left := s.left + [c]))
  {
    hide Do, Enabled;
    var c := s.pcs[t].conn;
    ReleaseHandsBack(s, t, sleeper);
    var s1 := s.(pcs := s.pcs[t := Idle][sleeper := Notified(true)],
                 queue := s.queue + [c], entered := s.entered + [c]);
    AcquireTakesFront(s1, sleeper);
    assert s1.queue[0] == c && s1.queue[1..] == s.queue;
    assert s1.pcs[sleeper := Holding(c)] == s.pcs[t := Idle][sleeper := Holding(c)];
    var release := [Lock(t), TestInRelease(t), Push(t), NotifyOne(t, sleeper)];
    var acquire := [Lock(sleeper), Evaluate(sleeper), TestAfterWait(sleeper), Pop(sleeper)];
    actions := release + acquire;
    RunThen(s, release, s1, acquire,
            s.(pcs := s.pcs[t := Idle][sleeper := Holding(c)], entered := s.entered + [c], left := s.left + [c]));
  }
}
