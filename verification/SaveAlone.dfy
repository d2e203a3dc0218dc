/**
 * The concurrent system of SaveProtocol does what the sequential MessageService.SaveMessage does: whenever
 * a thread can get a connection without waiting, its own steps can follow one another, and then they leave
 * in both stores, and return, exactly what the sequential call does with the same failures.
 */
module SaveAlone {
  import opened Wrappers
  import opened Decimal
  import opened MsgTables
  import opened SaveProtocol
  import Pool = MysqlPool
  import Calls = PoolCalls
  import MessageService
  import BodyDao = MsgBodyDao
  import IndexDao = MsgIndexDao
  import Retry

  lemma {:induction false} JoinRuns(a: Sys, steps: seq<Step>, b: Sys, c: Sys)
    requires IsRun(a, steps, b) && Runs(b, c)
    ensures Runs(a, c)
    decreases |steps|
  {
    hide Do, Enabled;
    if steps != [] {
      JoinRuns(Do(a, steps[0]), steps[1..], b, c);
      var rest :| IsRun(Do(a, steps[0]), rest, c);
      assert ([steps[0]] + rest)[1..] == rest;
      assert IsRun(a, [steps[0]] + rest, c);
    }
  }

  lemma Then(a: Sys, b: Sys, c: Sys)
    requires Runs(a, b) && Runs(b, c)
    ensures Runs(a, c)
  {
    var steps :| IsRun(a, steps, b);
    JoinRuns(a, steps, b, c);
  }

  lemma OneStep(s: Sys, step: Step)
    requires Enabled(s, step)
    ensures Runs(s, Do(s, step))
  {
    hide Do, Enabled;
    assert [step][1..] == [];
    assert IsRun(Do(s, step), [], Do(s, step));
    assert IsRun(s, [step], Do(s, step));
  }

  /** Steps inside the pool's code change nothing but the pool. */
  lemma {:induction false} InsidePool(s: Sys, actions: seq<Pool.Action>, pool: Pool.State)
    requires Valid(s) && Pool.IsRun(s.pool, actions, pool)
    requires forall a <- actions :: !a.CallAcquire? && !a.CallRelease? && !a.CallShutdown?
    ensures Runs(s, s.(pool := pool))
    decreases |actions|
  {
    hide Pool.Do, Pool.Enabled;
    if actions == [] {
      assert IsRun(s, [], s);
    } else {
      var a := actions[0];
      assert a in actions;
      OnePoolStep(s, a);
      var s1 := s.(pool := Pool.Do(s.pool, a));
      forall x <- actions[1..] ensures x in actions {}
      InsidePool(s1, actions[1..], pool);
      Then(s, s1, s.(pool := pool));
    }
  }

  lemma OnePoolStep(s: Sys, a: Pool.Action)
    requires Valid(s) && Pool.Enabled(s.pool, a) && !a.CallAcquire? && !a.CallRelease? && !a.CallShutdown?
    ensures Runs(s, s.(pool := Pool.Do(s.pool, a))) && Valid(s.(pool := Pool.Do(s.pool, a)))
  {
    Pool.OthersStay(s.pool, a);
    OneStep(s, PoolStep(a));
  }

  /** Thread `t` is outside the pool, nobody is inside, and there is a connection to take. */
  ghost predicate Alone(s: Sys, t: Tid) {
    && Valid(s) && t in s.stages
    && s.pool.pcs[t].Idle? && s.pool.mutex.None? && !s.pool.shutdown && s.pool.queue != []
    && !Pool.SomeAsleep(s.pool.pcs)
    && forall c | c in s.pool.queue :: c in s.lastId
  }

  /** The pool after a connection went out and came back: the queue has moved on by one. */
  function Rotated(pool: Pool.State): Pool.State
    requires pool.queue != []
  {
    var c := pool.queue[0];
    pool.(queue := pool.queue[1..] + [c], entered := pool.entered + [c], left := pool.left + [c])
  }

  function Holding(pool: Pool.State, t: Tid): Pool.State
    requires pool.queue != []
  {
    var c := pool.queue[0];
    pool.(pcs := pool.pcs[t := Pool.Holding(c)], queue := pool.queue[1..], left := pool.left + [c])
  }

  lemma TakesConnection(s: Sys, t: Tid)
    requires Alone(s, t) && s.stages[t].Index?
    ensures var s' := To(s, t, Waiting(s.stages[t].msg, s.stages[t].tries)).(pool := Holding(s.pool, t));
            Runs(s, s') && Valid(s') && HoldsConn(s', t)
  {
    hide Pool.IsRun;
    var s1 := Do(s, PoolStep(Pool.CallAcquire(t)));
    OneStep(s, PoolStep(Pool.CallAcquire(t)));
    Calls.AcquireTakesFront(s1.pool, t);
    assert s1.pool.pcs[t := Pool.Holding(s.pool.queue[0])] == s.pool.pcs[t := Pool.Holding(s.pool.queue[0])];
    InsidePool(s1, [Pool.Lock(t), Pool.Evaluate(t), Pool.TestAfterWait(t), Pool.Pop(t)], Holding(s.pool, t));
    Then(s, s1, s1.(pool := Holding(s.pool, t)));
    assert s.pool.queue[0] in s.pool.queue;
  }

  lemma GivesBack(s: Sys, t: Tid, pool: Pool.State)
    requires Valid(s) && t in s.stages && s.stages[t].Leaving? && pool.queue != [] && s.pool == Holding(pool, t)
    requires t in pool.pcs && pool.pcs[t].Idle? && pool.mutex.None? && !pool.shutdown && !Pool.SomeAsleep(pool.pcs)
    ensures Runs(s, s.(pool := Rotated(pool)))
  {
    hide Pool.IsRun;
    var s1 := Do(s, PoolStep(Pool.CallRelease(t)));
    var c := pool.queue[0];
    OneStep(s, PoolStep(Pool.CallRelease(t)));
    assert s1.pool.pcs == pool.pcs[t := Pool.WantRelease(c)];
    Calls.SameSleepers(pool.pcs, t, Pool.WantRelease(c));
    Calls.ReleaseHandsBack(s1.pool, t, t);
    assert s1.pool.pcs[t := Pool.Idle] == pool.pcs;
    InsidePool(s1, [Pool.Lock(t), Pool.TestInRelease(t), Pool.Push(t), Pool.NotifyOne(t, t)], Rotated(pool));
    Then(s, s1, s1.(pool := Rotated(pool)));
  }

  /** The statements of one attempt, with a connection in hand. */
  lemma Statements(s: Sys, t: Tid, ev: IndexDao.InsertEvent) returns (s': Sys)
    requires Valid(s) && t in s.stages && s.stages[t].Waiting? && HoldsConn(s, t) && !ev.NoConnection?
    ensures var (rows, r) := IndexDao.InsertAttempt(Rows(s.table), MessageService.IndexOf(s.stages[t].msg), ev);
            && Runs(s, s') && Valid(s')
            && Rows(s'.table) == rows && s'.lastId.Keys == s.lastId.Keys
            && s' == s.(stages := s.stages[t := Leaving(s.stages[t].msg, s.stages[t].tries, r)],
                        table := s'.table, lastId := s'.lastId)
  {
    var msg, tries := s.stages[t].msg, s.stages[t].tries;
    if ev.FailsBefore? || NextId(s.table, ev.skip) >= UINT64_LIMIT {
      OneStep(s, InsertThrows(t, false, 0, 0));
      s' := Do(s, InsertThrows(t, false, 0, 0));
    } else {
      var row := Row(NextId(s.table, ev.skip), MessageService.IndexOf(msg), ev.nowMs);
      RowsSnoc(s.table, Entry(row, t, s.calls[t]));
      if ev.FailsAfter? {
        OneStep(s, InsertThrows(t, true, ev.skip, ev.nowMs));
        s' := Do(s, InsertThrows(t, true, ev.skip, ev.nowMs));
      } else {
        var s1 := Do(s, InsertDone(t, ev.skip, ev.nowMs));
        OneStep(s, InsertDone(t, ev.skip, ev.nowMs));
        assert s1.stages[t] == HasRow(msg, tries, row) && s1.lastId[s.pool.pcs[t].conn] == row.id;
        var found: Outcome<bool> := Ok(ev.Inserted?);
        OneStep(s1, SelectId(t, found));
        s' := Do(s1, SelectId(t, found));
        Then(s, s1, s');
        assert s'.stages == s.stages[t := Leaving(msg, tries, s'.stages[t].result)];
      }
    }
  }

  /** One attempt of the index insert, from asking for a connection to the decision about a retry. */
  lemma IndexAttempt(s: Sys, t: Tid, ev: IndexDao.InsertEvent) returns (s': Sys)
    requires Alone(s, t) && s.stages[t].Index? && !ev.NoConnection?
    ensures var (rows, r) := IndexDao.InsertAttempt(Rows(s.table), MessageService.IndexOf(s.stages[t].msg), ev);
            && Runs(s, s') && Alone(s', t)
            && Rows(s'.table) == rows && s'.docs == s.docs
            && s'.stages[t] == Retried(s.stages[t].msg, s.stages[t].tries, r)
  {
    hide Pool.IsRun, IsRun, IndexDao.InsertAttempt, Runs;
    var msg, tries := s.stages[t].msg, s.stages[t].tries;
    TakesConnection(s, t);
    var s1 := To(s, t, Waiting(msg, tries)).(pool := Holding(s.pool, t));
    var s2 := Statements(s1, t, ev);
    Then(s, s1, s2);
    GivesBack(s2, t, s.pool);
    var s3 := s2.(pool := Rotated(s.pool));
    Then(s, s2, s3);
    OneStep(s3, Left(t));
    s' := Do(s3, Left(t));
    Then(s, s3, s');
    forall c | c in s'.pool.queue ensures c in s'.lastId {
      assert c in s.pool.queue;
    }
  }

  lemma {:induction false} IndexInsert(s: Sys, t: Tid, events: nat -> IndexDao.InsertEvent) returns (s': Sys)
    requires Alone(s, t) && s.stages[t].Index? && s.stages[t].tries <= 3 && forall k: nat :: !events(k).NoConnection?
    ensures var body := IndexDao.InsertBody(MessageService.IndexOf(s.stages[t].msg), events);
            var (rows, r, _) := Retry.Run(3, body, Rows(s.table), s.stages[t].tries);
            && Runs(s, s') && Alone(s', t)
            && Rows(s'.table) == rows && s'.docs == s.docs
            && s'.stages[t] == Finished(s.stages[t].msg, if r.Ok? then r.value else "")
    decreases 4 - s.stages[t].tries
  {
    hide Alone, Runs, IndexDao.InsertAttempt;
    InStages(s, t);
    var tries := s.stages[t].tries;
    var s1 := IndexAttempt(s, t, events(tries));
    InStages(s1, t);
    if s1.stages[t].Index? {
      s' := IndexInsert(s1, t, events);
      Then(s, s1, s');
    } else {
      s' := s1;
    }
  }

  lemma InStages(s: Sys, t: Tid)
    requires Alone(s, t)
    ensures t in s.stages
  {
  }

  lemma BodyAttempt(s: Sys, t: Tid, ev: BodyDao.InsertEvent) returns (s': Sys)
    requires Alone(s, t) && s.stages[t].Body?
    ensures var (docs, r) := BodyDao.InsertAttempt(s.docs, MessageService.BodyOf(s.stages[t].msg), ev);
            && Runs(s, s') && Alone(s', t)
            && s'.docs == docs && s'.table == s.table
            && var Body(msg, tries) := s.stages[t];
               s'.stages[t] == if r == Ok(true) then Index(msg, 0)
                               else if r.Throw? && tries < 3 then Body(msg, tries + 1)
                               else Finished(msg, "")
  {
    var result := if ev.Fails? then Throw else Ok(ev.Stored?);
    var step := BodyTry(t, ev.Stored? || ev.stored, result);
    OneStep(s, step);
    s' := Do(s, step);
  }

  lemma {:induction false} BodyInsert(s: Sys, t: Tid, events: nat -> BodyDao.InsertEvent) returns (s': Sys)
    requires Alone(s, t) && s.stages[t].Body? && s.stages[t].tries <= 3
    ensures var body := BodyDao.InsertBody(MessageService.BodyOf(s.stages[t].msg), events);
            var (docs, r, _) := Retry.Run(3, body, s.docs, s.stages[t].tries);
            && Runs(s, s') && Alone(s', t)
            && s'.docs == docs && s'.table == s.table
            && s'.stages[t] == if r == Ok(true) then Index(s.stages[t].msg, 0) else Finished(s.stages[t].msg, "")
    decreases 4 - s.stages[t].tries
  {
    hide Alone, Runs, BodyDao.InsertAttempt;
    InStages(s, t);
    var s1 := BodyAttempt(s, t, events(s.stages[t].tries));
    InStages(s1, t);
    if s1.stages[t].Body? {
      s' := BodyInsert(s1, t, events);
      Then(s, s1, s');
    } else {
      s' := s1;
    }
  }

  lemma Starts(s: Sys, t: Tid, msg: ChatMsg)
    requires Alone(s, t) && s.stages[t].Ready?
    ensures var s' := To(s, t, Body(msg, 0)).(calls := s.calls[t := s.calls[t] + 1]);
            Runs(s, s') && Alone(s', t)
  {
    OneStep(s, Start(t, msg));
  }

  /** A whole call: what the thread does alone is the sequential SaveMessage, in both stores and in its result. */
  lemma SaveRunsAlone(s: Sys, t: Tid, msg: ChatMsg, bodyEvents: nat -> BodyDao.InsertEvent,
                      indexEvents: nat -> IndexDao.InsertEvent) returns (s': Sys)
    requires Alone(s, t) && s.stages[t].Ready? && forall k: nat :: !indexEvents(k).NoConnection?
    ensures var (store, seqId) := MessageService.SaveResult(
              MessageService.Store(s.docs, Rows(s.table)), msg, bodyEvents, indexEvents);
            && Runs(s, s') && Alone(s', t)
            && MessageService.Store(s'.docs, Rows(s'.table)) == store
            && s'.stages[t] == Finished(msg, seqId)
  {
    hide Runs, Do, Enabled, Retry.Run;
    Starts(s, t, msg);
    var s1 := To(s, t, Body(msg, 0)).(calls := s.calls[t := s.calls[t] + 1]);
    var s2 := BodyInsert(s1, t, bodyEvents);
    Then(s, s1, s2);
    InStages(s2, t);
    if s2.stages[t].Index? {
      s' := IndexInsert(s2, t, indexEvents);
      Then(s, s2, s');
    } else {
      s' := s2;
    }
  }

  // ----- after a shutdown

  /** Thread `t` is outside the pool, nobody is inside, and the pool is shut down. */
  ghost predicate ShutOut(s: Sys, t: Tid) {
    && Valid(s) && t in s.stages
    && s.pool.pcs[t].Idle? && s.pool.mutex.None? && s.pool.shutdown
  }

  lemma ShutOutAttempt(s: Sys, t: Tid) returns (s': Sys)
    requires ShutOut(s, t) && s.stages[t].Index?
    ensures Runs(s, s') && ShutOut(s', t) && s'.table == s.table && s'.docs == s.docs
    ensures s'.stages[t] == Retried(s.stages[t].msg, s.stages[t].tries, Throw)
  {
    hide Pool.IsRun;
    var s1 := Do(s, PoolStep(Pool.CallAcquire(t)));
    OneStep(s, PoolStep(Pool.CallAcquire(t)));
    Calls.AcquireAfterShutdown(s1.pool, t);
    assert s1.pool.pcs[t := Pool.Idle] == s.pool.pcs;
    InsidePool(s1, [Pool.Lock(t), Pool.Evaluate(t), Pool.TestAfterWait(t)], s.pool);
    var s2 := s1.(pool := s.pool);
    Then(s, s1, s2);
    OneStep(s2, NoConnection(t));
    s' := Do(s2, NoConnection(t));
    Then(s, s2, s');
  }

  lemma {:induction false} ShutOutInsert(s: Sys, t: Tid) returns (s': Sys)
    requires ShutOut(s, t) && s.stages[t].Index? && s.stages[t].tries <= 3
    ensures Runs(s, s') && ShutOut(s', t) && s'.table == s.table && s'.docs == s.docs
    ensures s'.stages[t] == Finished(s.stages[t].msg, "")
    decreases 4 - s.stages[t].tries
  {
    hide Runs;
    var s1 := ShutOutAttempt(s, t);
    if s1.stages[t].Index? {
      s' := ShutOutInsert(s1, t);
      Then(s, s1, s');
    } else {
      s' := s1;
    }
  }

  function NoConnections(): nat -> IndexDao.InsertEvent { (k: nat) => IndexDao.NoConnection }

  lemma {:induction false} NoConnectionsInsert(rows: seq<Row>, index: MsgIndex, tries: nat)
    requires tries <= 3
    ensures Retry.Run(3, IndexDao.InsertBody(index, NoConnections()), rows, tries).0 == rows
    ensures Retry.Run(3, IndexDao.InsertBody(index, NoConnections()), rows, tries).1.Throw?
    decreases 4 - tries
  {
    assert NoConnections()(tries) == IndexDao.NoConnection;
    assert IndexDao.InsertBody(index, NoConnections())(rows, tries) == (rows, Throw);
    if tries < 3 { NoConnectionsInsert(rows, index, tries + 1); }
  }

  /**
   * The index insert after a shutdown: the thread tries four times, is refused each time, and SaveMessage
   * returns nothing and leaves the table alone, as the sequential insert without connections does.
   */
  lemma InsertAfterShutdown(s: Sys, t: Tid) returns (s': Sys)
    requires ShutOut(s, t) && s.stages[t].Index? && s.stages[t].tries == 0
    ensures var index := MessageService.IndexOf(s.stages[t].msg);
            && Runs(s, s') && ShutOut(s', t) && s'.docs == s.docs && s'.stages[t] == Finished(s.stages[t].msg, "")
            && (Rows(s'.table), "") == IndexDao.InsertResult(Rows(s.table), index, NoConnections())
  {
    hide Runs, Retry.Run;
    s' := ShutOutInsert(s, t);
    NoConnectionsInsert(Rows(s.table), MessageService.IndexOf(s.stages[t].msg), 0);
  }
}
