/**
 * common/src/db/mysql_pool.cpp: the connection pool as interleaved steps of its threads.
 *
 * A step is what happens between two points where another thread can interfere.  Testing the wait
 * predicate and falling asleep are two steps, both with the mutex held; `shutdown_` is set outside
 * the mutex, so it may change between any two steps.  A sleeping thread may wake up spuriously.
 */
module MysqlPool {
  import opened Wrappers

  type Tid = nat
  type Conn = nat

  /** Where a thread stands.  The states marked (L) hold the mutex. */
  datatype Pc =
    | Idle                      // outside the pool, without a connection
    | WantAcquire               // in AcquireConnection, before the mutex
    | Evaluating(woken: bool)   // (L) about to evaluate the wait predicate
    | Blocking                  // (L) the predicate was false: about to sleep
    | Asleep                    // in cv_.wait, mutex released
    | Notified(woken: bool)     // awake again, before the mutex; `woken` if by a notification
    | Passed(woken: bool)       // (L) the predicate was true: about to test shutdown_
    | Taking(woken: bool)       // (L) shutdown_ was false: about to pop the queue
    | Holding(conn: Conn)       // outside the pool, with a connection
    | WantRelease(conn: Conn)   // in ReleaseConnection, before the mutex
    | Testing(conn: Conn)       // (L) about to test shutdown_
    | Pushing(conn: Conn)       // (L) shutdown_ was false: about to push the connection
    | Notifying                 // (L) pushed: about to notify one thread
    | WantShutdown              // in Shutdown, the flag set, before the mutex
    | Draining                  // (L) about to empty the queue
    | NotifyingAll              // (L) emptied: about to notify all threads
  {
    predicate HoldsMutex() {
      Evaluating? || Blocking? || Passed? || Taking? || Testing? || Pushing? || Notifying? || Draining? || NotifyingAll?
    }

    predicate Owns(c: Conn) {
      (Holding? || WantRelease? || Testing? || Pushing?) && conn == c
    }

    /** In AcquireConnection, on the way to a connection. */
    predicate WantsConnection() {
      WantAcquire? || Evaluating? || Blocking? || Asleep? || Notified? || Passed? || Taking?
    }

    /** Woken by a notification, and not yet done with a new look at the queue. */
    predicate IsPending() {
      (Notified? || Evaluating? || Passed? || Taking?) && woken
    }
  }

  /**
   * `queue` is pool_.  The last five fields only record: what entered and left the queue, in order,
   * which connections the shutdown dropped, and how far it got.
   */
  datatype State = State(
    queue: seq<Conn>, shutdown: bool, mutex: Option<Tid>, pcs: map<Tid, Pc>,
    entered: seq<Conn>, left: seq<Conn>, dropped: set<Conn>, emptied: bool, finished: bool)

  datatype Action =
    | CallAcquire(t: Tid)
    | CallRelease(t: Tid)
    | CallShutdown(t: Tid)
    | Lock(t: Tid)
    | Evaluate(t: Tid)
    | Sleep(t: Tid)
    | WakeSpuriously(t: Tid)
    | TestAfterWait(t: Tid)
    | Pop(t: Tid)
    | TestInRelease(t: Tid)
    | Push(t: Tid)
    | NotifyOne(t: Tid, sleeper: Tid)
    | Drain(t: Tid)
    | NotifyAll(t: Tid)

  predicate SomeAsleep(pcs: map<Tid, Pc>) {
    exists t :: t in pcs && pcs[t].Asleep?
  }

  predicate Enabled(s: State, a: Action) {
    && a.t in s.pcs
    && var pc := s.pcs[a.t];
       match a
       case CallAcquire(_) => pc.Idle?
       case CallRelease(_) => pc.Holding?
       case CallShutdown(_) => pc.Idle?
       case Lock(_) => s.mutex.None? && (pc.WantAcquire? || pc.Notified? || pc.WantRelease? || pc.WantShutdown?)
       case Evaluate(_) => pc.Evaluating?
       case Sleep(_) => pc.Blocking?
       case WakeSpuriously(_) => pc.Asleep?
       case TestAfterWait(_) => pc.Passed?
       case Pop(_) => pc.Taking? && s.queue != []
       case TestInRelease(_) => pc.Testing?
       case Push(_) => pc.Pushing?
       case NotifyOne(_, sleeper) =>
         pc.Notifying? && (SomeAsleep(s.pcs) ==> sleeper in s.pcs && s.pcs[sleeper].Asleep?)
       case Drain(_) => pc.Draining?
       case NotifyAll(_) => pc.NotifyingAll?
  }

  function Go(s: State, t: Tid, pc: Pc): State
    requires t in s.pcs
  {
    s.(pcs := s.pcs[t := pc])
  }

  function Unlock(s: State): State { s.(mutex := None) }

  function WakeAll(pcs: map<Tid, Pc>): map<Tid, Pc> {
    map t | t in pcs :: if pcs[t].Asleep? then Notified(true) else pcs[t]
  }

  /** The effect of one step. */
  function Do(s: State, a: Action): State
    requires Enabled(s, a)
  {
    var pc := s.pcs[a.t];
    match a
    case CallAcquire(t) => Go(s, t, WantAcquire)
    case CallRelease(t) => Go(s, t, WantRelease(pc.conn))
    case CallShutdown(t) => if s.shutdown then s else Go(s, t, WantShutdown).(shutdown := true)
    case Lock(t) =>
      var next := if pc.WantAcquire? then Evaluating(false)
                  else if pc.Notified? then Evaluating(pc.woken)
                  else if pc.WantRelease? then Testing(pc.conn)
                  else Draining;
      Go(s, t, next).(mutex := Some(t))
    case Evaluate(t) => Go(s, t, if s.queue != [] || s.shutdown then Passed(pc.woken) else Blocking)
    case Sleep(t) => Unlock(Go(s, t, Asleep))
    case WakeSpuriously(t) => Go(s, t, Notified(false))
    case TestAfterWait(t) => if s.shutdown then Unlock(Go(s, t, Idle)) else Go(s, t, Taking(pc.woken))
    case Pop(t) =>
      var c := s.queue[0];
      Unlock(Go(s, t, Holding(c))).(queue := s.queue[1..], left := s.left + [c])
    case TestInRelease(t) =>
      if s.shutdown then Unlock(Go(s, t, Idle)).(dropped := s.dropped + {pc.conn}) else Go(s, t, Pushing(pc.conn))
    case Push(t) => Go(s, t, Notifying).(queue := s.queue + [pc.conn], entered := s.entered + [pc.conn])
    case NotifyOne(t, sleeper) =>
      var s' := Unlock(Go(s, t, Idle));
      if SomeAsleep(s.pcs) then Go(s', sleeper, Notified(true)) else s'
    case Drain(t) =>
      Go(s, t, NotifyingAll).(queue := [], dropped := s.dropped + (set c | c in s.queue), emptied := true)
    case NotifyAll(t) => Unlock(s).(pcs := WakeAll(s.pcs[t := Idle]), finished := true)
  }

  // ----- runs

  /** After Initialize: every connection in the queue, every thread outside. */
  predicate Init(s: State, conns: seq<Conn>) {
    && (forall i, j | 0 <= i < j < |conns| :: conns[i] != conns[j])
    && s.queue == s.entered == conns && s.left == []
    && !s.shutdown && s.mutex.None? && s.dropped == {} && !s.emptied && !s.finished
    && forall t | t in s.pcs :: s.pcs[t].Idle?
  }

  ghost predicate IsRun(s: State, actions: seq<Action>, s': State)
    decreases |actions|
  {
    if actions == [] then s' == s
    else Enabled(s, actions[0]) && IsRun(Do(s, actions[0]), actions[1..], s')
  }

  // ----- the invariants

  ghost predicate MutexInv(s: State) {
    && (s.mutex.Some? ==> s.mutex.value in s.pcs)
    && forall t | t in s.pcs :: s.pcs[t].HoldsMutex() <==> s.mutex == Some(t)
  }

  /** What a thread knows about the queue and the shutdown from where it stands. */
  predicate Knows(pc: Pc, s: State) {
    && (pc.Blocking? ==> s.queue == [])
    && (pc.Taking? ==> s.queue != [])
    && (pc.Passed? && !s.shutdown ==> s.queue != [])
    && (pc.Pushing? ==> !s.emptied)
    && (pc.Draining? || pc.NotifyingAll? || pc.WantShutdown? ==> s.shutdown)
    && (pc.NotifyingAll? ==> s.emptied)
  }

  ghost predicate QueueInv(s: State) {
    forall t | t in s.pcs :: Knows(s.pcs[t], s)
  }

  ghost predicate ShutdownInv(s: State) {
    && (!s.shutdown ==> s.dropped == {})
    && (s.emptied ==> s.shutdown && s.queue == [])
    && (s.finished ==> s.emptied)
    && (s.finished ==> forall t | t in s.pcs :: !s.pcs[t].Asleep? && !s.pcs[t].Blocking?)
    && (!s.emptied ==> s.entered == s.left + s.queue)
  }

  /** Each connection is in exactly one place: the queue, one thread, or dropped. */
  ghost predicate ConnInv(s: State, conns: seq<Conn>) {
    && (forall i, j | 0 <= i < j < |s.queue| :: s.queue[i] != s.queue[j])
    && (forall c | c in s.queue :: c !in s.dropped)
    && (forall t, c | t in s.pcs && s.pcs[t].Owns(c) :: c !in s.queue && c !in s.dropped && c in conns)
    && (forall t, u, c | t in s.pcs && u in s.pcs && s.pcs[t].Owns(c) && s.pcs[u].Owns(c) :: t == u)
    && (forall c | c in s.queue || c in s.dropped :: c in conns)
    && (forall c | c in conns :: c in s.queue || c in s.dropped || Owned(s, c))
  }

  ghost predicate Owned(s: State, c: Conn) {
    exists t :: t in s.pcs && s.pcs[t].Owns(c)
  }

  ghost function Pending(pcs: map<Tid, Pc>): set<Tid> {
    set t | t in pcs && pcs[t].IsPending()
  }

  /** 1 between a push and its notification. */
  function OwedNotice(s: State): nat {
    if s.mutex.Some? && s.mutex.value in s.pcs && s.pcs[s.mutex.value].Notifying? then 1 else 0
  }

  /** No lost wakeup: idle connections never outnumber the threads that were notified of them. */
  ghost predicate WakeInv(s: State) {
    !s.shutdown && SomeAsleep(s.pcs) ==> |s.queue| <= |Pending(s.pcs)| + OwedNotice(s)
  }

  ghost predicate Inv(s: State, conns: seq<Conn>) {
    MutexInv(s) && QueueInv(s) && ShutdownInv(s) && ConnInv(s, conns) && WakeInv(s)
  }

  lemma MutexStep(s: State, a: Action)
    requires MutexInv(s) && Enabled(s, a)
    ensures MutexInv(Do(s, a))
  {
  }

  /** A step moves its own thread, and may wake others. */
  lemma OthersStay(s: State, a: Action)
    requires Enabled(s, a)
    ensures Do(s, a).pcs.Keys == s.pcs.Keys
    ensures forall t | t in s.pcs && t != a.t ::
              Do(s, a).pcs[t] == s.pcs[t] || (s.pcs[t].Asleep? && Do(s, a).pcs[t].Notified?)
  {
  }

  lemma OtherKnows(s: State, a: Action, t: Tid)
    requires MutexInv(s) && QueueInv(s) && Enabled(s, a) && t in s.pcs && t != a.t
    ensures Knows(s.pcs[t], Do(s, a))
  {
    assert Knows(s.pcs[t], s) && Knows(s.pcs[a.t], s);
  }

  lemma QueueStep(s: State, a: Action)
    requires MutexInv(s) && QueueInv(s) && ShutdownInv(s) && Enabled(s, a)
    ensures QueueInv(Do(s, a))
  {
    var s' := Do(s, a);
    OthersStay(s, a);
    OwnKnows(s, a);
    forall t | t in s'.pcs ensures Knows(s'.pcs[t], s') {
      if t != a.t {
        OtherKnows(s, a, t);
      }
    }
  }

  lemma OwnKnows(s: State, a: Action)
    requires MutexInv(s) && QueueInv(s) && ShutdownInv(s) && Enabled(s, a)
    ensures Knows(Do(s, a).pcs[a.t], Do(s, a))
  {
    assert Knows(s.pcs[a.t], s);
  }

  lemma ShutdownStep(s: State, a: Action)
    requires MutexInv(s) && QueueInv(s) && ShutdownInv(s) && Enabled(s, a)
    ensures ShutdownInv(Do(s, a))
  {
    var s' := Do(s, a);
    if a.Pop? && !s.emptied {
      assert s.left + s.queue == (s.left + [s.queue[0]]) + s.queue[1..];
    }
    if a.Push? && !s.emptied {
      assert (s.left + s.queue) + [s.pcs[a.t].conn] == s.left + (s.queue + [s.pcs[a.t].conn]);
    }
  }

  // ----- connections

  /** Steps other than these four leave every connection where it is. */
  predicate MovesConn(s: State, a: Action)
    requires Enabled(s, a)
  {
    a.Pop? || a.Push? || a.Drain? || (a.TestInRelease? && s.shutdown)
  }

  lemma ConnFrame(s: State, a: Action)
    requires Enabled(s, a) && !MovesConn(s, a)
    ensures Do(s, a).queue == s.queue && Do(s, a).dropped == s.dropped
    ensures forall t, c | t in s.pcs :: Do(s, a).pcs[t].Owns(c) <==> s.pcs[t].Owns(c)
    ensures forall c :: Owned(Do(s, a), c) <==> Owned(s, c)
  {
    OthersStay(s, a);
    var s' := Do(s, a);
    forall c ensures Owned(s', c) <==> Owned(s, c) {
      assert forall t | t in s.pcs :: s'.pcs[t].Owns(c) <==> s.pcs[t].Owns(c);
    }
  }

  lemma ConnPop(s: State, t: Tid, conns: seq<Conn>)
    requires ConnInv(s, conns) && Enabled(s, Pop(t))
    ensures ConnInv(Do(s, Pop(t)), conns)
  {
    var s' := Do(s, Pop(t));
    var c0 := s.queue[0];
    assert s.queue == [c0] + s'.queue && c0 in s.queue && c0 !in s'.queue;
    forall u, c | u in s.pcs && s'.pcs[u].Owns(c) ensures if u == t then c == c0 else s.pcs[u].Owns(c) && c != c0 {
    }
    forall c | c in conns ensures c in s'.queue || c in s'.dropped || Owned(s', c) {
      if Owned(s, c) {
        var u :| u in s.pcs && s.pcs[u].Owns(c);
        assert s'.pcs[u].Owns(c);
      }
      assert s'.pcs[t].Owns(c0);
    }
  }

  lemma ConnPush(s: State, t: Tid, conns: seq<Conn>)
    requires ConnInv(s, conns) && Enabled(s, Push(t))
    ensures ConnInv(Do(s, Push(t)), conns)
  {
    var s' := Do(s, Push(t));
    var c0 := s.pcs[t].conn;
    assert s.pcs[t].Owns(c0) && c0 !in s.queue;
    assert s'.queue == s.queue + [c0] && forall i | 0 <= i < |s.queue| :: s.queue[i] != c0;
    forall c | c in conns ensures c in s'.queue || c in s'.dropped || Owned(s', c) {
      if Owned(s, c) && c != c0 {
        var u :| u in s.pcs && s.pcs[u].Owns(c);
        assert s'.pcs[u].Owns(c);
      }
    }
  }

  lemma ConnDrop(s: State, t: Tid, conns: seq<Conn>)
    requires ConnInv(s, conns) && Enabled(s, TestInRelease(t)) && s.shutdown
    ensures ConnInv(Do(s, TestInRelease(t)), conns)
  {
    var s' := Do(s, TestInRelease(t));
    var c0 := s.pcs[t].conn;
    assert s.pcs[t].Owns(c0);
    forall c | c in conns ensures c in s'.queue || c in s'.dropped || Owned(s', c) {
      if Owned(s, c) && c != c0 {
        var u :| u in s.pcs && s.pcs[u].Owns(c);
        assert s'.pcs[u].Owns(c);
      }
    }
  }

  lemma ConnDrain(s: State, t: Tid, conns: seq<Conn>)
    requires ConnInv(s, conns) && Enabled(s, Drain(t))
    ensures ConnInv(Do(s, Drain(t)), conns)
  {
    var s' := Do(s, Drain(t));
    forall c | c in conns ensures c in s'.queue || c in s'.dropped || Owned(s', c) {
      if Owned(s, c) {
        var u :| u in s.pcs && s.pcs[u].Owns(c);
        assert s'.pcs[u].Owns(c);
      }
    }
  }

  lemma ConnStep(s: State, a: Action, conns: seq<Conn>)
    requires ConnInv(s, conns) && Enabled(s, a)
    ensures ConnInv(Do(s, a), conns)
  {
    hide Do;
    if !MovesConn(s, a) {
      ConnFrame(s, a);
      OthersStay(s, a);
    } else {
      match a
      case Pop(t) => ConnPop(s, t, conns);
      case Push(t) => ConnPush(s, t, conns);
      case Drain(t) => ConnDrain(s, t, conns);
      case TestInRelease(t) => ConnDrop(s, t, conns);
    }
  }

  // ----- wakeups

  lemma PendingMove(pcs: map<Tid, Pc>, t: Tid, pc: Pc)
    requires t in pcs
    ensures pcs[t].IsPending() == pc.IsPending() ==> |Pending(pcs[t := pc])| == |Pending(pcs)|
    ensures !pcs[t].IsPending() && pc.IsPending() ==> |Pending(pcs[t := pc])| == |Pending(pcs)| + 1
    ensures pcs[t].IsPending() && !pc.IsPending() ==> |Pending(pcs[t := pc])| == |Pending(pcs)| - 1
  {
    var old', new' := Pending(pcs), Pending(pcs[t := pc]);
    assert new' == if pc.IsPending() then old' + {t} else old' - {t};
    assert t in old' <==> pcs[t].IsPending();
    if t in old' {
      assert old' + {t} == old';
      assert old' == (old' - {t}) + {t};
    } else {
      assert old' - {t} == old';
    }
  }

  lemma WakeStep(s: State, a: Action)
    requires MutexInv(s) && QueueInv(s) && ShutdownInv(s) && WakeInv(s) && Enabled(s, a)
    ensures WakeInv(Do(s, a))
  {
    var s' := Do(s, a);
    if !s'.shutdown && SomeAsleep(s'.pcs) && !a.NotifyAll? {
      assert Knows(s.pcs[a.t], s);
      PendingMove(s.pcs, a.t, s'.pcs[a.t]);
      if a.NotifyOne? && SomeAsleep(s.pcs) {
        PendingMove(s.pcs[a.t := Idle], a.sleeper, Notified(true));
      }
      if !a.Sleep? {
        var t :| t in s'.pcs && s'.pcs[t].Asleep?;
        OthersStay(s, a);
        assert s.pcs[t].Asleep?;
      }
    }
  }

  // ----- every run

  lemma StepKeeps(s: State, a: Action, conns: seq<Conn>)
    requires Inv(s, conns) && Enabled(s, a)
    ensures Inv(Do(s, a), conns)
  {
    hide MutexInv, QueueInv, ShutdownInv, ConnInv, WakeInv, Do, Enabled;
    MutexStep(s, a);
    QueueStep(s, a);
    ShutdownStep(s, a);
    ConnStep(s, a, conns);
    WakeStep(s, a);
  }

  lemma InitHolds(s: State, conns: seq<Conn>)
    requires Init(s, conns)
    ensures Inv(s, conns)
  {
    assert s.left + s.queue == s.queue;
  }

  lemma {:induction false} RunKeeps(s: State, actions: seq<Action>, s': State, conns: seq<Conn>)
    requires Inv(s, conns) && IsRun(s, actions, s')
    ensures Inv(s', conns)
    decreases |actions|
  {
    if actions != [] {
      StepKeeps(s, actions[0], conns);
      RunKeeps(Do(s, actions[0]), actions[1..], s', conns);
    }
  }

  ghost predicate Reachable(s: State, conns: seq<Conn>) {
    exists s0, actions :: Init(s0, conns) && IsRun(s0, actions, s)
  }

  lemma ReachableInv(s: State, conns: seq<Conn>)
    requires Reachable(s, conns)
    ensures Inv(s, conns)
  {
    var s0, actions :| Init(s0, conns) && IsRun(s0, actions, s);
    InitHolds(s0, conns);
    RunKeeps(s0, actions, s, conns);
  }

  /**
   * No lost wakeup: while the pool is not shut down and some thread sleeps, there are no more idle
   * connections than threads that a notification woke and that are not yet done looking, but for one
   * push not yet announced.  Threads that woke spuriously do not count.
   */
  lemma NoLostWakeup(s: State, conns: seq<Conn>)
    requires Reachable(s, conns) && !s.shutdown && SomeAsleep(s.pcs)
    ensures |s.queue| <= |Pending(s.pcs)| + OwedNotice(s)
    ensures s.mutex.None? ==> |s.queue| <= |set t | t in s.pcs && s.pcs[t] == Notified(true)|
  {
    ReachableInv(s, conns);
    if s.mutex.None? {
      assert Pending(s.pcs) == set t | t in s.pcs && s.pcs[t] == Notified(true);
    }
  }

  lemma {:induction false} ShutdownIsFinal(s: State, actions: seq<Action>, s': State)
    requires IsRun(s, actions, s')
    ensures (s.shutdown ==> s'.shutdown) && (s.emptied ==> s'.emptied) && (s.finished ==> s'.finished)
    decreases |actions|
  {
    if actions != [] {
      ShutdownIsFinal(Do(s, actions[0]), actions[1..], s');
    }
  }

  /**
   * Once Shutdown has finished its locked part, in every continuation of every interleaving no thread
   * is asleep or about to sleep, the queue is empty, and no thread is about to take a connection.
   */
  lemma NoSleepAfterShutdown(s: State, actions: seq<Action>, s': State, conns: seq<Conn>)
    requires Reachable(s, conns) && s.finished && IsRun(s, actions, s')
    ensures s'.shutdown && s'.queue == []
    ensures forall t | t in s'.pcs :: !s'.pcs[t].Asleep? && !s'.pcs[t].Blocking? && !s'.pcs[t].Taking?
  {
    ReachableInv(s, conns);
    RunKeeps(s, actions, s', conns);
    ShutdownIsFinal(s, actions, s');
    assert forall t | t in s'.pcs :: Knows(s'.pcs[t], s');
  }

  /**
   * Conservation: every connection is in exactly one of the queue, one thread and the dropped ones;
   * nothing is dropped before the shutdown; until it empties the queue, connections leave the queue in
   * the order in which they entered it; and the queue is never popped when it is empty.
   */
  lemma Conservation(s: State, conns: seq<Conn>)
    requires Reachable(s, conns)
    ensures forall c | c in conns :: c in s.queue || c in s.dropped || Owned(s, c)
    ensures forall c | c in s.queue :: c in conns && c !in s.dropped && !Owned(s, c)
    ensures forall c | c in s.dropped :: c in conns && !Owned(s, c)
    ensures forall t, u, c | t in s.pcs && u in s.pcs && s.pcs[t].Owns(c) && s.pcs[u].Owns(c) :: t == u
    ensures forall i, j | 0 <= i < j < |s.queue| :: s.queue[i] != s.queue[j]
    ensures !s.shutdown ==> s.dropped == {}
    ensures !s.emptied ==> s.entered == s.left + s.queue
    ensures forall t | t in s.pcs && s.pcs[t].Taking? :: s.queue != []
  {
    ReachableInv(s, conns);
    assert forall t | t in s.pcs :: Knows(s.pcs[t], s);
  }

  /**
   * No stuck waiters: if a thread sleeps and no wakeup is under way, then every connection is with a
   * thread that is outside or releasing, and such a thread never waits for a connection.
   */
  lemma NoStuckWaiters(s: State, conns: seq<Conn>)
    requires Reachable(s, conns) && !s.shutdown && SomeAsleep(s.pcs)
    requires Pending(s.pcs) == {} && OwedNotice(s) == 0
    ensures s.queue == [] && s.dropped == {}
    ensures forall c | c in conns :: Owned(s, c)
    ensures forall t, c | t in s.pcs && s.pcs[t].Owns(c) :: !s.pcs[t].WantsConnection()
  {
    ReachableInv(s, conns);
  }

  /** Steps of the pool's own code: not a caller's decision, and not a spurious wakeup. */
  predicate IsInternal(a: Action) {
    !a.CallAcquire? && !a.CallRelease? && !a.CallShutdown? && !a.WakeSpuriously?
  }

  ghost predicate CanMove(s: State) {
    exists a :: IsInternal(a) && Enabled(s, a)
  }

  lemma MutexHolderMoves(s: State, t: Tid)
    requires MutexInv(s) && QueueInv(s) && t in s.pcs && s.pcs[t].HoldsMutex()
    ensures CanMove(s)
  {
    var pc := s.pcs[t];
    assert Knows(pc, s);
    var sleeper := if u :| u in s.pcs && s.pcs[u].Asleep? then u else t;
    var a := if pc.Evaluating? then Evaluate(t)
             else if pc.Blocking? then Sleep(t)
             else if pc.Passed? then TestAfterWait(t)
             else if pc.Taking? then Pop(t)
             else if pc.Testing? then TestInRelease(t)
             else if pc.Pushing? then Push(t)
             else if pc.Notifying? then NotifyOne(t, sleeper)
             else if pc.Draining? then Drain(t)
             else NotifyAll(t);
    assert IsInternal(a) && Enabled(s, a);
  }

  /** No deadlock: while any thread is inside the pool and awake, the pool's code can take a step. */
  lemma NoDeadlock(s: State, conns: seq<Conn>, t: Tid)
    requires Reachable(s, conns) && t in s.pcs
    requires !s.pcs[t].Idle? && !s.pcs[t].Holding? && !s.pcs[t].Asleep?
    ensures CanMove(s)
  {
    ReachableInv(s, conns);
    if s.mutex.Some? {
      MutexHolderMoves(s, s.mutex.value);
    } else {
      assert !s.pcs[t].HoldsMutex();
      assert IsInternal(Lock(t)) && Enabled(s, Lock(t));
    }
  }

  // ----- Initialize

  const DEFAULT_POOL_SIZE: nat := 10

  class MysqlConnectionPool {
    var poolSize: nat
    var queue: seq<Conn>
    var initialized: bool

    ghost predicate Valid()
      reads this
    {
      !initialized ==> queue == []
    }

    constructor ()
      ensures Valid() && !initialized
    {
      poolSize := DEFAULT_POOL_SIZE;
      queue := [];
      initialized := false;
    }

    /** `connects(i)` says whether the i-th connection can be opened; connections are numbered. */
    method Initialize(size: int, connects: nat -> bool) returns (ok: bool)
      requires Valid()
      modifies this
      ensures Valid() && (ok <==> initialized)
      ensures old(initialized) ==> ok && queue == old(queue) && poolSize == old(poolSize)
      ensures !old(initialized) ==> poolSize == if size > 0 then size else 10
      ensures !old(initialized) ==> (ok <==> forall i: nat | i < poolSize :: connects(i))
      ensures !old(initialized) && ok ==> forall tids: set<Tid> :: Init(StartState(queue, tids), queue)
      ensures !old(initialized) && ok ==> |queue| == poolSize >= 1
    {
      if initialized {
        return true;
      }
      initialized := true;
      poolSize := if size > 0 then size else DEFAULT_POOL_SIZE;
      for i := 0 to poolSize
        invariant initialized && poolSize == if size > 0 then size else DEFAULT_POOL_SIZE
        invariant |queue| == i && forall j | 0 <= j < i :: queue[j] == j && connects(j)
      {
        if !connects(i) {
          while queue != []
            invariant initialized && poolSize == if size > 0 then size else DEFAULT_POOL_SIZE
            decreases |queue|
          {
            queue := queue[1..];
          }
          initialized := false;
          return false;
        }
        queue := queue + [i];
      }
      return true;
    }
  }

  function StartState(queue: seq<Conn>, tids: set<Tid>): State {
    State(queue, false, None, map t | t in tids :: Idle, queue, [], {}, false, false)
  }
}
