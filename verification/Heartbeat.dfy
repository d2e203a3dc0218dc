/**
 * gateway/src/tcp_server.cpp: the heartbeat of one TCP connection - the time of the last read, the
 * stopped flag, and the 5-second check that re-arms itself.
 *
 * Time is in milliseconds since the epoch; the code keeps whole seconds.  The timer is prompt: time
 * does not pass an armed deadline before its handler runs, and both clocks agree.
 */
module Heartbeat {
  import opened Wrappers

  const TIMEOUT_SEC: nat := 30
  const CHECK_MS: nat := 5000

  /** TimeUtils::GetCurrentTimestampSec */
  function Seconds(ms: nat): nat { ms / 1000 }

  /**
   * `lastRead` and `closes` only record: when the last read (or the start) was, and how often the
   * socket was closed by Stop.
   */
  datatype Conn = Conn(lastActive: nat, stopped: bool, timer: Option<nat>, lastRead: nat, closes: nat)

  datatype Event =
    | Pass(ms: nat)   // time goes by
    | Read            // bytes arrived
    | Fail            // a read or write failed, or the connection is destroyed
    | Timer           // the armed deadline is reached

  datatype State = State(now: nat, conn: Conn)

  predicate Expired(c: Conn, now: nat) { Seconds(now) - c.lastActive > TIMEOUT_SEC }

  function Started(now: nat): Conn { Conn(Seconds(now), false, Some(now + CHECK_MS), now, 0) }

  function Stopped(c: Conn): Conn {
    if c.stopped then c else c.(stopped := true, timer := None, closes := c.closes + 1)
  }

  function AfterRead(c: Conn, now: nat): Conn { c.(lastActive := Seconds(now), lastRead := now) }

  function AfterTimer(c: Conn, now: nat): Conn {
    if c.stopped then c.(timer := None)
    else if Expired(c, now) then Stopped(c)
    else c.(timer := Some(now + CHECK_MS))
  }

  /** Start refreshes the time and arms the first check, unless the connection is already stopped. */
  function AfterStart(c: Conn, now: nat): (c': Conn)
    ensures c == Conn(c.lastActive, false, None, c.lastRead, 0) ==> c' == Started(now)
  {
    var r := AfterRead(c, now);
    if c.stopped then r else r.(timer := Some(now + CHECK_MS))
  }

  class TcpConnection {
    var lastActiveTime: nat
    var isStopped: bool
    var timer: Option<nat>
    ghost var lastRead: nat
    ghost var closes: nat

    ghost function View(): Conn
      reads this
    {
      Conn(lastActiveTime, isStopped, timer, lastRead, closes)
    }

    constructor (nowMs: nat)
      ensures View() == Conn(Seconds(nowMs), false, None, nowMs, 0)
    {
      lastActiveTime, isStopped, timer := Seconds(nowMs), false, None;
      lastRead, closes := nowMs, 0;
    }

    method Start(nowMs: nat)
      modifies this
      ensures View() == AfterStart(old(View()), nowMs)
    {
      lastActiveTime := Seconds(nowMs);
      lastRead := nowMs;
      CheckHeartbeat(nowMs);
    }

    method Stop()
      modifies this
      ensures View() == Stopped(old(View()))
    {
      if !isStopped {
        isStopped := true;
        timer := None;
        closes := closes + 1;
      }
    }

    /** The completion of async_read_some. */
    method OnRead(nowMs: nat, ok: bool)
      modifies this
      ensures View() == if ok then AfterRead(old(View()), nowMs) else Stopped(old(View()))
    {
      if ok {
        lastActiveTime := Seconds(nowMs);
        lastRead := nowMs;
      } else {
        Stop();
      }
    }

    method CheckHeartbeat(nowMs: nat)
      modifies this`timer
      ensures timer == if isStopped then old(timer) else Some(nowMs + CHECK_MS)
    {
      if isStopped {
        return;
      }
      timer := Some(nowMs + CHECK_MS);
    }

    /** The handler that CheckHeartbeat arms; a cancelled timer is no longer armed. */
    method OnTimer(nowMs: nat)
      modifies this
      ensures View() == AfterTimer(old(View()), nowMs)
    {
      timer := None;
      if isStopped {
        return;
      }
      if Seconds(nowMs) - lastActiveTime > TIMEOUT_SEC {
        Stop();
      } else {
        CheckHeartbeat(nowMs);
      }
    }
  }

  // ----- runs

  predicate Enabled(s: State, e: Event) {
    match e
    case Pass(ms) => s.conn.timer.Some? ==> s.now + ms <= s.conn.timer.value
    case Timer => s.conn.timer == Some(s.now)
    case _ => true
  }

  function Do(s: State, e: Event): State {
    match e
    case Pass(ms) => s.(now := s.now + ms)
    case Read => s.(conn := AfterRead(s.conn, s.now))
    case Fail => s.(conn := Stopped(s.conn))
    case Timer => s.(conn := AfterTimer(s.conn, s.now))
  }

  ghost predicate IsRun(s: State, events: seq<Event>, s': State)
    decreases |events|
  {
    if events == [] then s' == s
    else Enabled(s, events[0]) && IsRun(Do(s, events[0]), events[1..], s')
  }

  /** The armed deadline is at most one period ahead, and the check one period before it had passed. */
  predicate Inv(s: State) {
    var c := s.conn;
    && c.lastActive == Seconds(c.lastRead) && c.lastRead <= s.now
    && c.closes == (if c.stopped then 1 else 0)
    && (c.stopped ==> c.timer.None?)
    && (!c.stopped ==>
          && c.timer.Some? && s.now <= c.timer.value
          && CHECK_MS <= c.timer.value <= s.now + CHECK_MS
          && Seconds(c.timer.value - CHECK_MS) <= c.lastActive + TIMEOUT_SEC)
  }

  lemma StepKeeps(s: State, e: Event)
    requires Inv(s) && Enabled(s, e)
    ensures Inv(Do(s, e))
    ensures s.conn.stopped ==> Do(s, e).conn.stopped
  {
  }

  lemma {:induction false} RunKeeps(s: State, events: seq<Event>, s': State)
    requires Inv(s) && IsRun(s, events, s')
    ensures Inv(s') && (s.conn.stopped ==> s'.conn.stopped)
    decreases |events|
  {
    if events != [] {
      StepKeeps(s, events[0]);
      RunKeeps(Do(s, events[0]), events[1..], s');
    }
  }

  /** Whole seconds against milliseconds: never expired up to 30 s, always from 31 s. */
  lemma ExpiredWindow(read: nat, now: nat)
    requires read <= now
    ensures Seconds(now) - Seconds(read) > TIMEOUT_SEC ==> now - read > 30_000
    ensures now - read >= 31_000 ==> Seconds(now) - Seconds(read) > TIMEOUT_SEC
  {
  }

  /**
   * The heartbeat window, in every run from the start of a connection: a check stops it only when the
   * last read is more than 30 s ago; while it is not stopped, less than 36 s have passed since the
   * last read; the socket is closed once, exactly when it is stopped; and a stopped connection has no
   * check armed, in every continuation.
   */
  lemma HeartbeatWindow(start: nat, events: seq<Event>, s: State)
    requires IsRun(State(start, Started(start)), events, s)
    ensures !s.conn.stopped && Enabled(s, Timer) && Do(s, Timer).conn.stopped ==> s.now - s.conn.lastRead > 30_000
    ensures !s.conn.stopped && Enabled(s, Timer) && s.now - s.conn.lastRead >= 31_000 ==> Do(s, Timer).conn.stopped
    ensures !s.conn.stopped ==> s.now - s.conn.lastRead < 36_000
    ensures Do(s, Read).conn.lastRead == s.now && Do(s, Fail).conn.stopped
    ensures s.conn.closes == if s.conn.stopped then 1 else 0
    ensures s.conn.stopped ==> forall more, s' | IsRun(s, more, s') ::
              s'.conn.stopped && s'.conn.timer.None? && s'.conn.closes == 1
  {
    RunKeeps(State(start, Started(start)), events, s);
    ExpiredWindow(s.conn.lastRead, s.now);
    forall more, s' | s.conn.stopped && IsRun(s, more, s') ensures s'.conn.stopped && Inv(s') {
      RunKeeps(s, more, s');
    }
  }

  lemma {:induction false} RunAppend(s: State, events: seq<Event>, s': State, e: Event)
    requires IsRun(s, events, s') && Enabled(s', e)
    ensures IsRun(s, events + [e], Do(s', e))
    decreases |events|
  {
    if events == [] {
      assert events + [e] == [e];
      assert IsRun(Do(s, e), [e][1..], Do(s', e));
    } else {
      RunAppend(Do(s, events[0]), events[1..], s', e);
      assert (events + [e])[1..] == events[1..] + [e];
    }
  }

  /** The 36 s are sharp: a start at second 0.999, one read at second 5.000, and silence. */
  lemma SharpWindow()
    ensures exists events, s :: IsRun(State(999, Started(999)), events, s)
              && !s.conn.stopped && s.now - s.conn.lastRead == 35_999
  {
    var s0 := State(999, Started(999));
    var events, s := [], s0;
    var script := [Pass(4001), Read, Pass(999), Timer];
    for i := 0 to 4
      invariant IsRun(s0, events, s) && |script| == 4
      invariant i == 0 ==> s == s0
      invariant i == 1 ==> s == State(5000, Conn(0, false, Some(5999), 999, 0))
      invariant i == 2 ==> s == State(5000, Conn(5, false, Some(5999), 5000, 0))
      invariant i == 3 ==> s == State(5999, Conn(5, false, Some(5999), 5000, 0))
      invariant i == 4 ==> s == State(5999, Conn(5, false, Some(10_999), 5000, 0))
    {
      RunAppend(s0, events, s, script[i]);
      events, s := events + [script[i]], Do(s, script[i]);
    }
    for k := 0 to 6
      invariant IsRun(s0, events, s)
      invariant s == State(5999 + 5000 * k, Conn(5, false, Some(10_999 + 5000 * k), 5000, 0))
    {
      RunAppend(s0, events, s, Pass(5000));
      events, s := events + [Pass(5000)], Do(s, Pass(5000));
      RunAppend(s0, events, s, Timer);
      events, s := events + [Timer], Do(s, Timer);
    }
    RunAppend(s0, events, s, Pass(5000));
    events, s := events + [Pass(5000)], Do(s, Pass(5000));
    assert IsRun(s0, events, s) && !s.conn.stopped && s.now - s.conn.lastRead == 35_999;
  }
}
