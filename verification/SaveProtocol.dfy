/**
 * Many threads in MessageService::SaveMessage at once: the steps of the two DAO inserts, with every
 * database effect and every exception its own step, interleaved with the steps of the connection pool
 * and of other users of the pool.
 *
 * The server keeps one LAST_INSERT_ID for each connection, so the id a thread reads back is its own
 * only because the pool never hands one connection to two threads.
 */
module SaveProtocol {
  import opened Wrappers
  import opened MsgTables
  import opened Decimal
  import Pool = MysqlPool
  import MessageService
  import BodyDao = MsgBodyDao
  import IndexDao = MsgIndexDao
  import SeqId

  type Tid = Pool.Tid
  type Conn = Pool.Conn
  type ChatMsg = MessageService.ChatMsg

  const RETRIES: nat := 3

  /** An index row, and which call of SaveMessage inserted it. */
  datatype Entry = Entry(row: Row, writer: Tid, call: nat)

  /** Where a thread stands in SaveMessage; `tries` counts failed attempts of the current insert. */
  datatype Stage =
    | Ready                                              // in no SaveMessage
    | OtherWork                                          // using the pool for other tables
    | Body(msg: ChatMsg, tries: nat)                     // about to insert the body
    | Index(msg: ChatMsg, tries: nat)                    // about to acquire a connection
    | Waiting(msg: ChatMsg, tries: nat)                  // in AcquireConnection, or just out of it
    | HasRow(msg: ChatMsg, tries: nat, row: Row)         // INSERT done, about to select the id
    | Leaving(msg: ChatMsg, tries: nat, result: Outcome<string>) // giving the connection back
    | Finished(msg: ChatMsg, seqId: string)              // SaveMessage returns `seqId`

  datatype Sys = Sys(
    pool: Pool.State, stages: map<Tid, Stage>, calls: map<Tid, nat>,
    table: seq<Entry>, lastId: map<Conn, nat>, docs: multiset<MsgBody>)

  datatype Step =
    | PoolStep(a: Pool.Action)
    | Other(t: Tid, start: bool)                          // begin or end other work
    | OtherInsert(t: Tid, id: nat)                        // an insert into another table
    | Start(t: Tid, msg: ChatMsg)
    | BodyTry(t: Tid, stored: bool, result: Outcome<bool>)
    | NoConnection(t: Tid)                                // AcquireConnection returned null
    | InsertThrows(t: Tid, stored: bool, skip: nat, nowMs: int)
    | InsertDone(t: Tid, skip: nat, nowMs: int)
    | SelectId(t: Tid, found: Outcome<bool>)              // throws, finds no row, or finds the id
    | Left(t: Tid)                                        // the guard is gone: retry, give up or return
    | Return(t: Tid)

  function Rows(table: seq<Entry>): seq<Row> {
    seq(|table|, k requires 0 <= k < |table| => table[k].row)
  }

  function NextId(table: seq<Entry>, skip: nat): nat { IndexDao.NextId(Rows(table), skip) }

  predicate Valid(s: Sys) {
    s.stages.Keys == s.calls.Keys == s.pool.pcs.Keys
  }

  predicate HoldsConn(s: Sys, t: Tid) {
    t in s.pool.pcs && s.pool.pcs[t].Holding? && s.pool.pcs[t].conn in s.lastId
  }

  /** When a thread enters and leaves the pool; every other pool step may happen at any time. */
  predicate Allows(stage: Stage, a: Pool.Action) {
    && (a.CallAcquire? ==> stage.Index? || stage.OtherWork?)
    && (a.CallRelease? ==> stage.Leaving? || stage.OtherWork?)
    && (a.CallShutdown? ==> stage.Ready?)
  }

  predicate Enabled(s: Sys, step: Step) {
    && Valid(s)
    && match step
       case PoolStep(a) => Pool.Enabled(s.pool, a) && Allows(s.stages[a.t], a)
       case Other(t, start) =>
         t in s.stages && s.pool.pcs[t].Idle? && if start then s.stages[t].Ready? else s.stages[t].OtherWork?
       case OtherInsert(t, _) => t in s.stages && s.stages[t].OtherWork? && HoldsConn(s, t)
       case Start(t, _) => t in s.stages && s.stages[t].Ready? && s.pool.pcs[t].Idle?
       case BodyTry(t, stored, result) => t in s.stages && s.stages[t].Body? && (result == Ok(true) ==> stored)
       case NoConnection(t) => t in s.stages && s.stages[t].Waiting? && s.pool.pcs[t].Idle?
       case InsertThrows(t, stored, skip, _) =>
         && t in s.stages && s.stages[t].Waiting? && HoldsConn(s, t)
         && (stored ==> NextId(s.table, skip) < UINT64_LIMIT)
       case InsertDone(t, skip, _) =>
         && t in s.stages && s.stages[t].Waiting? && HoldsConn(s, t)
         && NextId(s.table, skip) < UINT64_LIMIT
       case SelectId(t, _) => t in s.stages && s.stages[t].HasRow? && HoldsConn(s, t)
       case Left(t) => t in s.stages && s.stages[t].Leaving? && s.pool.pcs[t].Idle?
       case Return(t) => t in s.stages && s.stages[t].Finished?
  }

  function To(s: Sys, t: Tid, stage: Stage): Sys { s.(stages := s.stages[t := stage]) }

  /** The row goes to the end of the table, and its id becomes the connection's LAST_INSERT_ID. */
  function AddRow(s: Sys, t: Tid, skip: nat, nowMs: int): Sys
    requires Valid(s) && t in s.stages && s.stages[t].Waiting? && HoldsConn(s, t)
  {
    var row := Row(NextId(s.table, skip), MessageService.IndexOf(s.stages[t].msg), nowMs);
    s.(table := s.table + [Entry(row, t, s.calls[t])], lastId := s.lastId[s.pool.pcs[t].conn := row.id])
  }

  function Retried(msg: ChatMsg, tries: nat, result: Outcome<string>): Stage {
    match result
    case Ok(r) => Finished(msg, r)
    case Throw => if tries >= RETRIES then Finished(msg, "") else Index(msg, tries + 1)
  }

  function Do(s: Sys, step: Step): Sys
    requires Enabled(s, step)
  {
    match step
    case PoolStep(a) =>
      var s' := s.(pool := Pool.Do(s.pool, a));
      var stage := s.stages[a.t];
      if a.CallAcquire? && stage.Index? then To(s', a.t, Waiting(stage.msg, stage.tries)) else s'
    case Other(t, start) => To(s, t, if start then OtherWork else Ready)
    case OtherInsert(t, id) => s.(lastId := s.lastId[s.pool.pcs[t].conn := id])
    case Start(t, msg) => To(s, t, Body(msg, 0)).(calls := s.calls[t := s.calls[t] + 1])
    case BodyTry(t, stored, result) =>
      var Body(msg, tries) := s.stages[t];
      var s' := if stored then s.(docs := s.docs + multiset{MessageService.BodyOf(msg)}) else s;
      To(s', t, if result == Ok(true) then Index(msg, 0)
                else if result.Throw? && tries < RETRIES then Body(msg, tries + 1)
                else Finished(msg, ""))
    case NoConnection(t) => To(s, t, Retried(s.stages[t].msg, s.stages[t].tries, Throw))
    case InsertThrows(t, stored, skip, nowMs) =>
      var s' := if stored then AddRow(s, t, skip, nowMs) else s;
      To(s', t, Leaving(s.stages[t].msg, s.stages[t].tries, Throw))
    case InsertDone(t, skip, nowMs) =>
      var s' := AddRow(s, t, skip, nowMs);
      To(s', t, HasRow(s.stages[t].msg, s.stages[t].tries, s'.table[|s.table|].row))
    case SelectId(t, found) =>
      var HasRow(msg, tries, row) := s.stages[t];
      var result := match found
                    case Throw => Throw
                    case Ok(false) => Ok("")
                    case Ok(true) => Ok(SeqId.Print(row.createdAt, s.lastId[s.pool.pcs[t].conn]));
      To(s, t, Leaving(msg, tries, result))
    case Left(t) => To(s, t, Retried(s.stages[t].msg, s.stages[t].tries, s.stages[t].result))
    case Return(t) => To(s, t, Ready)
  }

  // ----- the invariant

  /** The call that thread `t` is in has inserted this row for this message. */
  ghost predicate Inserted(s: Sys, t: Tid, msg: ChatMsg, row: Row) {
    t in s.calls && Entry(row, t, s.calls[t]) in s.table && row.index == MessageService.IndexOf(msg)
  }

  ghost predicate IsOwnSeqId(s: Sys, t: Tid, msg: ChatMsg, seqId: string) {
    exists row :: Inserted(s, t, msg, row) && seqId == SeqIdOf(row)
  }

  ghost predicate StageOk(s: Sys, t: Tid) {
    && t in s.stages
    && var stage := s.stages[t];
    && (stage.Index? || stage.Waiting? || stage.HasRow? || stage.Leaving? ==>
          MessageService.BodyOf(stage.msg) in s.docs)
    && (stage.HasRow? ==>
          HoldsConn(s, t) && s.lastId[s.pool.pcs[t].conn] == stage.row.id && Inserted(s, t, stage.msg, stage.row))
    && (stage.Leaving? && stage.result.Ok? && stage.result.value != "" ==>
          IsOwnSeqId(s, t, stage.msg, stage.result.value))
    && (stage.Finished? && stage.seqId != "" ==> IsOwnSeqId(s, t, stage.msg, stage.seqId))
  }

  ghost predicate TableInv(s: Sys) {
    && Ascending(Rows(s.table))
    && MessageService.BodiesCover(s.docs, Rows(s.table))
    && SeqIdsEmpty(Rows(s.table))
  }

  /** SaveMessage leaves the seq_id column empty. */
  ghost predicate SeqIdsEmpty(rows: seq<Row>) {
    forall k | 0 <= k < |rows| :: rows[k].index.seqId == ""
  }

  ghost predicate Inv(s: Sys, conns: seq<Conn>) {
    && Valid(s)
    && Pool.Inv(s.pool, conns)
    && (forall c | c in conns :: c in s.lastId)
    && (forall t | t in s.stages :: StageOk(s, t))
    && TableInv(s)
  }

  /** A state from which thread `t` can still tell what it knew: nothing that concerns it was taken back. */
  ghost predicate Grows(s: Sys, s': Sys) {
    && s'.docs >= s.docs
    && |s.table| <= |s'.table| && s'.table[..|s.table|] == s.table
  }

  lemma DoGrows(s: Sys, step: Step)
    requires Enabled(s, step)
    ensures Grows(s, Do(s, step)) && Valid(Do(s, step))
  {
    if step.PoolStep? {
      Pool.OthersStay(s.pool, step.a);
    }
  }

  /** Thread `t` stands where it stood, and so does the last id of a connection it holds. */
  ghost predicate SameFor(s: Sys, s': Sys, t: Tid) {
    && t in s.stages && t in s'.stages && t in s.calls && t in s'.calls
    && s'.stages[t] == s.stages[t] && s'.calls[t] == s.calls[t]
    && (HoldsConn(s, t) ==> HoldsConn(s', t) && s'.lastId[s'.pool.pcs[t].conn] == s.lastId[s.pool.pcs[t].conn])
  }

  /** What a thread knows survives the steps of the others, if its stage, its call and its connection's id do. */
  lemma StageFrame(s: Sys, s': Sys, t: Tid)
    requires Grows(s, s') && SameFor(s, s', t) && StageOk(s, t)
    ensures StageOk(s', t)
  {
    var msg := s.stages[t];
    forall e | e in s.table ensures e in s'.table {
      var k :| 0 <= k < |s.table| && s.table[k] == e;
      assert s'.table[k] == e;
    }
    if !msg.Ready? && !msg.OtherWork? {
      assert forall row | Inserted(s, t, msg.msg, row) :: Inserted(s', t, msg.msg, row);
    }
  }

  /** The thread of a step. */
  function Actor(step: Step): Tid {
    if step.PoolStep? then step.a.t else step.t
  }

  /** No other thread's step touches the connection a thread holds: this is where the pool's exclusivity enters. */
  lemma OthersKeepId(s: Sys, step: Step, conns: seq<Conn>, t: Tid)
    requires Inv(s, conns) && Enabled(s, step) && t in s.stages && t != Actor(step)
    ensures SameFor(s, Do(s, step), t)
  {
    var u := Actor(step);
    if step.PoolStep? {
      Pool.OthersStay(s.pool, step.a);
    } else if HoldsConn(s, t) && HoldsConn(s, u) {
      var c := s.pool.pcs[t].conn;
      assert s.pool.pcs[t].Owns(c);
      assert s.pool.pcs[u].Owns(s.pool.pcs[u].conn);
      assert s.pool.pcs[u].conn != c;
    }
  }

  lemma RowsSnoc(table: seq<Entry>, e: Entry)
    ensures Rows(table + [e]) == Rows(table) + [e.row]
  {
  }

  /** The two ways to insert a row leave the thread knowing it, and its id as the connection's last one. */
  lemma AddRowOk(s: Sys, t: Tid, skip: nat, nowMs: int)
    requires Valid(s) && t in s.stages && s.stages[t].Waiting? && HoldsConn(s, t) && TableInv(s)
    requires StageOk(s, t) && NextId(s.table, skip) < UINT64_LIMIT
    ensures var s' := AddRow(s, t, skip, nowMs);
            var row := s'.table[|s.table|].row;
            && TableInv(s') && Inserted(s', t, s.stages[t].msg, row)
            && HoldsConn(s', t) && s'.lastId[s'.pool.pcs[t].conn] == row.id
  {
    var s' := AddRow(s, t, skip, nowMs);
    var e := s'.table[|s.table|];
    var rows, rows' := Rows(s.table), Rows(s'.table);
    RowsSnoc(s.table, e);
    assert e in s'.table;
    assert forall k | 0 <= k < |rows| :: rows[k].id < e.row.id;
    forall row | row in rows' ensures MessageService.HasBody(s'.docs, row.index.msgId) {
      if row in rows {
        assert MessageService.HasBody(s.docs, row.index.msgId);
      } else {
        assert MessageService.BodyOf(s.stages[t].msg) in s'.docs;
      }
    }
  }

  lemma TableStep(s: Sys, step: Step, conns: seq<Conn>)
    requires Inv(s, conns) && Enabled(s, step)
    ensures TableInv(Do(s, step))
  {
    match step
    case InsertThrows(t, stored, skip, nowMs) =>
      assert StageOk(s, t);
      if stored { AddRowOk(s, t, skip, nowMs); }
    case InsertDone(t, skip, nowMs) =>
      assert StageOk(s, t);
      AddRowOk(s, t, skip, nowMs);
    case BodyTry(t, stored, _) =>
      var s' := Do(s, step);
      forall row | row in Rows(s'.table) ensures MessageService.HasBody(s'.docs, row.index.msgId) {
        var d :| d in s.docs && d.msgId == row.index.msgId;
        assert d in s'.docs;
      }
    case _ =>
  }

  lemma OwnPoolStep(s: Sys, a: Pool.Action, conns: seq<Conn>)
    requires Inv(s, conns) && Enabled(s, PoolStep(a))
    ensures StageOk(Do(s, PoolStep(a)), a.t)
  {
    assert StageOk(s, a.t);
  }

  lemma OwnStep(s: Sys, step: Step, conns: seq<Conn>)
    requires Inv(s, conns) && Enabled(s, step)
    ensures StageOk(Do(s, step), Actor(step))
  {
    var s' := Do(s, step);
    assert StageOk(s, Actor(step));
    match step
    case PoolStep(a) => OwnPoolStep(s, a, conns);
    case InsertDone(t, skip, nowMs) =>
      AddRowOk(s, t, skip, nowMs);
      var row := s'.table[|s.table|].row;
      assert Inserted(s', t, s.stages[t].msg, row);
    case SelectId(t, found) =>
      var HasRow(msg, tries, row) := s.stages[t];
      assert Inserted(s', t, msg, row);
    case Left(t) =>
      var stage := s.stages[t];
      if stage.result.Ok? && stage.result.value != "" {
        var row :| Inserted(s, t, stage.msg, row) && stage.result.value == SeqIdOf(row);
        assert Inserted(s', t, stage.msg, row);
      }
    case _ =>
  }

  lemma LastIdStep(s: Sys, step: Step)
    requires Enabled(s, step)
    ensures forall c | c in s.lastId :: c in Do(s, step).lastId
  {
  }

  lemma PoolStepKeeps(s: Sys, step: Step, conns: seq<Conn>)
    requires Inv(s, conns) && Enabled(s, step)
    ensures Pool.Inv(Do(s, step).pool, conns)
  {
    hide Pool.Inv, Pool.Do, Pool.Enabled;
    if step.PoolStep? {
      Pool.StepKeeps(s.pool, step.a, conns);
    }
  }

  lemma StepKeeps(s: Sys, step: Step, conns: seq<Conn>)
    requires Inv(s, conns) && Enabled(s, step)
    ensures Inv(Do(s, step), conns)
  {
    hide Do, Enabled, StageOk, TableInv, Grows, HoldsConn, Valid, Pool.Inv;
    var s' := Do(s, step);
    DoGrows(s, step);
    PoolStepKeeps(s, step, conns);
    LastIdStep(s, step);
    TableStep(s, step, conns);
    OwnStep(s, step, conns);
    SameThreads(s, step);
    forall t | t in s'.stages ensures StageOk(s', t) {
      if t != Actor(step) {
        OtherStep(s, step, conns, t);
      }
    }
  }

  lemma OtherStep(s: Sys, step: Step, conns: seq<Conn>, t: Tid)
    requires Inv(s, conns) && Enabled(s, step) && t in s.stages && t != Actor(step)
    ensures StageOk(Do(s, step), t)
  {
    hide StageOk, TableInv, Pool.Inv, Grows, HoldsConn, SameFor;
    DoGrows(s, step);
    OthersKeepId(s, step, conns, t);
    StageFrame(s, Do(s, step), t);
  }

  lemma SameThreads(s: Sys, step: Step)
    requires Enabled(s, step)
    ensures Do(s, step).stages.Keys == s.stages.Keys
  {
  }

  // ----- runs

  ghost predicate IsRun(s: Sys, steps: seq<Step>, s': Sys)
    decreases |steps|
  {
    if steps == [] then s' == s
    else Enabled(s, steps[0]) && IsRun(Do(s, steps[0]), steps[1..], s')
  }

  ghost predicate Runs(s: Sys, s': Sys) {
    exists steps :: IsRun(s, steps, s')
  }

  /** Both stores empty, all threads outside SaveMessage, the pool just initialized. */
  ghost predicate Init(s: Sys, conns: seq<Conn>) {
    && Valid(s)
    && Pool.Init(s.pool, conns)
    && (forall c | c in conns :: c in s.lastId)
    && (forall t | t in s.stages :: s.stages[t].Ready?)
    && s.table == [] && s.docs == multiset{}
  }

  lemma {:induction false} RunKeeps(s: Sys, steps: seq<Step>, s': Sys, conns: seq<Conn>)
    requires Inv(s, conns) && IsRun(s, steps, s')
    ensures Inv(s', conns) && Grows(s, s')
    decreases |steps|
  {
    hide Inv, Do, Enabled;
    if steps != [] {
      StepKeeps(s, steps[0], conns);
      DoGrows(s, steps[0]);
      RunKeeps(Do(s, steps[0]), steps[1..], s', conns);
    }
  }

  ghost predicate Reachable(s: Sys, conns: seq<Conn>) {
    exists s0 :: Init(s0, conns) && Runs(s0, s)
  }

  lemma ReachableInv(s: Sys, conns: seq<Conn>)
    requires Reachable(s, conns)
    ensures Inv(s, conns)
  {
    var s0 :| Init(s0, conns) && Runs(s0, s);
    var steps :| IsRun(s0, steps, s);
    Pool.InitHolds(s0.pool, conns);
    RunKeeps(s0, steps, s, conns);
  }

  /**
   * In every interleaving, a non-empty result of SaveMessage is the sequence id of a row which this
   * very call inserted, with its message id, sender, receiver and session type: it is printed from that
   * row's clock and id, and decodes to that id.
   */
  lemma SeqIdIsOwn(s: Sys, conns: seq<Conn>, t: Tid)
    requires Reachable(s, conns) && t in s.stages && s.stages[t].Finished? && s.stages[t].seqId != ""
    ensures t in s.calls
    ensures exists e :: e in s.table && e.writer == t && e.call == s.calls[t]
              && e.row.index.msgId == s.stages[t].msg.msgId
              && e.row.index.senderId == s.stages[t].msg.senderId
              && e.row.index.receiverId == s.stages[t].msg.receiverId
              && e.row.index.sessionType == s.stages[t].msg.sessionType
              && s.stages[t].seqId == "SEQ_" + SignedToString(e.row.createdAt) + "_" + ToString(e.row.id)
              && SeqId.Cursor(s.stages[t].seqId) == Ok(e.row.id)
  {
    ReachableInv(s, conns);
    assert StageOk(s, t);
    var row :| Inserted(s, t, s.stages[t].msg, row) && s.stages[t].seqId == SeqIdOf(row);
    var e := Entry(row, t, s.calls[t]);
    var k :| 0 <= k < |s.table| && s.table[k] == e;
    assert Rows(s.table)[k] == row;
    SeqId.CursorOfPrint(row.createdAt, row.id);
  }

  /** In every interleaving, with failures before or after any effect, every index row has a body document. */
  lemma EveryRowHasBody(s: Sys, conns: seq<Conn>)
    requires Reachable(s, conns)
    ensures Ascending(Rows(s.table)) && MessageService.BodiesCover(s.docs, Rows(s.table))
  {
    ReachableInv(s, conns);
  }

  // ----- the unique key of the shipped schema

  /** UNIQUE KEY (receiver_id, seq_id) */
  ghost predicate KeyIsUnique(rows: seq<Row>) {
    forall j, k | 0 <= j < k < |rows| ::
      !(rows[j].index.receiverId == rows[k].index.receiverId && rows[j].index.seqId == rows[k].index.seqId)
  }

  lemma {:induction false} AtMostOneRow(rows: seq<Row>, user: nat)
    requires KeyIsUnique(rows) && SeqIdsEmpty(rows)
    ensures |After(rows, user, 0)| <= 1
    ensures forall r | r in After(rows, user, 0) :: r in rows && r.index.receiverId == user
  {
    if rows != [] {
      var front, last := rows[..|rows| - 1], rows[|rows| - 1];
      assert rows == front + [last];
      AtMostOneRow(front, user);
      if After(front, user, 0) != [] {
        var r := After(front, user, 0)[0];
        assert r in After(front, user, 0);
        var j :| 0 <= j < |front| && front[j] == r;
        assert rows[j] == r && rows[|rows| - 1] == last;
      }
    }
  }

  /**
   * Where the database keeps that key, the empty column makes every receiver's first row the last: no
   * state that can be reached later has a second one, so no later message to that receiver is stored.
   */
  lemma FirstRowIsLast(s: Sys, s': Sys, conns: seq<Conn>, user: nat)
    requires Reachable(s, conns) && Runs(s, s') && KeyIsUnique(Rows(s'.table))
    ensures |After(Rows(s'.table), user, 0)| <= 1
    ensures After(Rows(s.table), user, 0) != [] ==> After(Rows(s'.table), user, 0) == After(Rows(s.table), user, 0)
  {
    hide Reachable, IsRun;
    ReachableInv(s, conns);
    var steps :| IsRun(s, steps, s');
    RunKeeps(s, steps, s', conns);
    RowsGrow(s, s');
    AtMostOneRow(Rows(s'.table), user);
    AfterGrows(Rows(s.table), Rows(s'.table), user, 0);
  }

  lemma RowsGrow(s: Sys, s': Sys)
    requires Grows(s, s')
    ensures Rows(s.table) <= Rows(s'.table)
  {
    assert forall k | 0 <= k < |s.table| :: s'.table[k] == s'.table[..|s.table|][k];
  }

  /** The moments at which the attempts of a pull read the table and then the collection, in one run. */
  ghost predicate InOneRun(fetchAt: nat -> Sys, bodyAt: nat -> Sys, conns: seq<Conn>) {
    && (forall k: nat :: Reachable(fetchAt(k), conns))
    && (forall j: nat, k: nat | j <= k :: Runs(fetchAt(j), fetchAt(k)))
    && (forall j: nat, k: nat :: Runs(fetchAt(k), bodyAt(j)))
    && (forall k: nat :: Reachable(bodyAt(k), conns))
    && (forall j: nat, k: nat | j <= k :: Runs(bodyAt(j), bodyAt(k)))
  }

  ghost function TablesOf(moments: nat -> Sys): nat -> seq<Row> {
    (k: nat) => Rows(moments(k).table)
  }

  ghost function DocsOf(moments: nat -> Sys): nat -> multiset<MsgBody> {
    (k: nat) => moments(k).docs
  }

  /** Each attempt's cursor delivers from the collection of its moment. */
  ghost predicate Delivering(moments: nat -> Sys, ids: seq<string>, events: nat -> BodyDao.ReadEvent) {
    forall k: nat :: BodyDao.Delivers(DocsOf(moments)(k), ids, events(k))
  }

  lemma MomentsGrow(fetchAt: nat -> Sys, bodyAt: nat -> Sys, conns: seq<Conn>)
    requires InOneRun(fetchAt, bodyAt, conns)
    ensures MessageService.Observed(TablesOf(fetchAt), DocsOf(bodyAt))
    ensures forall j: nat, k: nat | j <= k :: DocsOf(bodyAt)(j) <= DocsOf(bodyAt)(k)
  {
    hide Reachable, Ascending, MessageService.BodiesCover, Runs;
    forall k: nat ensures Ascending(TablesOf(fetchAt)(k)) {
      EveryRowHasBody(fetchAt(k), conns);
    }
    forall j: nat, k: nat | j <= k ensures TablesOf(fetchAt)(j) <= TablesOf(fetchAt)(k) {
      LaterState(fetchAt(j), fetchAt(k), conns);
    }
    forall j: nat, k: nat ensures MessageService.BodiesCover(DocsOf(bodyAt)(j), TablesOf(fetchAt)(k)) {
      LaterState(fetchAt(k), bodyAt(j), conns);
    }
    forall j: nat, k: nat | j <= k ensures DocsOf(bodyAt)(j) <= DocsOf(bodyAt)(k) {
      LaterState(bodyAt(j), bodyAt(k), conns);
    }
  }

  /**
   * A pull that reads the index at some moments of a run, and the bodies at later ones, meets all that
   * PullOfflineMessages is proved to rely on: the tables and collections only grow, bodies cover rows, and
   * cursors that deliver from the collections of those moments read from a growing collection.
   */
  lemma PullSeesARun(fetchAt: nat -> Sys, bodyAt: nat -> Sys, conns: seq<Conn>, ids: seq<string>,
                     events: nat -> BodyDao.ReadEvent)
    requires InOneRun(fetchAt, bodyAt, conns) && Delivering(bodyAt, ids, events)
    ensures MessageService.Observed(TablesOf(fetchAt), DocsOf(bodyAt))
    ensures BodyDao.ReadsFrom(DocsOf(bodyAt), ids, events)
  {
    hide InOneRun, MessageService.Observed, BodyDao.Delivers;
    MomentsGrow(fetchAt, bodyAt, conns);
  }

  lemma LaterState(s: Sys, s': Sys, conns: seq<Conn>)
    requires Reachable(s, conns) && Runs(s, s')
    ensures Rows(s.table) <= Rows(s'.table) && s.docs <= s'.docs
    ensures MessageService.BodiesCover(s'.docs, Rows(s.table))
  {
    hide Reachable, IsRun;
    ReachableInv(s, conns);
    var steps :| IsRun(s, steps, s');
    RunKeeps(s, steps, s', conns);
    RowsGrow(s, s');
    CoverLater(s, s');
  }

  lemma CoverLater(s: Sys, s': Sys)
    requires TableInv(s) && Grows(s, s')
    ensures MessageService.BodiesCover(s'.docs, Rows(s.table))
  {
    forall row | row in Rows(s.table) ensures MessageService.HasBody(s'.docs, row.index.msgId) {
      var d :| d in s.docs && d.msgId == row.index.msgId;
      assert d in s'.docs;
    }
  }
}
