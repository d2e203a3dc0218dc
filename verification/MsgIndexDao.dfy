/** message/src/dao/msg_index_dao.cpp: Insert, and the retried read of one page. */
module MsgIndexDao {
  import opened Wrappers
  import opened Decimal
  import opened MsgTables
  import Retry
  import SeqId

  const RETRIES: int := 3

  // ----- Insert

  /**
   * What one attempt to insert meets: no pooled connection; a failure before the row is stored, a
   * unique-key violation included; a failure after it; no row from SELECT LAST_INSERT_ID(); or
   * neither.  `skip` is how many ids the server leaves unused.
   */
  datatype InsertEvent =
    | NoConnection
    | FailsBefore
    | FailsAfter(skip: nat, nowMs: int)
    | NoIdRow(skip: nat, nowMs: int)
    | Inserted(skip: nat, nowMs: int)

  function NextId(rows: seq<Row>, skip: nat): nat {
    (if rows == [] then 0 else rows[|rows| - 1].id) + 1 + skip
  }

  function InsertAttempt(rows: seq<Row>, index: MsgIndex, ev: InsertEvent): (seq<Row>, Outcome<string>) {
    if ev.NoConnection? || ev.FailsBefore? || NextId(rows, ev.skip) >= UINT64_LIMIT then (rows, Throw)
    else
      var row := Row(NextId(rows, ev.skip), index, ev.nowMs);
      var result := if ev.FailsAfter? then Throw
                    else if ev.NoIdRow? then Ok("")
                    else Ok(SeqId.Print(ev.nowMs, row.id));
      (rows + [row], result)
  }

  function InsertBody(index: MsgIndex, events: nat -> InsertEvent)
    : (seq<Row>, nat) -> (seq<Row>, Outcome<string>)
  {
    (rows: seq<Row>, k: nat) => InsertAttempt(rows, index, events(k))
  }

  /** Insert: the retried attempt, and "" for an exception that gets out of the retry loop. */
  function InsertResult(rows: seq<Row>, index: MsgIndex, events: nat -> InsertEvent): (seq<Row>, string) {
    var (rows', r, _) := Retry.Run(RETRIES, InsertBody(index, events), rows, 0);
    (rows', if r.Ok? then r.value else "")
  }

  /** `rows'` is `rows` and at most `n` new rows, all for `index`. */
  ghost predicate Extends(rows: seq<Row>, rows': seq<Row>, index: MsgIndex, n: nat) {
    && rows <= rows' && |rows'| <= |rows| + n
    && Ascending(rows')
    && forall k | |rows| <= k < |rows'| :: rows'[k].index == index
  }

  lemma AttemptExtends(rows: seq<Row>, rows': seq<Row>, index: MsgIndex, n: nat, ev: InsertEvent)
    requires Extends(rows, rows', index, n)
    ensures Extends(rows, InsertAttempt(rows', index, ev).0, index, n + 1)
  {
    hide Extends, Ascending;
    var (rows'', r) := InsertAttempt(rows', index, ev);
    MayExtend(rows, rows', index, n);
    if rows'' != rows' {
      OneRowMore(rows, rows', index, n, rows''[|rows'|]);
    }
  }

  lemma MayExtend(rows: seq<Row>, rows': seq<Row>, index: MsgIndex, n: nat)
    requires Extends(rows, rows', index, n)
    ensures Extends(rows, rows', index, n + 1)
  {
  }

  lemma OneRowMore(rows: seq<Row>, rows': seq<Row>, index: MsgIndex, n: nat, row: Row)
    requires Extends(rows, rows', index, n)
    requires row.index == index && 0 < row.id < UINT64_LIMIT
    requires rows' != [] ==> rows'[|rows'| - 1].id < row.id
    ensures Extends(rows, rows' + [row], index, n + 1)
  {
    assert forall k | 0 <= k < |rows'| :: rows'[k].id < row.id;
  }

  /**
   * One Insert adds at most four rows, all carrying its own index, and keeps the table ascending.  A
   * non-empty result is the sequence id of the last row it added, and decodes to that row's id; it is
   * returned exactly when the first attempt that does not throw stored its row and read its id.
   */
  lemma InsertContract(rows: seq<Row>, index: MsgIndex, events: nat -> InsertEvent)
    requires Ascending(rows)
    ensures var (rows', seqId) := InsertResult(rows, index, events);
            && Extends(rows, rows', index, 4)
            && (seqId != "" ==> rows' != rows && IsSeqIdOfLast(rows', seqId))
            && (seqId != "" <==> exists k: nat :: FirstReturn(rows, index, events, k) && events(k).Inserted?)
  {
    hide InsertAttempt, Retry.Run, Ascending, Retry.StateBefore;
    var body := InsertBody(index, events);
    var (rows', r, n) := Retry.Run(RETRIES, body, rows, 0);
    Retry.RetryContract(RETRIES, body, rows);
    var before := Retry.StateBefore(body, rows, n - 1);
    StatesExtend(rows, index, events, n - 1);
    AttemptExtends(rows, before, index, n - 1, events(n - 1));
    if r.Ok? {
      assert FirstReturn(rows, index, events, n - 1);
      LastAttempt(before, index, events(n - 1));
    }
    assert forall k: nat | FirstReturn(rows, index, events, k) :: r.Ok? && k == n - 1;
  }

  ghost predicate IsSeqIdOfLast(rows: seq<Row>, seqId: string) {
    rows != [] && seqId == SeqIdOf(rows[|rows| - 1]) && SeqId.Cursor(seqId) == Ok(rows[|rows| - 1].id)
  }

  /** Attempt `k` is the first that does not throw, and is within the limit. */
  ghost predicate FirstReturn(rows: seq<Row>, index: MsgIndex, events: nat -> InsertEvent, k: nat) {
    && k < Retry.MaxCalls(RETRIES)
    && !Retry.Throws(InsertBody(index, events), rows, k)
    && forall j: nat | j < k :: Retry.Throws(InsertBody(index, events), rows, j)
  }

  lemma LastAttempt(rows: seq<Row>, index: MsgIndex, ev: InsertEvent)
    requires InsertAttempt(rows, index, ev).1.Ok?
    ensures var (rows', r) := InsertAttempt(rows, index, ev);
            && |rows'| > |rows|
            && (r.value != "" <==> ev.Inserted?)
            && (r.value != "" ==> IsSeqIdOfLast(rows', r.value))
  {
    var (rows', r) := InsertAttempt(rows, index, ev);
    var last := rows'[|rows'| - 1];
    SeqId.CursorOfPrint(last.createdAt, last.id);
  }

  lemma {:induction false} StatesExtend(rows: seq<Row>, index: MsgIndex, events: nat -> InsertEvent, k: nat)
    requires Ascending(rows)
    ensures Extends(rows, Retry.StateBefore(InsertBody(index, events), rows, k), index, k)
  {
    if k > 0 {
      StatesExtend(rows, index, events, k - 1);
      AttemptExtends(rows, Retry.StateBefore(InsertBody(index, events), rows, k - 1), index, k - 1, events(k - 1));
    }
  }

  /** Did attempt `k` get past the INSERT? */
  predicate StoresRow(rows: seq<Row>, ev: InsertEvent) {
    !ev.NoConnection? && !ev.FailsBefore? && NextId(rows, ev.skip) < UINT64_LIMIT
  }

  /** How many of the first `k` attempts did. */
  function RowsStored(rows: seq<Row>, index: MsgIndex, events: nat -> InsertEvent, k: nat): nat {
    if k == 0 then 0
    else
      RowsStored(rows, index, events, k - 1)
      + if StoresRow(Retry.StateBefore(InsertBody(index, events), rows, k - 1), events(k - 1)) then 1 else 0
  }

  lemma {:induction false} StoredBefore(rows: seq<Row>, index: MsgIndex, events: nat -> InsertEvent, k: nat)
    ensures |Retry.StateBefore(InsertBody(index, events), rows, k)| == |rows| + RowsStored(rows, index, events, k)
  {
    if k > 0 { StoredBefore(rows, index, events, k - 1); }
  }

  /** An attempt ends the retrying exactly if it stored its row and did not fail after that. */
  lemma AttemptEnds(rows: seq<Row>, index: MsgIndex, events: nat -> InsertEvent, k: nat)
    ensures !Retry.Throws(InsertBody(index, events), rows, k) <==>
            && StoresRow(Retry.StateBefore(InsertBody(index, events), rows, k), events(k))
            && !events(k).FailsAfter?
  {
  }

  /**
   * One Insert, attempt by attempt: it stops at the first of four attempts that stores its row and does
   * not fail after; it has added one row for each attempt that got past the INSERT; and a non-empty
   * result is SEQ, the clock of the attempt that stopped it, and the id of the row that attempt stored.
   */
  lemma InsertStepByStep(rows: seq<Row>, index: MsgIndex, events: nat -> InsertEvent)
    ensures var (rows', seqId) := InsertResult(rows, index, events);
            var n := Retry.Run(RETRIES, InsertBody(index, events), rows, 0).2;
            && 1 <= n <= 4
            && |rows'| == |rows| + RowsStored(rows, index, events, n)
            && (forall k | 0 <= k < n - 1 :: Retry.Throws(InsertBody(index, events), rows, k))
            && (Retry.Throws(InsertBody(index, events), rows, n - 1) ==> n == 4 && seqId == "")
            && (seqId != "" ==>
                  events(n - 1).Inserted? && rows' != []
                  && seqId == "SEQ_" + SignedToString(events(n - 1).nowMs) + "_" + ToString(rows'[|rows'| - 1].id)
                  && rows'[|rows'| - 1].createdAt == events(n - 1).nowMs)
  {
    hide Retry.Run, Retry.StateBefore, RowsStored, InsertAttempt, SignedToString, ToString;
    var body := InsertBody(index, events);
    Retry.RetryContract(RETRIES, body, rows);
    var n := Retry.Run(RETRIES, body, rows, 0).2;
    AttemptText(Retry.StateBefore(body, rows, n - 1), index, events(n - 1));
    LastIsNext(rows, index, events, n - 1);
    StoredBefore(rows, index, events, n);
  }

  lemma AttemptText(rows: seq<Row>, index: MsgIndex, ev: InsertEvent)
    ensures var (rows', r) := InsertAttempt(rows, index, ev);
            r.Ok? && r.value != "" ==>
              && ev.Inserted? && rows' != [] && rows'[|rows'| - 1].createdAt == ev.nowMs
              && r.value == "SEQ_" + SignedToString(ev.nowMs) + "_" + ToString(rows'[|rows'| - 1].id)
  {
  }

  lemma LastIsNext(rows: seq<Row>, index: MsgIndex, events: nat -> InsertEvent, k: nat)
    ensures Retry.StateBefore(InsertBody(index, events), rows, k + 1)
            == InsertBody(index, events)(Retry.StateBefore(InsertBody(index, events), rows, k), k).0
  {
  }

  // ----- FetchOfflineMsgIds

  /** What one attempt to read a page meets; `ReadFails(n)` throws after `n` rows were read. */
  datatype FetchEvent = NoConn | QueryFails | ReadFails(count: nat) | ReadsAll

  /** The ids on the page a cursor asks for; a bad cursor or a negative LIMIT makes the query throw. */
  function PageIds(rows: seq<Row>, user: nat, cursor: string, limit: int): (r: Outcome<seq<string>>)
    ensures r.Ok? ==> |r.value| <= limit
  {
    match SeqId.Cursor(cursor)
    case Throw => Throw
    case Ok(lastId) => if limit < 0 then Throw else Ok(MsgIds(Page(rows, user, lastId, limit)))
  }

  function FetchAttempt(ids: seq<string>, rows: seq<Row>, user: nat, cursor: string, limit: int, ev: FetchEvent)
    : (seq<string>, Outcome<Unit>)
  {
    if ev.NoConn? || ev.QueryFails? then (ids, Throw)
    else
      match PageIds(rows, user, cursor, limit)
      case Throw => (ids, Throw)
      case Ok(page) =>
        if ev.ReadFails? then (ids + if ev.count <= |page| then page[..ev.count] else page, Throw)
        else (ids + page, Ok(Unit))
  }

  /** The statements of one attempt: parse the cursor, run the query, append row by row until it ends or throws. */
  method FetchOnce(ids: seq<string>, rows: seq<Row>, user: nat, cursor: string, limit: int, ev: FetchEvent)
    returns (msgIds: seq<string>, r: Outcome<Unit>)
    ensures (msgIds, r) == FetchAttempt(ids, rows, user, cursor, limit, ev)
  {
    hide Page, Stoull, SeqId.FindLastUnderscore;
    msgIds := ids;
    if ev.NoConn? { return msgIds, Throw; }
    var lastId := 0;
    var pos := SeqId.FindLastUnderscore(cursor);
    if pos.Some? {
      var parsed := Stoull(cursor[pos.value + 1..]);
      if parsed.Throw? { return msgIds, Throw; }
      lastId := parsed.value;
    }
    if ev.QueryFails? || limit < 0 { return msgIds, Throw; }
    var res := Page(rows, user, lastId, limit);
    ghost var page := MsgIds(res);
    var k := 0;
    while k < |res|
      invariant k <= |res| && msgIds == ids + page[..k]
      invariant ev.ReadFails? ==> k <= ev.count
    {
      if ev == ReadFails(k) { return msgIds, Throw; }
      msgIds := msgIds + [res[k].index.msgId];
      k := k + 1;
    }
    assert page[..k] == page;
    return msgIds, if ev.ReadFails? then Throw else Ok(Unit);
  }

  /** `tables(k)` is the table as attempt `k` sees it. */
  function FetchBody(tables: nat -> seq<Row>, events: nat -> FetchEvent, user: nat, cursor: string, limit: int)
    : (seq<string>, nat) -> (seq<string>, Outcome<Unit>)
  {
    (ids: seq<string>, k: nat) => FetchAttempt(ids, tables(k), user, cursor, limit, events(k))
  }

  /** The shared result vector when the retry loop is left, whether or not it threw. */
  function FetchResult(tables: nat -> seq<Row>, events: nat -> FetchEvent, user: nat, cursor: string, limit: int)
    : (seq<string>, Outcome<Unit>, nat)
  {
    Retry.Run(RETRIES, FetchBody(tables, events, user, cursor, limit), [], 0)
  }

  /** First occurrences only, in order. */
  function Dedup(s: seq<string>): (d: seq<string>)
    ensures forall x :: x in d <==> x in s
  {
    if s == [] then []
    else
      var front, last := s[..|s| - 1], s[|s| - 1];
      assert s == front + [last];
      if last in front then Dedup(front) else Dedup(front) + [last]
  }

  lemma {:induction false} DedupExtends(a: seq<string>, b: seq<string>, q: seq<string>)
    requires Dedup(a) == Dedup(b)
    ensures Dedup(a + q) == Dedup(b + q)
    ensures Dedup(a) <= Dedup(a + q)
  {
    if q == [] {
      assert a + q == a && b + q == b;
    } else {
      var front, last := q[..|q| - 1], q[|q| - 1];
      DedupExtends(a, b, front);
      assert (a + q)[..|a + q| - 1] == a + front && (b + q)[..|b + q| - 1] == b + front;
      assert last in a + front <==> last in Dedup(a + front);
      assert last in b + front <==> last in Dedup(b + front);
    }
  }

  lemma {:induction false} DedupAgain(a: seq<string>, p: seq<string>)
    requires forall x | x in p :: x in a
    ensures Dedup(a + p) == Dedup(a)
  {
    if p == [] {
      assert a + p == a;
    } else {
      var front, last := p[..|p| - 1], p[|p| - 1];
      assert (a + p)[..|a + p| - 1] == a + front;
      DedupAgain(a, front);
      assert last in p;
    }
  }

  /** What earlier attempts left in the vector vanishes behind a page, once repetitions are dropped. */
  ghost predicate Absorbed(ids: seq<string>, page: seq<string>) {
    Dedup(ids + page) == Dedup(page)
  }

  lemma AbsorbedByLonger(ids: seq<string>, page: seq<string>, page': seq<string>)
    requires Absorbed(ids, page) && page <= page'
    ensures Absorbed(ids, page')
  {
    var q := page'[|page|..];
    assert page' == page + q && ids + page' == (ids + page) + q;
    DedupExtends(ids + page, page, q);
  }

  lemma AbsorbedWithPart(ids: seq<string>, p: seq<string>, q: seq<string>)
    requires Absorbed(ids, p + q)
    ensures Absorbed(ids + p, p + q)
    ensures Dedup(ids + p) <= Dedup(p + q)
  {
    hide Dedup;
    var a := ids + p;
    DedupAgain(a, p);
    DedupExtends(a + p, a, q);
    DedupExtends(a, a, q);
    Assoc(a, p, q);
    Assoc(ids, p, q);
  }

  lemma Assoc(a: seq<string>, b: seq<string>, c: seq<string>)
    ensures a + (b + c) == (a + b) + c
  {
  }

  ghost predicate Growing(tables: nat -> seq<Row>) {
    forall j: nat, k: nat | j <= k :: tables(j) <= tables(k)
  }

  /** What one attempt could append at most: the page, or nothing if its query throws. */
  function Readable(rows: seq<Row>, user: nat, cursor: string, limit: int): (page: seq<string>)
    ensures |page| <= Cap(limit)
  {
    match PageIds(rows, user, cursor, limit)
    case Ok(page) => page
    case Throw => []
  }

  function Cap(limit: int): nat { if limit < 0 then 0 else limit }

  lemma ReadableGrows(rows: seq<Row>, rows': seq<Row>, user: nat, cursor: string, limit: int)
    requires rows <= rows'
    ensures Readable(rows, user, cursor, limit) <= Readable(rows', user, cursor, limit)
  {
    var lastId := SeqId.Cursor(cursor);
    if lastId.Ok? && limit >= 0 {
      PageGrows(rows, rows', user, lastId.value, limit);
    }
  }

  /** One attempt appends a prefix of the page it sees, and all of it when it does not throw. */
  lemma AttemptAppends(ids: seq<string>, rows: seq<Row>, user: nat, cursor: string, limit: int, ev: FetchEvent)
    returns (p: seq<string>, q: seq<string>)
    ensures p + q == Readable(rows, user, cursor, limit)
    ensures FetchAttempt(ids, rows, user, cursor, limit, ev).0 == ids + p
    ensures FetchAttempt(ids, rows, user, cursor, limit, ev).1.Ok? ==>
              q == [] && PageIds(rows, user, cursor, limit) == Ok(p)
  {
    var page := Readable(rows, user, cursor, limit);
    var n := if ev.ReadsAll? then |page|
             else if ev.ReadFails? then if ev.count <= |page| then ev.count else |page|
             else 0;
    p, q := page[..n], page[n..];
    assert page[..|page|] == page && page[..0] == [] && ids + [] == ids;
  }

  lemma AttemptAbsorbed(
    ids: seq<string>, rows: seq<Row>, rows': seq<Row>, user: nat, cursor: string, limit: int, ev: FetchEvent)
    requires rows <= rows' && Absorbed(ids, Readable(rows, user, cursor, limit))
    ensures var (ids', r) := FetchAttempt(ids, rows, user, cursor, limit, ev);
            && Absorbed(ids', Readable(rows', user, cursor, limit))
            && Dedup(ids') <= Dedup(Readable(rows, user, cursor, limit))
            && |ids'| <= |ids| + Cap(limit)
  {
    var p, q := AttemptAppends(ids, rows, user, cursor, limit, ev);
    AbsorbedWithPart(ids, p, q);
    ReadableGrows(rows, rows', user, cursor, limit);
    AbsorbedByLonger(ids + p, p + q, Readable(rows', user, cursor, limit));
    assert |p| <= |p + q|;
  }

  lemma {:induction false} LeftoversAbsorbed(
    tables: nat -> seq<Row>, events: nat -> FetchEvent, user: nat, cursor: string, limit: int, k: nat)
    requires Growing(tables)
    ensures var ids := Retry.StateBefore(FetchBody(tables, events, user, cursor, limit), [], k);
            Absorbed(ids, Readable(tables(k), user, cursor, limit)) && |ids| <= Total(k, limit)
  {
    if k == 0 {
      assert [] + Readable(tables(0), user, cursor, limit) == Readable(tables(0), user, cursor, limit);
    } else {
      LeftoversAbsorbed(tables, events, user, cursor, limit, k - 1);
      var ids := Retry.StateBefore(FetchBody(tables, events, user, cursor, limit), [], k - 1);
      assert tables(k - 1) <= tables(k);
      AttemptAbsorbed(ids, tables(k - 1), tables(k), user, cursor, limit, events(k - 1));
    }
  }

  /** `k` pages of `limit` rows. */
  function Total(k: nat, limit: int): nat {
    if k == 0 then 0 else Total(k - 1, limit) + Cap(limit)
  }

  /**
   * The retried fetch is harmless up to repetition, although the attempts share one vector that is
   * never cleared and rows may be added between them: on success the first occurrences are those of
   * the final page and the final page ends the vector; on failure they are a prefix of what the last
   * attempt could have read.  The vector never exceeds four pages.
   */
  lemma RetriedFetch(tables: nat -> seq<Row>, events: nat -> FetchEvent, user: nat, cursor: string, limit: int)
    requires Growing(tables)
    ensures var (ids, r, n) := FetchResult(tables, events, user, cursor, limit);
            var page := Readable(tables(n - 1), user, cursor, limit);
            && 1 <= n <= 4
            && |ids| <= 4 * Cap(limit)
            && (r.Ok? ==> PageIds(tables(n - 1), user, cursor, limit) == Ok(page)
                          && Dedup(ids) == Dedup(page)
                          && |ids| >= |page| && ids[|ids| - |page|..] == page)
            && (r.Throw? ==> Dedup(ids) <= Dedup(page))
  {
    var body := FetchBody(tables, events, user, cursor, limit);
    var (ids, r, n) := FetchResult(tables, events, user, cursor, limit);
    Retry.RetryContract(RETRIES, body, []);
    var before := Retry.StateBefore(body, [], n - 1);
    LeftoversAbsorbed(tables, events, user, cursor, limit, n - 1);
    AttemptAbsorbed(before, tables(n - 1), tables(n - 1), user, cursor, limit, events(n - 1));
    var p, q := AttemptAppends(before, tables(n - 1), user, cursor, limit, events(n - 1));
    TotalOfFour(n, limit);
  }

  lemma TotalOfFour(n: nat, limit: int)
    requires 1 <= n <= 4
    ensures Total(n - 1, limit) + Cap(limit) <= 4 * Cap(limit)
  {
    assert Total(0, limit) == 0;
    assert Total(1, limit) == Cap(limit);
    assert Total(2, limit) == 2 * Cap(limit);
    assert Total(3, limit) == 3 * Cap(limit);
  }

  /**
   * When the fetch finishes: exactly if the cursor can be read, the limit is not negative and one of the
   * attempts 0 to 3 meets no failure; it stops at the first such attempt, and otherwise makes all four.
   */
  lemma FetchFinishes(tables: nat -> seq<Row>, events: nat -> FetchEvent, user: nat, cursor: string, limit: int)
    ensures var (ids, r, n) := FetchResult(tables, events, user, cursor, limit);
            && (r.Ok? <==> SeqId.Cursor(cursor).Ok? && limit >= 0 && exists k: nat :: k < 4 && events(k).ReadsAll?)
            && (r.Ok? ==> 1 <= n <= 4 && events(n - 1).ReadsAll? && forall k | 0 <= k < n - 1 :: !events(k).ReadsAll?)
            && (r.Throw? ==> n == 4)
  {
    hide Retry.Run, Retry.StateBefore, SeqId.Cursor;
    var body := FetchBody(tables, events, user, cursor, limit);
    Retry.RetryContract(RETRIES, body, []);
    forall k: nat
      ensures !Retry.Throws(body, [], k) <==> SeqId.Cursor(cursor).Ok? && limit >= 0 && events(k).ReadsAll?
    {
      FetchThrows(tables, events, user, cursor, limit, Retry.StateBefore(body, [], k), k);
    }
  }

  lemma FetchThrows(tables: nat -> seq<Row>, events: nat -> FetchEvent, user: nat, cursor: string, limit: int,
                    ids: seq<string>, k: nat)
    ensures FetchBody(tables, events, user, cursor, limit)(ids, k).1.Ok? <==>
            SeqId.Cursor(cursor).Ok? && limit >= 0 && events(k).ReadsAll?
  {
    var page := PageIds(tables(k), user, cursor, limit);
    assert page.Ok? <==> SeqId.Cursor(cursor).Ok? && limit >= 0;
    assert FetchBody(tables, events, user, cursor, limit)(ids, k) ==
           FetchAttempt(ids, tables(k), user, cursor, limit, events(k));
  }

  /** The rows addressed to `user`, as any reader of the table would pick them: in id order, each once. */
  ghost predicate IsMailbox(mine: seq<Row>, rows: seq<Row>, user: nat) {
    Ascending(mine) && forall r :: r in mine <==> r in rows && r.index.receiverId == user
  }

  /**
   * The first pull: a client without a sequence id, or with any cursor that holds no '_', is given the
   * message ids of all rows addressed to it, in id order and each once, if the first attempt meets no
   * failure and the limit covers them.
   */
  lemma FirstPull(tables: nat -> seq<Row>, events: nat -> FetchEvent, user: nat, cursor: string, limit: int,
                  mine: seq<Row>)
    requires '_' !in cursor && events(0).ReadsAll?
    requires Ascending(tables(0)) && IsMailbox(mine, tables(0), user) && |mine| <= limit
    ensures FetchResult(tables, events, user, cursor, limit) ==
            (seq(|mine|, k requires 0 <= k < |mine| => mine[k].index.msgId), Ok(Unit), 1)
  {
    SeqId.FirstCursor(cursor);
    var all := After(tables(0), user, 0);
    AfterMeaning(tables(0), user, 0);
    forall r ensures r in all <==> r in mine {
      if r in tables(0) {
        var k :| 0 <= k < |tables(0)| && tables(0)[k] == r;
        assert tables(0)[k].id > 0;
      }
    }
    SameMailbox(all, mine);
    assert [] + MsgIds(mine) == MsgIds(mine);
  }

  /** Two ascending lists of the same rows are the same list. */
  lemma {:induction false} SameMailbox(a: seq<Row>, b: seq<Row>)
    requires Ascending(a) && Ascending(b) && forall r :: r in a <==> r in b
    ensures a == b
  {
    hide Ascending;
    LastInList(a);
    LastInList(b);
    if a != [] {
      AscendingFront(a);
      AscendingFront(b);
      var x, y := a[|a| - 1], b[|b| - 1];
      LastIsLargest(a, y);
      LastIsLargest(b, x);
      OnlyOneId(a, x, y);
      var front, front' := a[..|a| - 1], b[..|b| - 1];
      forall r ensures r in front <==> r in front' {
        InFront(a, r);
        InFront(b, r);
      }
      SameMailbox(front, front');
      assert a == front + [x] && b == front' + [y];
    }
  }

  lemma LastInList(a: seq<Row>)
    ensures a != [] ==> a[|a| - 1] in a
    ensures a == [] <==> forall r :: r !in a
  {
    if a != [] { assert a[|a| - 1] in a; }
  }

  lemma AscendingFront(a: seq<Row>)
    requires Ascending(a) && a != []
    ensures Ascending(a[..|a| - 1])
  {
  }

  lemma LastIsLargest(a: seq<Row>, r: Row)
    requires Ascending(a) && r in a
    ensures r.id <= a[|a| - 1].id
  {
    var i :| 0 <= i < |a| && a[i] == r;
  }

  lemma OnlyOneId(a: seq<Row>, r: Row, q: Row)
    requires Ascending(a) && r in a && q in a && r.id == q.id
    ensures r == q
  {
    var i :| 0 <= i < |a| && a[i] == r;
    var j :| 0 <= j < |a| && a[j] == q;
    assert !(i < j) && !(j < i);
  }

  lemma InFront(a: seq<Row>, r: Row)
    requires Ascending(a) && a != []
    ensures r in a[..|a| - 1] <==> r in a && r != a[|a| - 1]
  {
    if r in a && r != a[|a| - 1] {
      var i :| 0 <= i < |a| && a[i] == r;
      assert a[..|a| - 1][i] == r;
    }
  }

  // ----- the DAO

  class MsgIndexDao {
    /** The table message_index. */
    var rows: seq<Row>

    constructor ()
      ensures rows == []
    {
      rows := [];
    }

    method Insert(index: MsgIndex, events: nat -> InsertEvent) returns (seqId: string)
      requires Ascending(rows)
      modifies this
      ensures (rows, seqId) == InsertResult(old(rows), index, events)
      ensures Extends(old(rows), rows, index, 4)
      ensures seqId != "" ==> rows != old(rows) && IsSeqIdOfLast(rows, seqId)
    {
      InsertContract(rows, index, events);
      var rows', r, _ := Retry.ExecuteWithRetry(RETRIES, InsertBody(index, events), rows);
      rows := rows';
      seqId := if r.Ok? then r.value else "";
    }

    /** The vector is returned as it is, also when the retry loop gave up. */
    method FetchOfflineMsgIds(user: nat, lastSeqId: string, limit: int,
                              tables: nat -> seq<Row>, events: nat -> FetchEvent)
      returns (msgIds: seq<string>, ghost read: bool, ghost calls: nat)
      requires Growing(tables)
      ensures var (ids, r, n) := FetchResult(tables, events, user, lastSeqId, limit);
              msgIds == ids && (read <==> r.Ok?) && calls == n
      ensures 1 <= calls <= 4 && |msgIds| <= 4 * Cap(limit)
      ensures var page := Readable(tables(calls - 1), user, lastSeqId, limit);
              if read then Dedup(msgIds) == Dedup(page) else Dedup(msgIds) <= Dedup(page)
    {
      hide Retry.Run, Dedup, Readable, Cap;
      RetriedFetch(tables, events, user, lastSeqId, limit);
      var r, n;
      msgIds, r, n := Retry.ExecuteWithRetry(RETRIES, FetchBody(tables, events, user, lastSeqId, limit), []);
      read, calls := r.Ok?, n;
    }
  }
}
