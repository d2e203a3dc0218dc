/**
 * What the message DAOs store: the MySQL table message_index, append-only with strictly growing
 * ids, and the Mongo collection `messages`.
 */
module MsgTables {
  import opened Wrappers
  import opened Decimal
  import SeqId

  datatype MsgBody = MsgBody(msgId: string, content: string, msgType: int, sessionType: int)

  datatype MsgIndex = MsgIndex(msgId: string, senderId: nat, receiverId: nat, sessionType: int, seqId: string)

  /** A stored index row: the auto-increment id, what Insert bound, and created_at. */
  datatype Row = Row(id: nat, index: MsgIndex, createdAt: int)

  ghost predicate Ascending(rows: seq<Row>) {
    && (forall k | 0 <= k < |rows| :: 0 < rows[k].id < UINT64_LIMIT)
    && (forall j, k | 0 <= j < k < |rows| :: rows[j].id < rows[k].id)
  }

  function SeqIdOf(row: Row): string { SeqId.Print(row.createdAt, row.id) }

  function MsgIds(rows: seq<Row>): seq<string> {
    seq(|rows|, k requires 0 <= k < |rows| => rows[k].index.msgId)
  }

  // ----- SELECT msg_id FROM message_index WHERE receiver_id = ? AND id > ? ORDER BY id ASC LIMIT ?

  predicate Wanted(row: Row, user: nat, lastId: nat) {
    row.index.receiverId == user && row.id > lastId
  }

  /** The rows of `user` after `lastId`, in id order: the table is kept in id order. */
  function After(rows: seq<Row>, user: nat, lastId: nat): (out: seq<Row>)
    ensures |out| <= |rows|
  {
    if rows == [] then []
    else
      var last := rows[|rows| - 1];
      After(rows[..|rows| - 1], user, lastId) + if Wanted(last, user, lastId) then [last] else []
  }

  /** One page of those rows. */
  function Page(rows: seq<Row>, user: nat, lastId: nat, limit: nat): (page: seq<Row>)
    ensures |page| <= limit
  {
    var all := After(rows, user, lastId);
    if |all| <= limit then all else all[..limit]
  }

  /** The query result is exactly the wanted rows of the table, once each and in ascending id order. */
  lemma {:induction false} AfterMeaning(rows: seq<Row>, user: nat, lastId: nat)
    requires Ascending(rows)
    ensures Ascending(After(rows, user, lastId))
    ensures forall r :: r in After(rows, user, lastId) <==> r in rows && Wanted(r, user, lastId)
    ensures forall r | r in After(rows, user, lastId) :: r.id <= rows[|rows| - 1].id
  {
    if rows != [] {
      var front, last := rows[..|rows| - 1], rows[|rows| - 1];
      assert rows == front + [last];
      AfterMeaning(front, user, lastId);
      forall r | r in After(front, user, lastId) ensures r.id < last.id {
        assert r in front;
      }
    }
  }

  /** Rows appended later only lengthen a query result. */
  lemma {:induction false} AfterAppended(rows: seq<Row>, more: seq<Row>, user: nat, lastId: nat)
    ensures After(rows + more, user, lastId) == After(rows, user, lastId) + After(more, user, lastId)
  {
    if more == [] {
      assert rows + more == rows;
    } else {
      var front, last := more[..|more| - 1], more[|more| - 1];
      assert (rows + more)[..|rows + more| - 1] == rows + front;
      AfterAppended(rows, front, user, lastId);
    }
  }

  lemma AfterGrows(rows: seq<Row>, rows': seq<Row>, user: nat, lastId: nat)
    requires rows <= rows'
    ensures After(rows, user, lastId) <= After(rows', user, lastId)
  {
    assert rows' == rows + rows'[|rows|..];
    AfterAppended(rows, rows'[|rows|..], user, lastId);
  }

  lemma PageGrows(rows: seq<Row>, rows': seq<Row>, user: nat, lastId: nat, limit: nat)
    requires rows <= rows'
    ensures Page(rows, user, lastId, limit) <= Page(rows', user, lastId, limit)
  {
    AfterGrows(rows, rows', user, lastId);
  }

  /** Reading on after some row of a query result gives the rest of that result. */
  lemma {:induction false} AfterSplits(rows: seq<Row>, user: nat, lastId: nat, n: nat)
    requires Ascending(rows) && 0 < n <= |After(rows, user, lastId)|
    ensures After(rows, user, lastId)[n..] == After(rows, user, After(rows, user, lastId)[n - 1].id)
  {
    var all := After(rows, user, lastId);
    var front, last := rows[..|rows| - 1], rows[|rows| - 1];
    var cut := all[n - 1];
    AfterMeaning(rows, user, lastId);
    assert cut in all;
    if n <= |After(front, user, lastId)| {
      AfterMeaning(front, user, lastId);
      AfterSplits(front, user, lastId, n);
      assert cut == After(front, user, lastId)[n - 1];
      assert cut in front;
      var j :| 0 <= j < |front| && front[j] == cut;
      assert rows[j].id < rows[|rows| - 1].id;
      assert all[n..] == After(front, user, lastId)[n..] + if Wanted(last, user, lastId) then [last] else [];
    } else {
      assert n == |all| && cut == last;
      NothingBeyond(rows, user, last.id);
    }
  }

  lemma {:induction false} NothingBeyond(rows: seq<Row>, user: nat, lastId: nat)
    requires forall k | 0 <= k < |rows| :: rows[k].id <= lastId
    ensures After(rows, user, lastId) == []
  {
    if rows != [] {
      NothingBeyond(rows[..|rows| - 1], user, lastId);
    }
  }

  // ----- reading page after page

  /**
   * Failure-free fetches, one for each table state in `tables`: each asks for the rows after the
   * cursor, and the next cursor is the sequence id of the last row of the page, if there is one.
   */
  function Pages(tables: seq<seq<Row>>, user: nat, cursor: string, limit: nat): (seq<Row>, string) {
    if tables == [] then ([], cursor)
    else
      match SeqId.Cursor(cursor)
      case Throw => ([], cursor)
      case Ok(lastId) =>
        var page := Page(tables[0], user, lastId, limit);
        var next := if page == [] then cursor else SeqIdOf(page[|page| - 1]);
        var (rest, end) := Pages(tables[1..], user, next, limit);
        (page + rest, end)
  }

  /** The table at each visit is the one before it, possibly with rows added. */
  ghost predicate History(tables: seq<seq<Row>>) {
    && (forall k | 0 <= k < |tables| :: Ascending(tables[k]))
    && (forall j, k | 0 <= j <= k < |tables| :: tables[j] <= tables[k])
  }

  /** What one page does to the rows still to come, in the table of that visit or of any later one. */
  lemma PageSplits(rows: seq<Row>, rows': seq<Row>, user: nat, lastId: nat, limit: nat)
    requires rows <= rows' && Ascending(rows') && limit > 0
    ensures var page := Page(rows, user, lastId, limit);
            var next := if page == [] then lastId else page[|page| - 1].id;
            After(rows', user, lastId) == page + After(rows', user, next)
    ensures var page := Page(rows, user, lastId, limit); page != [] ==> page[|page| - 1].id < UINT64_LIMIT
  {
    hide After;
    var page, all := Page(rows, user, lastId, limit), After(rows', user, lastId);
    PageGrows(rows, rows', user, lastId, limit);
    assert page <= all;
    AfterMeaning(rows', user, lastId);
    assert page == [] ==> page + all == all;
    if page != [] {
      assert page[|page| - 1] in all;
      AfterSplits(rows', user, lastId, |page|);
    }
  }

  /**
   * Paging is gap-free and repeat-free: the pages, end to end, followed by the rows after the final
   * cursor, are the user's rows after the first cursor in id order; rows inserted between visits are
   * included, and once a page comes back empty nothing is missing.
   */
  lemma {:induction false} PagingIsExact(tables: seq<seq<Row>>, user: nat, cursor: string, limit: nat)
    requires tables != [] && History(tables) && limit > 0 && SeqId.Cursor(cursor).Ok?
    ensures var rows := tables[|tables| - 1];
            var (seen, end) := Pages(tables, user, cursor, limit);
            && SeqId.Cursor(end).Ok?
            && After(rows, user, SeqId.Cursor(cursor).value) == seen + After(rows, user, SeqId.Cursor(end).value)
            && (Page(rows, user, SeqId.Cursor(end).value, limit) == [] ==>
                  seen == After(rows, user, SeqId.Cursor(cursor).value))
  {
    hide After, Page, SeqIdOf, SeqId.Cursor, Ascending;
    var rows, lastId := tables[|tables| - 1], SeqId.Cursor(cursor).value;
    var page := Page(tables[0], user, lastId, limit);
    PageSplits(tables[0], rows, user, lastId, limit);
    var next := if page == [] then cursor else SeqIdOf(page[|page| - 1]);
    if page != [] {
      CursorOfLast(page[|page| - 1]);
    }
    var (rest, end) := Pages(tables[1..], user, next, limit);
    if |tables| > 1 {
      PagingIsExact(tables[1..], user, next, limit);
    }
    Assoc(page, rest, After(rows, user, SeqId.Cursor(end).value));
    EmptyPage(rows, user, SeqId.Cursor(end).value, limit);
  }

  lemma CursorOfLast(row: Row)
    ensures row.id < UINT64_LIMIT ==> SeqId.Cursor(SeqIdOf(row)) == Ok(row.id)
  {
    SeqId.CursorOfPrint(row.createdAt, row.id);
  }

  lemma Assoc(a: seq<Row>, b: seq<Row>, c: seq<Row>)
    ensures a + (b + c) == (a + b) + c
    ensures b == [] ==> a + b == a
    ensures c == [] ==> (a + b) + c == a + b
  {
  }

  lemma EmptyPage(rows: seq<Row>, user: nat, lastId: nat, limit: nat)
    requires limit > 0
    ensures Page(rows, user, lastId, limit) == [] <==> After(rows, user, lastId) == []
  {
  }
}
