/**
 * message/src/service/message_service.cpp: SaveMessage writes the body first and the index second;
 * PullOfflineMessages reads a page of the index first and the bodies second.
 */
module MessageService {
  import opened Wrappers
  import opened MsgTables
  import BodyDao = MsgBodyDao
  import IndexDao = MsgIndexDao

  /** The fields of LogicChatMsg that the two stores keep. */
  datatype ChatMsg = ChatMsg(
    msgId: string, senderId: nat, receiverId: nat, sessionType: int, msgType: int, content: string)

  datatype Store = Store(docs: multiset<MsgBody>, rows: seq<Row>)

  function BodyOf(msg: ChatMsg): MsgBody {
    MsgBody(msg.msgId, msg.content, msg.msgType, msg.sessionType)
  }

  /** SaveMessage never sets seq_id: every row is stored with the empty string there. */
  function IndexOf(msg: ChatMsg): MsgIndex {
    MsgIndex(msg.msgId, msg.senderId, msg.receiverId, msg.sessionType, "")
  }

  ghost predicate HasBody(docs: multiset<MsgBody>, msgId: string) {
    exists d :: d in docs && d.msgId == msgId
  }

  /** Dual-write safety: every index row has a body. */
  ghost predicate BodiesCover(docs: multiset<MsgBody>, rows: seq<Row>) {
    forall row | row in rows :: HasBody(docs, row.index.msgId)
  }

  function SaveResult(store: Store, msg: ChatMsg, bodyEvents: nat -> BodyDao.InsertEvent,
                      indexEvents: nat -> IndexDao.InsertEvent): (Store, string)
  {
    var (docs, ok) := BodyDao.InsertResult(store.docs, BodyOf(msg), bodyEvents);
    if !ok then (store.(docs := docs), "")
    else
      var (rows, seqId) := IndexDao.InsertResult(store.rows, IndexOf(msg), indexEvents);
      (Store(docs, rows), seqId)
  }

  /** `store'` is `store` and at most `n` copies of the message's body and `n` rows for it. */
  ghost predicate Saves(store: Store, store': Store, msg: ChatMsg, n: nat) {
    && BodyDao.Extends(store.docs, store'.docs, BodyOf(msg), n)
    && IndexDao.Extends(store.rows, store'.rows, IndexOf(msg), n)
  }

  /** What saving leaves, field by field: rows and documents that carry the message, and nothing else. */
  lemma SavesMeans(store: Store, store': Store, msg: ChatMsg, n: nat)
    requires Saves(store, store', msg, n)
    ensures |store.rows| <= |store'.rows| <= |store.rows| + n && store'.rows[..|store.rows|] == store.rows
    ensures forall k | |store.rows| <= k < |store'.rows| :: var index := store'.rows[k].index;
              && index.msgId == msg.msgId && index.senderId == msg.senderId && index.receiverId == msg.receiverId
              && index.sessionType == msg.sessionType && index.seqId == ""
    ensures forall d :: store'.docs[d] != store.docs[d] ==>
              && store.docs[d] < store'.docs[d] <= store.docs[d] + n
              && d.msgId == msg.msgId && d.content == msg.content
              && d.msgType == msg.msgType && d.sessionType == msg.sessionType
  {
    var body := BodyOf(msg);
    forall d | d != body ensures store'.docs[d] == store.docs[d] {
      assert store'.docs[body := 0][d] == store.docs[body := 0][d];
    }
  }

  /**
   * Whatever fails, SaveMessage keeps every row covered by a body and writes only this message, four
   * times at most in each store; a non-empty result means that both stores got it in this call, and
   * it decodes to the id of the row stored last.
   */
  lemma SaveContract(store: Store, msg: ChatMsg, bodyEvents: nat -> BodyDao.InsertEvent,
                     indexEvents: nat -> IndexDao.InsertEvent)
    requires Ascending(store.rows) && BodiesCover(store.docs, store.rows)
    ensures var (store', seqId) := SaveResult(store, msg, bodyEvents, indexEvents);
            && BodiesCover(store'.docs, store'.rows)
            && Saves(store, store', msg, 4)
            && (seqId != "" ==>
                  && store'.docs[BodyOf(msg)] > store.docs[BodyOf(msg)]
                  && store'.rows != store.rows
                  && IndexDao.IsSeqIdOfLast(store'.rows, seqId))
  {
    hide BodyDao.InsertResult, IndexDao.InsertResult, Ascending, IndexDao.IsSeqIdOfLast;
    BodyDao.InsertContract(store.docs, BodyOf(msg), bodyEvents);
    IndexDao.InsertContract(store.rows, IndexOf(msg), indexEvents);
    var (docs, ok) := BodyDao.InsertResult(store.docs, BodyOf(msg), bodyEvents);
    var (rows, seqId) := IndexDao.InsertResult(store.rows, IndexOf(msg), indexEvents);
    CoverGrows(store.docs, docs, store.rows, BodyOf(msg));
    if ok {
      assert BodyOf(msg) in docs;
      CoverExtends(docs, store.rows, rows, IndexOf(msg));
    }
  }

  lemma CoverGrows(docs: multiset<MsgBody>, docs': multiset<MsgBody>, rows: seq<Row>, body: MsgBody)
    requires BodiesCover(docs, rows) && BodyDao.Extends(docs, docs', body, 4)
    ensures BodiesCover(docs', rows)
  {
    forall row | row in rows ensures HasBody(docs', row.index.msgId) {
      var d :| d in docs && d.msgId == row.index.msgId;
      assert docs'[body := 0][d] == docs[body := 0][d];
      assert d in docs';
    }
  }

  lemma CoverExtends(docs: multiset<MsgBody>, rows: seq<Row>, rows': seq<Row>, index: MsgIndex)
    requires BodiesCover(docs, rows) && IndexDao.Extends(rows, rows', index, 4) && HasBody(docs, index.msgId)
    ensures BodiesCover(docs, rows')
  {
    forall row | row in rows' ensures HasBody(docs, row.index.msgId) {
      var k :| 0 <= k < |rows'| && rows'[k] == row;
      assert k < |rows| ==> row == rows[k];
    }
  }

  // ----- PullOfflineMessages

  /** A pulled message carries what its body document holds; the other fields are not filled in. */
  datatype Pulled = Pulled(msgId: string, content: string, msgType: int, sessionType: int)

  function PulledOf(body: MsgBody): Pulled {
    Pulled(body.msgId, body.content, body.msgType, body.sessionType)
  }

  /** The tables and collections that the attempts of one pull see: both only grow, and bodies cover rows throughout. */
  ghost predicate Observed(tables: nat -> seq<Row>, docsAt: nat -> multiset<MsgBody>) {
    && IndexDao.Growing(tables)
    && (forall k: nat :: Ascending(tables(k)))
    && (forall j: nat, k: nat :: BodiesCover(docsAt(j), tables(k)))
  }

  ghost predicate HasRow(rows: seq<Row>, user: nat, msgId: string) {
    exists row :: row in rows && row.index.receiverId == user && row.index.msgId == msgId
  }

  /** The messages pulled are exactly those whose stored body has an id on the page. */
  ghost predicate PullsExactly(result: seq<Pulled>, docs: multiset<MsgBody>, page: seq<string>) {
    && (forall m | m in result :: exists d :: d in docs && d.msgId in page && m == PulledOf(d))
    && (forall d | d in docs && d.msgId in page :: PulledOf(d) in result)
  }

  /** What is on a page has a row of that user. */
  lemma PageHasRows(rows: seq<Row>, user: nat, cursor: string, limit: int, msgId: string)
    requires Ascending(rows) && msgId in IndexDao.Readable(rows, user, cursor, limit)
    ensures HasRow(rows, user, msgId)
  {
    var lastId := IndexDao.SeqId.Cursor(cursor).value;
    var page := Page(rows, user, lastId, limit);
    AfterMeaning(rows, user, lastId);
    var k :| 0 <= k < |page| && page[k].index.msgId == msgId;
    assert page[k] in After(rows, user, lastId);
  }

  lemma DedupMembers(ids: seq<string>, page: seq<string>)
    ensures IndexDao.Dedup(ids) <= IndexDao.Dedup(page) ==> forall x | x in ids :: x in page
    ensures IndexDao.Dedup(ids) == IndexDao.Dedup(page) ==> forall x :: x in ids <==> x in page
  {
    hide IndexDao.Dedup;
    var d, e := IndexDao.Dedup(ids), IndexDao.Dedup(page);
    assert forall x :: x in d <==> x in ids;
    assert forall x :: x in e <==> x in page;
  }

  class MessageService {
    const bodyDao: BodyDao.MsgBodyDao
    const indexDao: IndexDao.MsgIndexDao

    constructor ()
      ensures Valid() && fresh(bodyDao) && fresh(indexDao)
      ensures bodyDao.docs == multiset{} && indexDao.rows == []
    {
      bodyDao := new BodyDao.MsgBodyDao();
      indexDao := new IndexDao.MsgIndexDao();
    }

    ghost predicate Valid()
      reads bodyDao, indexDao
    {
      Ascending(indexDao.rows) && BodiesCover(bodyDao.docs, indexDao.rows)
    }

    method SaveMessage(msg: ChatMsg, bodyEvents: nat -> BodyDao.InsertEvent, indexEvents: nat -> IndexDao.InsertEvent)
      returns (seqId: string)
      requires Valid()
      modifies bodyDao, indexDao
      ensures Valid()
      ensures (Store(bodyDao.docs, indexDao.rows), seqId)
           == SaveResult(Store(old(bodyDao.docs), old(indexDao.rows)), msg, bodyEvents, indexEvents)
      ensures Saves(Store(old(bodyDao.docs), old(indexDao.rows)), Store(bodyDao.docs, indexDao.rows), msg, 4)
      ensures forall k | |old(indexDao.rows)| <= k < |indexDao.rows| :: var index := indexDao.rows[k].index;
                && index.msgId == msg.msgId && index.senderId == msg.senderId && index.receiverId == msg.receiverId
                && index.sessionType == msg.sessionType && index.seqId == ""
      ensures forall d :: bodyDao.docs[d] != old(bodyDao.docs)[d] ==>
                && d.msgId == msg.msgId && d.content == msg.content
                && d.msgType == msg.msgType && d.sessionType == msg.sessionType
      ensures seqId != "" ==> exists d :: bodyDao.docs[d] > old(bodyDao.docs)[d]
      ensures seqId != "" ==> indexDao.rows != old(indexDao.rows) && IndexDao.IsSeqIdOfLast(indexDao.rows, seqId)
    {
      hide BodyDao.InsertResult, IndexDao.InsertResult;
      ghost var store := Store(bodyDao.docs, indexDao.rows);
      SaveContract(store, msg, bodyEvents, indexEvents);
      SavesMeans(store, SaveResult(store, msg, bodyEvents, indexEvents).0, msg, 4);
      var body := MsgBody(msg.msgId, msg.content, msg.msgType, msg.sessionType);
      var stored := bodyDao.Insert(body, bodyEvents);
      if !stored {
        return "";
      }
      var index := MsgIndex(msg.msgId, msg.senderId, msg.receiverId, msg.sessionType, "");
      seqId := indexDao.Insert(index, indexEvents);
    }

    /**
     * Every message returned belongs to a row of this user and copies a stored body, in the state that
     * the last attempt of either read saw; if both reads finish, the messages are exactly the bodies of
     * the ids on the page, and every id has one.
     */
    method PullOfflineMessages(user: nat, beginSeq: string, limit: int,
                               tables: nat -> seq<Row>, fetchEvents: nat -> IndexDao.FetchEvent,
                               bodyEvents: nat -> BodyDao.ReadEvent, ghost docsAt: nat -> multiset<MsgBody>)
      returns (result: seq<Pulled>)
      requires Observed(tables, docsAt)
      requires BodyDao.ReadsFrom(docsAt, IndexDao.FetchResult(tables, fetchEvents, user, beginSeq, limit).0, bodyEvents)
      ensures EachHasRow(result, LastTable(tables, fetchEvents, user, beginSeq, limit), user)
      ensures var ids := IndexDao.FetchResult(tables, fetchEvents, user, beginSeq, limit).0;
              var docs := LastDocs(docsAt, ids, bodyEvents);
              EachIsStored(result, docs)
      ensures var bodies := BodyDao.BatchResult(
                              IndexDao.FetchResult(tables, fetchEvents, user, beginSeq, limit).0, bodyEvents).0;
              CopiesOf(result, bodies)
      ensures BothFinish(tables, fetchEvents, user, beginSeq, limit, bodyEvents) ==>
                var rows := LastTable(tables, fetchEvents, user, beginSeq, limit);
                var ids := IndexDao.FetchResult(tables, fetchEvents, user, beginSeq, limit).0;
                var docs := LastDocs(docsAt, ids, bodyEvents);
                && PullsExactly(result, docs, IndexDao.Readable(rows, user, beginSeq, limit))
                && AnswersAll(result, IndexDao.Readable(rows, user, beginSeq, limit))
    {
      hide *;
      ObservedGrows(tables, docsAt);
      var msgIds, _, _ := indexDao.FetchOfflineMsgIds(user, beginSeq, limit, tables, fetchEvents);
      if msgIds == [] {
        NothingToRead(bodyEvents);
        Copied([], []);
        result := [];
      } else {
        var bodies, _, _ := bodyDao.BatchGet(msgIds, bodyEvents, docsAt);
        result := CopyBodies(bodies);
      }
      PullContract(user, beginSeq, limit, tables, fetchEvents, bodyEvents, docsAt, result);
    }

    /** The loop over the bodies. */
    method CopyBodies(bodies: seq<MsgBody>) returns (result: seq<Pulled>)
      ensures CopiesOf(result, bodies)
    {
      result := [];
      for i := 0 to |bodies|
        invariant |result| == i && forall j | 0 <= j < i :: result[j] == PulledOf(bodies[j])
      {
        result := result + [PulledOf(bodies[i])];
      }
      Copied(bodies, result);
    }
  }

  /** One message for each body, with its four fields. */
  ghost predicate CopiesOf(result: seq<Pulled>, bodies: seq<MsgBody>) {
    && |result| == |bodies|
    && forall j | 0 <= j < |bodies| ::
         && result[j].msgId == bodies[j].msgId && result[j].content == bodies[j].content
         && result[j].msgType == bodies[j].msgType && result[j].sessionType == bodies[j].sessionType
  }

  /** Copying field by field keeps how often each document occurs. */
  lemma {:induction false} CopiesCount(bodies: seq<MsgBody>, result: seq<Pulled>, d: MsgBody)
    requires CopiesOf(result, bodies)
    ensures multiset(result)[Pulled(d.msgId, d.content, d.msgType, d.sessionType)] == multiset(bodies)[d]
  {
    if bodies != [] {
      var front, front' := bodies[..|bodies| - 1], result[..|result| - 1];
      CopiesCount(front, front', d);
      assert bodies == front + [bodies[|bodies| - 1]] && result == front' + [result[|result| - 1]];
    }
  }

  /**
   * What a pull returns when its first read of the bodies meets no failure, as a multiset: each document
   * whose id was fetched is in it as often as it is stored, once if it is stored once, and nothing else.
   */
  lemma CleanPull(docsAt: nat -> multiset<MsgBody>, ids: seq<string>, bodyEvents: nat -> BodyDao.ReadEvent,
                  result: seq<Pulled>, d: MsgBody)
    requires BodyDao.ReadsFrom(docsAt, ids, bodyEvents) && bodyEvents(0).ReadsAll?
    requires CopiesOf(result, BodyDao.BatchResult(ids, bodyEvents).0)
    ensures multiset(result)[Pulled(d.msgId, d.content, d.msgType, d.sessionType)] ==
            if d.msgId in ids then docsAt(0)[d] else 0
  {
    hide BodyDao.BatchResult, BodyDao.ReadsFrom;
    CopiesCount(BodyDao.BatchResult(ids, bodyEvents).0, result, d);
    BodyDao.CleanRead(docsAt, ids, bodyEvents, d);
  }

  /** The table that the last fetch attempt of a pull sees. */
  ghost function LastTable(tables: nat -> seq<Row>, fetchEvents: nat -> IndexDao.FetchEvent, user: nat, cursor: string,
                           limit: int): seq<Row>
  {
    var calls := IndexDao.FetchResult(tables, fetchEvents, user, cursor, limit).2;
    tables(if calls == 0 then 0 else calls - 1)
  }

  /** The collection that the last attempt to read these bodies sees. */
  ghost function LastDocs(docsAt: nat -> multiset<MsgBody>, ids: seq<string>, bodyEvents: nat -> BodyDao.ReadEvent)
    : multiset<MsgBody>
  {
    var calls := BodyDao.BatchResult(ids, bodyEvents).2;
    docsAt(if calls == 0 then 0 else calls - 1)
  }

  lemma ObservedGrows(tables: nat -> seq<Row>, docsAt: nat -> multiset<MsgBody>)
    requires Observed(tables, docsAt)
    ensures IndexDao.Growing(tables)
  {
  }

  lemma LastSeen(tables: nat -> seq<Row>, fetchEvents: nat -> IndexDao.FetchEvent, user: nat, cursor: string,
                 limit: int, bodyEvents: nat -> BodyDao.ReadEvent, docsAt: nat -> multiset<MsgBody>)
    ensures var (ids, fetched, calls) := IndexDao.FetchResult(tables, fetchEvents, user, cursor, limit);
            var (_, read, bodyCalls) := BodyDao.BatchResult(ids, bodyEvents);
            && (calls >= 1 ==> LastTable(tables, fetchEvents, user, cursor, limit) == tables(calls - 1))
            && (bodyCalls >= 1 ==> LastDocs(docsAt, ids, bodyEvents) == docsAt(bodyCalls - 1))
            && (BothFinish(tables, fetchEvents, user, cursor, limit, bodyEvents) <==> fetched.Ok? && read.Ok?)
  {
    hide IndexDao.FetchResult, BodyDao.BatchResult;
  }

  /** Neither read runs out of attempts. */
  ghost predicate BothFinish(tables: nat -> seq<Row>, fetchEvents: nat -> IndexDao.FetchEvent, user: nat,
                             cursor: string, limit: int, bodyEvents: nat -> BodyDao.ReadEvent)
  {
    var (ids, fetched, _) := IndexDao.FetchResult(tables, fetchEvents, user, cursor, limit);
    fetched.Ok? && BodyDao.BatchResult(ids, bodyEvents).1.Ok?
  }

  /** What a pull promises, of any messages that copy what the two retried reads return. */
  lemma PullContract(user: nat, cursor: string, limit: int, tables: nat -> seq<Row>,
                     fetchEvents: nat -> IndexDao.FetchEvent, bodyEvents: nat -> BodyDao.ReadEvent,
                     docsAt: nat -> multiset<MsgBody>, result: seq<Pulled>)
    requires Observed(tables, docsAt)
    requires var ids := IndexDao.FetchResult(tables, fetchEvents, user, cursor, limit).0;
             BodyDao.ReadsFrom(docsAt, ids, bodyEvents) && CopiesOf(result, BodyDao.BatchResult(ids, bodyEvents).0)
    ensures var rows := LastTable(tables, fetchEvents, user, cursor, limit);
            var docs := LastDocs(docsAt, IndexDao.FetchResult(tables, fetchEvents, user, cursor, limit).0, bodyEvents);
            var page := IndexDao.Readable(rows, user, cursor, limit);
            && EachHasRow(result, rows, user) && EachIsStored(result, docs)
            && (BothFinish(tables, fetchEvents, user, cursor, limit, bodyEvents) ==>
                  PullsExactly(result, docs, page) && AnswersAll(result, page))
  {
    hide *;
    ObservedGrows(tables, docsAt);
    var (ids, fetched, calls) := IndexDao.FetchResult(tables, fetchEvents, user, cursor, limit);
    var (bodies, read, bodyCalls) := BodyDao.BatchResult(ids, bodyEvents);
    IndexDao.RetriedFetch(tables, fetchEvents, user, cursor, limit);
    BodyDao.RetriedRead(docsAt, ids, bodyEvents);
    LastSeen(tables, fetchEvents, user, cursor, limit, bodyEvents, docsAt);
    var rows, docs := tables(calls - 1), docsAt(bodyCalls - 1);
    var page := IndexDao.Readable(rows, user, cursor, limit);
    DedupMembers(ids, page);
    Assembled(bodies, result, docs, ids, page);
    AllHaveRows(tables, docsAt, calls - 1, user, cursor, limit, result, docs, bodyCalls - 1);
    if fetched.Ok? && read.Ok? {
      EveryIdAnswered(result, docs, rows, user, page);
    }
  }

  lemma NothingToRead(bodyEvents: nat -> BodyDao.ReadEvent)
    ensures BodyDao.BatchResult([], bodyEvents) == ([], Ok(Unit), 1)
  {
  }

  lemma Copied(bodies: seq<MsgBody>, result: seq<Pulled>)
    requires |result| == |bodies| && forall j | 0 <= j < |bodies| :: result[j] == PulledOf(bodies[j])
    ensures CopiesOf(result, bodies)
  {
  }

  /** What copies of the bodies that the batch read returned are. */
  lemma Assembled(bodies: seq<MsgBody>, result: seq<Pulled>, docs: multiset<MsgBody>, msgIds: seq<string>,
                  page: seq<string>)
    requires CopiesOf(result, bodies)
    requires BodyDao.AllSelected(bodies, docs, msgIds) && forall x | x in msgIds :: x in page
    ensures EachOnPage(result, docs, page) && EachIsStored(result, docs)
    ensures (forall d | d in docs && d.msgId in msgIds :: d in bodies) && (forall x | x in page :: x in msgIds)
            ==> PullsExactly(result, docs, page)
  {
    forall m | m in result ensures exists d :: d in docs && d.msgId in page && m == PulledOf(d) {
      var j :| 0 <= j < |result| && result[j] == m;
      assert bodies[j] in bodies;
    }
    forall d | d in bodies ensures PulledOf(d) in result {
      var j :| 0 <= j < |bodies| && bodies[j] == d;
      assert result[j] in result;
    }
  }

  /** Every message belongs to a row of this user. */
  ghost predicate EachHasRow(result: seq<Pulled>, rows: seq<Row>, user: nat) {
    forall m | m in result :: HasRow(rows, user, m.msgId)
  }

  /** Every message copies a stored body. */
  ghost predicate EachIsStored(result: seq<Pulled>, docs: multiset<MsgBody>) {
    forall m | m in result :: exists d :: d in docs && m == PulledOf(d)
  }

  /** Every message copies a stored body whose id is on the page. */
  ghost predicate EachOnPage(result: seq<Pulled>, docs: multiset<MsgBody>, page: seq<string>) {
    forall m | m in result :: exists d :: d in docs && d.msgId in page && m == PulledOf(d)
  }

  /** Every id on the page has a message, and no other id has. */
  ghost predicate AnswersAll(result: seq<Pulled>, page: seq<string>) {
    forall x :: (exists m :: m in result && m.msgId == x) <==> x in page
  }

  /** Every message on the page has a row, and every row has a body. */
  lemma AllHaveRows(tables: nat -> seq<Row>, docsAt: nat -> multiset<MsgBody>, k: nat, user: nat, cursor: string,
                    limit: int, result: seq<Pulled>, docs: multiset<MsgBody>, j: nat)
    requires Observed(tables, docsAt) && docs == docsAt(j)
    requires EachOnPage(result, docs, IndexDao.Readable(tables(k), user, cursor, limit))
    ensures EachHasRow(result, tables(k), user)
    ensures forall x | x in IndexDao.Readable(tables(k), user, cursor, limit) :: HasRow(tables(k), user, x)
    ensures BodiesCover(docs, tables(k))
  {
    hide IndexDao.Readable, HasRow, Ascending, BodiesCover;
    forall x | x in IndexDao.Readable(tables(k), user, cursor, limit) ensures HasRow(tables(k), user, x) {
      PageHasRows(tables(k), user, cursor, limit, x);
    }
  }

  lemma EveryIdAnswered(result: seq<Pulled>, docs: multiset<MsgBody>, rows: seq<Row>, user: nat, page: seq<string>)
    requires PullsExactly(result, docs, page) && BodiesCover(docs, rows)
    requires forall x | x in page :: HasRow(rows, user, x)
    ensures AnswersAll(result, page)
  {
    forall x | x in page ensures exists m :: m in result && m.msgId == x {
      var row :| row in rows && row.index.receiverId == user && row.index.msgId == x;
      assert HasBody(docs, x);
      var d :| d in docs && d.msgId == x;
      assert PulledOf(d) in result;
    }
  }

  // ----- save, then pull

  /**
   * What was saved is pulled: after a SaveMessage that returned a sequence id, a finished pull by the
   * receiver from an earlier cursor, with a limit that covers the receiver's rows from there on, contains
   * the message with the id, text and types it was saved with, whatever came before and since.
   */
  lemma SavedIsPulled(store: Store, msg: ChatMsg, bodyEvents: nat -> BodyDao.InsertEvent,
                      indexEvents: nat -> IndexDao.InsertEvent, rows: seq<Row>, docs: multiset<MsgBody>,
                      cursor: string, limit: int, result: seq<Pulled>)
    requires Ascending(store.rows) && BodiesCover(store.docs, store.rows)
    requires SaveResult(store, msg, bodyEvents, indexEvents).1 != ""
    requires SaveResult(store, msg, bodyEvents, indexEvents).0.rows <= rows && Ascending(rows)
    requires SaveResult(store, msg, bodyEvents, indexEvents).0.docs <= docs
    requires IsCursorBefore(cursor, store.rows)
    requires limit >= |After(rows, msg.receiverId, IndexDao.SeqId.Cursor(cursor).value)|
    requires PullsExactly(result, docs, IndexDao.Readable(rows, msg.receiverId, cursor, limit))
    ensures Pulled(msg.msgId, msg.content, msg.msgType, msg.sessionType) in result
  {
    hide SaveResult, BodiesCover, IndexDao.IsSeqIdOfLast;
    SaveContract(store, msg, bodyEvents, indexEvents);
    var after := SaveResult(store, msg, bodyEvents, indexEvents).0;
    var k := |after.rows| - 1;
    NewRowIsBeyond(store.rows, after.rows, rows, IndexOf(msg), cursor);
    RowIsReadable(rows, rows[k], cursor, limit);
    assert BodyOf(msg) in after.docs;
    assert PulledOf(BodyOf(msg)) in result;
  }

  ghost predicate IsCursorBefore(cursor: string, rows: seq<Row>) {
    && IndexDao.SeqId.Cursor(cursor).Ok?
    && IndexDao.SeqId.Cursor(cursor).value <= if rows == [] then 0 else rows[|rows| - 1].id
  }

  /** The cursor of a client that has seen nothing is before every table. */
  lemma FirstCursorIsBefore(cursor: string, rows: seq<Row>)
    requires '_' !in cursor && Ascending(rows)
    ensures IsCursorBefore(cursor, rows)
  {
    IndexDao.SeqId.FirstCursor(cursor);
  }

  lemma NewRowIsBeyond(rows0: seq<Row>, rows1: seq<Row>, rows: seq<Row>, index: MsgIndex, cursor: string)
    requires IndexDao.Extends(rows0, rows1, index, 4) && rows1 != rows0 && rows1 <= rows && Ascending(rows)
    requires IsCursorBefore(cursor, rows0)
    ensures rows1 != [] && rows[|rows1| - 1].index == index
    ensures rows[|rows1| - 1].id > IndexDao.SeqId.Cursor(cursor).value
  {
    var k := |rows1| - 1;
    assert rows[k] == rows1[k];
    if rows0 != [] {
      assert rows[|rows0| - 1] == rows1[|rows0| - 1] == rows0[|rows0| - 1];
    }
  }

  lemma RowIsReadable(rows: seq<Row>, row: Row, cursor: string, limit: int)
    requires Ascending(rows) && row in rows
    requires IndexDao.SeqId.Cursor(cursor).Ok? && row.id > IndexDao.SeqId.Cursor(cursor).value
    requires limit >= |After(rows, row.index.receiverId, IndexDao.SeqId.Cursor(cursor).value)|
    ensures row.index.msgId in IndexDao.Readable(rows, row.index.receiverId, cursor, limit)
  {
    var lastId := IndexDao.SeqId.Cursor(cursor).value;
    var page := After(rows, row.index.receiverId, lastId);
    AfterMeaning(rows, row.index.receiverId, lastId);
    var k :| 0 <= k < |page| && page[k] == row;
    assert MsgIds(page)[k] == row.index.msgId;
  }

  // ----- save, then pull page by page

  /** The ids on the page of visit `k`, whose cursor the earlier visits have moved. */
  function PageOfVisit(tables: seq<seq<Row>>, user: nat, cursor: string, limit: nat, k: nat): seq<string>
    requires k < |tables|
  {
    IndexDao.Readable(tables[k], user, Pages(tables[..k], user, cursor, limit).1, limit)
  }

  /** The last visit's cursor has nothing behind it. */
  predicate ReadToEnd(tables: seq<seq<Row>>, user: nat, cursor: string, limit: nat)
    requires tables != []
  {
    var end := IndexDao.SeqId.Cursor(Pages(tables, user, cursor, limit).1);
    end.Ok? && Page(tables[|tables| - 1], user, end.value, limit) == []
  }

  /** A row that the pages hold between them is on one of them. */
  lemma {:induction false} VisitOfRow(tables: seq<seq<Row>>, user: nat, cursor: string, limit: nat, row: Row)
    returns (k: nat)
    requires row in Pages(tables, user, cursor, limit).0
    ensures k < |tables| && row.index.msgId in PageOfVisit(tables, user, cursor, limit, k)
  {
    hide Page, SeqIdOf, IndexDao.SeqId.Cursor;
    var lastId := IndexDao.SeqId.Cursor(cursor).value;
    var page := Page(tables[0], user, lastId, limit);
    if row in page {
      k := 0;
      var j :| 0 <= j < |page| && page[j] == row;
      assert MsgIds(page)[j] == row.index.msgId;
      assert tables[..0] == [];
    } else {
      var next := if page == [] then cursor else SeqIdOf(page[|page| - 1]);
      var j := VisitOfRow(tables[1..], user, next, limit, row);
      k := j + 1;
      assert tables[..k][0] == tables[0] && tables[..k][1..] == tables[1..][..j];
    }
  }

  /**
   * What was saved is on some page: for every positive limit, a receiver who reads page after page from
   * an earlier cursor until nothing is left, with rows and bodies added between the visits, is handed
   * the message with the id, text and types it was saved with.
   */
  lemma SavedIsOnSomePage(store: Store, msg: ChatMsg, bodyEvents: nat -> BodyDao.InsertEvent,
                          indexEvents: nat -> IndexDao.InsertEvent, tables: seq<seq<Row>>,
                          docs: seq<multiset<MsgBody>>, cursor: string, limit: nat, results: seq<seq<Pulled>>)
    requires Ascending(store.rows) && BodiesCover(store.docs, store.rows)
    requires SaveResult(store, msg, bodyEvents, indexEvents).1 != ""
    requires tables != [] && History(tables) && limit > 0 && |tables| == |docs| == |results|
    requires SaveResult(store, msg, bodyEvents, indexEvents).0.rows <= tables[0]
    requires forall k | 0 <= k < |docs| :: SaveResult(store, msg, bodyEvents, indexEvents).0.docs <= docs[k]
    requires IsCursorBefore(cursor, store.rows) && ReadToEnd(tables, msg.receiverId, cursor, limit)
    requires forall k | 0 <= k < |results| ::
               PullsExactly(results[k], docs[k], PageOfVisit(tables, msg.receiverId, cursor, limit, k))
    ensures exists k | 0 <= k < |results| :: Pulled(msg.msgId, msg.content, msg.msgType, msg.sessionType) in results[k]
  {
    hide SaveResult, BodiesCover, IndexDao.IsSeqIdOfLast, IndexDao.SeqId.Cursor, PageOfVisit, IndexDao.Readable, Page;
    SaveContract(store, msg, bodyEvents, indexEvents);
    var after := SaveResult(store, msg, bodyEvents, indexEvents).0;
    var rows, user := tables[|tables| - 1], msg.receiverId;
    assert tables[0] <= rows && Ascending(rows);
    assert after.rows <= rows;
    NewRowIsBeyond(store.rows, after.rows, rows, IndexOf(msg), cursor);
    var row := rows[|after.rows| - 1];
    AfterMeaning(rows, user, IndexDao.SeqId.Cursor(cursor).value);
    PagingIsExact(tables, user, cursor, limit);
    var k := VisitOfRow(tables, user, cursor, limit, row);
    assert BodyOf(msg) in after.docs;
    assert BodyOf(msg) in docs[k];
    assert PulledOf(BodyOf(msg)) in results[k];
  }
}
