/** message/src/dao/msg_body_dao.cpp: the retried insert of a document, and the retried batch read. */
module MsgBodyDao {
  import opened Wrappers
  import opened MsgTables
  import Retry

  const RETRIES: int := 3

  // ----- Insert

  /**
   * What one attempt to insert meets: an exception, before or after the document was stored; a reply
   * without an object id, which Insert reports as false; or a stored document.
   */
  datatype InsertEvent = Fails(stored: bool) | NoObjectId(stored: bool) | Stored

  function InsertAttempt(docs: multiset<MsgBody>, body: MsgBody, ev: InsertEvent): (multiset<MsgBody>, Outcome<bool>) {
    (if ev.Stored? || ev.stored then docs + multiset{body} else docs,
     if ev.Fails? then Throw else Ok(ev.Stored?))
  }

  function InsertBody(body: MsgBody, events: nat -> InsertEvent)
    : (multiset<MsgBody>, nat) -> (multiset<MsgBody>, Outcome<bool>)
  {
    (docs: multiset<MsgBody>, k: nat) => InsertAttempt(docs, body, events(k))
  }

  function InsertResult(docs: multiset<MsgBody>, body: MsgBody, events: nat -> InsertEvent): (multiset<MsgBody>, bool) {
    var (docs', r, _) := Retry.Run(RETRIES, InsertBody(body, events), docs, 0);
    (docs', r.Ok? && r.value)
  }

  /** `docs'` is `docs` and at most `n` more copies of `body`. */
  ghost predicate Extends(docs: multiset<MsgBody>, docs': multiset<MsgBody>, body: MsgBody, n: nat) {
    && docs[body] <= docs'[body] <= docs[body] + n
    && docs'[body := 0] == docs[body := 0]
  }

  lemma AttemptExtends(docs: multiset<MsgBody>, docs': multiset<MsgBody>, body: MsgBody, n: nat, ev: InsertEvent)
    requires Extends(docs, docs', body, n)
    ensures var (docs'', r) := InsertAttempt(docs', body, ev);
            Extends(docs, docs'', body, n + 1) && (r == Ok(true) ==> docs''[body] > docs[body])
  {
    assert (docs' + multiset{body})[body] == docs'[body] + 1;
    assert (docs' + multiset{body})[body := 0] == docs'[body := 0];
  }

  lemma {:induction false} StatesExtend(docs: multiset<MsgBody>, body: MsgBody, events: nat -> InsertEvent, k: nat)
    ensures Extends(docs, Retry.StateBefore(InsertBody(body, events), docs, k), body, k)
  {
    if k > 0 {
      StatesExtend(docs, body, events, k - 1);
      AttemptExtends(docs, Retry.StateBefore(InsertBody(body, events), docs, k - 1), body, k - 1, events(k - 1));
    }
  }

  /**
   * One Insert stores at most four copies of its document and nothing else, and when it reports
   * success a copy was stored by the call itself.
   */
  lemma InsertContract(docs: multiset<MsgBody>, body: MsgBody, events: nat -> InsertEvent)
    ensures var (docs', ok) := InsertResult(docs, body, events);
            && Extends(docs, docs', body, 4)
            && (ok ==> docs'[body] > docs[body])
  {
    hide Retry.Run, Retry.StateBefore;
    var f := InsertBody(body, events);
    var (docs', r, n) := Retry.Run(RETRIES, f, docs, 0);
    Retry.RetryContract(RETRIES, f, docs);
    StatesExtend(docs, body, events, n - 1);
    AttemptExtends(docs, Retry.StateBefore(f, docs, n - 1), body, n - 1, events(n - 1));
  }

  /** Did the attempt leave its document behind? */
  predicate StoresBody(ev: InsertEvent) { ev.Stored? || ev.stored }

  function BodiesStored(events: nat -> InsertEvent, k: nat): nat {
    if k == 0 then 0 else BodiesStored(events, k - 1) + if StoresBody(events(k - 1)) then 1 else 0
  }

  lemma {:induction false} StoredBefore(docs: multiset<MsgBody>, body: MsgBody, events: nat -> InsertEvent, k: nat)
    ensures Retry.StateBefore(InsertBody(body, events), docs, k)[body] == docs[body] + BodiesStored(events, k)
  {
    if k > 0 { StoredBefore(docs, body, events, k - 1); }
  }

  /**
   * One Insert, attempt by attempt: it stops at the first of four attempts that throws no exception and
   * reports success exactly if that one got an object id back; it has stored one copy of its document
   * for each attempt that left one behind.
   */
  lemma InsertStepByStep(docs: multiset<MsgBody>, body: MsgBody, events: nat -> InsertEvent)
    ensures var (docs', ok) := InsertResult(docs, body, events);
            var n := Retry.Run(RETRIES, InsertBody(body, events), docs, 0).2;
            && 1 <= n <= 4
            && docs'[body] == docs[body] + BodiesStored(events, n)
            && (forall k | 0 <= k < n - 1 :: events(k).Fails?)
            && (events(n - 1).Fails? ==> n == 4)
            && (ok <==> events(n - 1).Stored?)
  {
    hide Retry.Run, Retry.StateBefore, BodiesStored, InsertAttempt;
    var f := InsertBody(body, events);
    Retry.RetryContract(RETRIES, f, docs);
    var n := Retry.Run(RETRIES, f, docs, 0).2;
    var before := Retry.StateBefore(f, docs, n - 1);
    AttemptOutcome(before, body, events(n - 1));
    StoredBefore(docs, body, events, n);
    LastIsNext(docs, body, events, n - 1);
    forall k: nat ensures Retry.Throws(f, docs, k) <==> events(k).Fails? {
      AttemptOutcome(Retry.StateBefore(f, docs, k), body, events(k));
    }
  }

  lemma AttemptOutcome(docs: multiset<MsgBody>, body: MsgBody, ev: InsertEvent)
    ensures InsertAttempt(docs, body, ev).1 == if ev.Fails? then Throw else Ok(ev.Stored?)
  {
  }

  lemma LastIsNext(docs: multiset<MsgBody>, body: MsgBody, events: nat -> InsertEvent, k: nat)
    ensures Retry.StateBefore(InsertBody(body, events), docs, k + 1)
            == InsertBody(body, events)(Retry.StateBefore(InsertBody(body, events), docs, k), k).0
  {
  }

  // ----- BatchGet

  /** One pass of the cursor: the documents it delivers, in some order, before it throws or ends. */
  datatype ReadEvent = ReadFails(got: seq<MsgBody>) | ReadsAll(got: seq<MsgBody>)

  /** {msg_id: {$in: ids}} selects this many copies of `d`. */
  function Selected(docs: multiset<MsgBody>, ids: seq<string>, d: MsgBody): nat {
    if d.msgId in ids then docs[d] else 0
  }

  /** A cursor that ends has delivered what the filter selects; one that throws, a part of it. */
  ghost predicate Delivers(docs: multiset<MsgBody>, ids: seq<string>, ev: ReadEvent) {
    && (forall d :: multiset(ev.got)[d] <= Selected(docs, ids, d))
    && (ev.ReadsAll? ==> forall d :: multiset(ev.got)[d] == Selected(docs, ids, d))
  }

  function BatchBody(events: nat -> ReadEvent): (seq<MsgBody>, nat) -> (seq<MsgBody>, Outcome<Unit>) {
    (acc: seq<MsgBody>, k: nat) => (acc + events(k).got, if events(k).ReadsAll? then Ok(Unit) else Throw)
  }

  /** The cursor loop of one attempt. */
  method ReadOnce(acc: seq<MsgBody>, events: nat -> ReadEvent, k: nat) returns (result: seq<MsgBody>, r: Outcome<Unit>)
    ensures (result, r) == BatchBody(events)(acc, k)
  {
    var cursor := events(k).got;
    result := acc;
    for i := 0 to |cursor|
      invariant result == acc + cursor[..i]
    {
      result := result + [cursor[i]];
    }
    assert cursor[..|cursor|] == cursor;
    r := if events(k).ReadsAll? then Ok(Unit) else Throw;
  }

  /** The result vector, which all attempts append to, when the retry loop is left. */
  function BatchResult(ids: seq<string>, events: nat -> ReadEvent): (seq<MsgBody>, Outcome<Unit>, nat) {
    if ids == [] then ([], Ok(Unit), 1) else Retry.Run(RETRIES, BatchBody(events), [], 0)
  }

  /** The collection during the read: `docsAt(k)` is what attempt `k` reads, and documents are never removed. */
  ghost predicate ReadsFrom(docsAt: nat -> multiset<MsgBody>, ids: seq<string>, events: nat -> ReadEvent) {
    && (forall j: nat, k: nat | j <= k :: docsAt(j) <= docsAt(k))
    && (forall k: nat :: Delivers(docsAt(k), ids, events(k)))
  }

  ghost predicate AllSelected(acc: seq<MsgBody>, docs: multiset<MsgBody>, ids: seq<string>) {
    forall d | d in acc :: d in docs && d.msgId in ids
  }

  lemma DeliveredIsSelected(docs: multiset<MsgBody>, ids: seq<string>, ev: ReadEvent)
    requires Delivers(docs, ids, ev)
    ensures AllSelected(ev.got, docs, ids)
    ensures ev.ReadsAll? ==> forall d | d in docs && d.msgId in ids :: d in ev.got
  {
    forall d | d in ev.got ensures d in docs && d.msgId in ids {
      assert multiset(ev.got)[d] > 0;
    }
    if ev.ReadsAll? {
      forall d | d in docs && d.msgId in ids ensures d in ev.got {
        assert multiset(ev.got)[d] == Selected(docs, ids, d) > 0;
      }
    }
  }

  lemma {:induction false} LeftoversSelected(
    docsAt: nat -> multiset<MsgBody>, ids: seq<string>, events: nat -> ReadEvent, k: nat)
    requires ReadsFrom(docsAt, ids, events)
    ensures AllSelected(Retry.StateBefore(BatchBody(events), [], k), docsAt(k), ids)
  {
    if k > 0 {
      LeftoversSelected(docsAt, ids, events, k - 1);
      DeliveredIsSelected(docsAt(k - 1), ids, events(k - 1));
      assert docsAt(k - 1) <= docsAt(k);
    }
  }

  /**
   * What the retried read returns, whether or not it gave up: only stored documents that were asked
   * for; and all of them once an attempt ended without an exception, repetitions aside.
   */
  lemma RetriedRead(docsAt: nat -> multiset<MsgBody>, ids: seq<string>, events: nat -> ReadEvent)
    requires ReadsFrom(docsAt, ids, events)
    ensures var (bodies, r, n) := BatchResult(ids, events);
            && 1 <= n <= 4
            && AllSelected(bodies, docsAt(n - 1), ids)
            && (r.Ok? ==> forall d | d in docsAt(n - 1) && d.msgId in ids :: d in bodies)
  {
    hide Retry.Run, Retry.StateBefore, Delivers;
    if ids != [] {
      var f := BatchBody(events);
      var (bodies, r, n) := Retry.Run(RETRIES, f, [], 0);
      Retry.RetryContract(RETRIES, f, []);
      LeftoversSelected(docsAt, ids, events, n - 1);
      DeliveredIsSelected(docsAt(n - 1), ids, events(n - 1));
    }
  }

  /** The read finishes exactly if one of the attempts 0 to 3 does; it stops at the first, or makes all four. */
  lemma ReadFinishes(ids: seq<string>, events: nat -> ReadEvent)
    requires ids != []
    ensures var (bodies, r, n) := BatchResult(ids, events);
            && (r.Ok? <==> exists k: nat :: k < 4 && events(k).ReadsAll?)
            && (r.Ok? ==> 1 <= n <= 4 && events(n - 1).ReadsAll? && forall k | 0 <= k < n - 1 :: !events(k).ReadsAll?)
            && (r.Throw? ==> n == 4)
  {
    hide Retry.Run, Retry.StateBefore;
    var f := BatchBody(events);
    Retry.RetryContract(RETRIES, f, []);
    forall k: nat ensures Retry.Throws(f, [], k) <==> !events(k).ReadsAll? {}
  }

  /** Without a failure every document that was asked for is returned as often as it is stored, and no other. */
  lemma CleanRead(docsAt: nat -> multiset<MsgBody>, ids: seq<string>, events: nat -> ReadEvent, d: MsgBody)
    requires ReadsFrom(docsAt, ids, events) && events(0).ReadsAll?
    ensures multiset(BatchResult(ids, events).0)[d] == if d.msgId in ids then docsAt(0)[d] else 0
  {
    if ids != [] {
      assert Delivers(docsAt(0), ids, events(0));
      assert BatchResult(ids, events).0 == [] + events(0).got == events(0).got;
    }
  }

  class MsgBodyDao {
    /** The collection chat_db.messages. */
    var docs: multiset<MsgBody>

    constructor ()
      ensures docs == multiset{}
    {
      docs := multiset{};
    }

    method Insert(body: MsgBody, events: nat -> InsertEvent) returns (ok: bool)
      modifies this
      ensures (docs, ok) == InsertResult(old(docs), body, events)
      ensures Extends(old(docs), docs, body, 4)
      ensures ok ==> docs[body] > old(docs)[body]
    {
      hide Retry.Run;
      InsertContract(docs, body, events);
      var docs', r, _ := Retry.ExecuteWithRetry(RETRIES, InsertBody(body, events), docs);
      docs := docs';
      ok := r.Ok? && r.value;
    }

    /** The vector is returned as it is, also when the retry loop gave up. */
    method BatchGet(msgIds: seq<string>, events: nat -> ReadEvent, ghost docsAt: nat -> multiset<MsgBody>)
      returns (bodies: seq<MsgBody>, ghost read: bool, ghost calls: nat)
      requires ReadsFrom(docsAt, msgIds, events)
      ensures bodies == BatchResult(msgIds, events).0
      ensures (read <==> BatchResult(msgIds, events).1.Ok?) && calls == BatchResult(msgIds, events).2
      ensures 1 <= calls <= 4 && AllSelected(bodies, docsAt(calls - 1), msgIds)
      ensures read ==> forall d | d in docsAt(calls - 1) && d.msgId in msgIds :: d in bodies
    {
      hide Retry.Run;
      RetriedRead(docsAt, msgIds, events);
      if msgIds == [] {
        return [], true, 1;
      }
      var r, n;
      bodies, r, n := Retry.ExecuteWithRetry(RETRIES, BatchBody(events), []);
      read, calls := r.Ok?, n;
    }
  }
}
