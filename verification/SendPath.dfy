/**
 * One client send, end to end: the gateway's retried call of the logic service
 * (gateway/src/tcp_server.cpp), the logic service's retried call of the message service, and the
 * retried inserts of SaveMessage.
 *
 * The SaveMsg handler is not part of the repository; it is taken to call SaveMessage and to answer
 * code 0 exactly when the sequence id is not empty.
 */
module SendPath {
  import opened Wrappers
  import opened Decimal
  import opened MsgTables
  import opened MessageService
  import opened ChatLogic
  import BodyDao = MsgBodyDao
  import IndexDao = MsgIndexDao
  import Retry

  /** A call over the network: never arrives; arrives, but the answer is lost or late; or succeeds. */
  datatype Fault = Lost | ReplyLost | Delivered

  /** What the calls of one logic attempt meet: call `j` of SaveMsg, and attempt `k` of its inserts. */
  datatype SaveEnv = SaveEnv(faults: nat -> Fault, body: nat -> (nat -> BodyDao.InsertEvent),
                             index: nat -> (nat -> IndexDao.InsertEvent))

  const SAVE_FAILED: int := 1
  const INTERNAL_ERROR: int := 500

  function SaveRpc(env: SaveEnv): (Store, ChatMsg, nat) -> (Store, RpcReply) {
    (store: Store, msg: ChatMsg, j: nat) =>
      if env.faults(j).Lost? then (store, StatusError)
      else
        var (store', seqId) := SaveResult(store, msg, env.body(j), env.index(j));
        (store', if env.faults(j).ReplyLost? then StatusError
                 else Reply(if seqId == "" then SAVE_FAILED else 0, seqId))
  }

  /** The answer to the client: result code and sequence id. */
  datatype Answer = Answer(code: int, seqId: string)

  /** One attempt of ForwardToLogicService: only a gRPC error throws, a business error is an answer. */
  ghost function ForwardAttempt(words: set<string>, msg: ChatMsg, fault: Fault, env: SaveEnv, store: Store)
    : (Store, Outcome<Answer>)
  {
    if fault.Lost? then (store, Throw)
    else
      var (store', seqId) := ProcessResult(words, msg, SaveRpc(env), store);
      (store', if fault.ReplyLost? then Throw
               else Ok(if seqId.Some? then Answer(0, seqId.value) else Answer(INTERNAL_ERROR, "")))
  }

  ghost function ForwardBody(words: set<string>, msg: ChatMsg, faults: nat -> Fault, envs: nat -> SaveEnv)
    : (Store, nat) -> (Store, Outcome<Answer>)
  {
    (store: Store, i: nat) => ForwardAttempt(words, msg, faults(i), envs(i), store)
  }

  ghost function SendResult(words: set<string>, msg: ChatMsg, faults: nat -> Fault, envs: nat -> SaveEnv, store: Store)
    : (Store, Outcome<Answer>)
  {
    var (store', r, _) := Retry.Run(3, ForwardBody(words, msg, faults, envs), store, 0);
    (store', r)
  }

  ghost predicate Sound(store: Store) {
    Ascending(store.rows) && BodiesCover(store.docs, store.rows)
  }

  lemma SavesNothing(store: Store, msg: ChatMsg)
    requires Sound(store)
    ensures Saves(store, store, msg, 0)
  {
  }

  lemma SavesTwice(a: Store, b: Store, c: Store, msg: ChatMsg, m: nat, n: nat)
    requires Saves(a, b, msg, m) && Saves(b, c, msg, n)
    ensures Saves(a, c, msg, m + n)
  {
    assert a.rows <= c.rows;
    forall k | |a.rows| <= k < |c.rows| ensures c.rows[k].index == IndexOf(msg) {
      if k < |b.rows| {
        assert c.rows[k] == b.rows[k];
      }
    }
  }

  /** Both stores got the message between `store` and `store'`, and `seqId` is the sequence id of its last row. */
  ghost predicate Saved(store: Store, store': Store, msg: ChatMsg, seqId: string) {
    && store'.docs[BodyOf(msg)] > store.docs[BodyOf(msg)]
    && |store'.rows| > |store.rows| && store'.rows[|store'.rows| - 1].index == IndexOf(msg)
    && IndexDao.IsSeqIdOfLast(store'.rows, seqId)
  }

  lemma SavedLater(a: Store, b: Store, c: Store, msg: ChatMsg, m: nat, seqId: string)
    requires Saves(a, b, msg, m) && Saved(b, c, msg, seqId)
    ensures Saved(a, c, msg, seqId)
  {
  }

  lemma OneRpc(store: Store, msg: ChatMsg, env: SaveEnv, j: nat)
    requires Sound(store)
    ensures var (store', reply) := SaveRpc(env)(store, msg, j);
            && Sound(store') && Saves(store, store', msg, 4)
            && (reply.Reply? && reply.code == 0 ==> Saved(store, store', msg, reply.seqId))
  {
    hide SaveResult, Saves, IndexDao.IsSeqIdOfLast;
    SavesNothing(store, msg);
    SavesMore(store, store, msg, 0, 4);
    SaveContract(store, msg, env.body(j), env.index(j));
    SavedRow(store, SaveResult(store, msg, env.body(j), env.index(j)).0, msg);
  }

  lemma SavesMore(a: Store, b: Store, msg: ChatMsg, m: nat, n: nat)
    requires m <= n && Saves(a, b, msg, m)
    ensures Saves(a, b, msg, n)
  {
  }

  lemma SavedRow(a: Store, b: Store, msg: ChatMsg)
    ensures Saves(a, b, msg, 4) ==> Ascending(b.rows)
    ensures Saves(a, b, msg, 4) && b.rows != a.rows ==>
              |b.rows| > |a.rows| && b.rows[|b.rows| - 1].index == IndexOf(msg)
  {
  }

  lemma {:induction false} RpcStates(store: Store, msg: ChatMsg, env: SaveEnv, k: nat)
    requires Sound(store)
    ensures var store' := Retry.StateBefore(SaveBody(msg, SaveRpc(env)), store, k);
            Sound(store') && Saves(store, store', msg, 4 * k)
  {
    hide Sound, Saves, SaveRpc;
    if k == 0 {
      SavesNothing(store, msg);
    } else {
      RpcStates(store, msg, env, k - 1);
      var before := Retry.StateBefore(SaveBody(msg, SaveRpc(env)), store, k - 1);
      OneRpc(before, msg, env, k - 1);
      SavesTwice(store, before, SaveRpc(env)(before, msg, k - 1).0, msg, 4 * (k - 1), 4);
    }
  }

  /** The retried SaveMsg call: at most 16 rows, and both stores written if it succeeds. */
  lemma OneCall(store: Store, msg: ChatMsg, env: SaveEnv)
    requires Sound(store)
    ensures var (store', seqId) := CallSaveResult(msg, SaveRpc(env), store);
            && Sound(store') && Saves(store, store', msg, 16)
            && (seqId.Some? ==> Saved(store, store', msg, seqId.value))
  {
    hide Sound, Saves, SaveRpc, Retry.Run, Saved, Retry.StateBefore;
    var body := SaveBody(msg, SaveRpc(env));
    Retry.RetryContract(RETRIES, body, store);
    var (store', r, n) := Retry.Run(RETRIES, body, store, 0);
    var before := Retry.StateBefore(body, store, n - 1);
    RpcStates(store, msg, env, n - 1);
    OneRpc(before, msg, env, n - 1);
    SavesTwice(store, before, store', msg, 4 * (n - 1), 4);
    SavesMore(store, store', msg, 4 * n, 16);
    if r.Ok? {
      SavedLater(store, before, store', msg, 4 * (n - 1), r.value);
    }
  }

  /** One attempt of the gateway, for an accepted message `out`. */
  lemma OneForward(words: set<string>, msg: ChatMsg, fault: Fault, env: SaveEnv, store: Store, out: ChatMsg)
    requires Sound(store) && Sent(words, msg) == Some(out)
    ensures var (store', r) := ForwardAttempt(words, msg, fault, env, store);
            && Sound(store') && Saves(store, store', out, 16)
            && (r.Ok? && r.value.code == 0 ==> Saved(store, store', out, r.value.seqId))
  {
    hide Sound, Saves, SaveRpc, Saved, CallSaveResult, Sent;
    OneCall(store, out, env);
    SavesNothing(store, out);
    SavesMore(store, store, out, 0, 16);
  }

  lemma {:induction false} ForwardStates(words: set<string>, msg: ChatMsg, faults: nat -> Fault,
                                         envs: nat -> SaveEnv, store: Store, k: nat, out: ChatMsg)
    requires Sound(store) && Sent(words, msg) == Some(out)
    ensures var store' := Retry.StateBefore(ForwardBody(words, msg, faults, envs), store, k);
            Sound(store') && Saves(store, store', out, 16 * k)
  {
    hide Sound, Saves, Sent, ForwardAttempt;
    if k == 0 {
      SavesNothing(store, out);
    } else {
      ForwardStates(words, msg, faults, envs, store, k - 1, out);
      var body := ForwardBody(words, msg, faults, envs);
      var before := Retry.StateBefore(body, store, k - 1);
      OneForward(words, msg, faults(k - 1), envs(k - 1), before, out);
      SavesTwice(store, before, body(before, k - 1).0, out, 16 * (k - 1), 16);
    }
  }

  /**
   * Retry amplification: one client send, whatever fails on the way, stores at most 4 * 4 * 4 = 64 index
   * rows and 64 bodies, all for the masked message; and if the client sees code 0, both stores got the
   * message during this send and the sequence id it sees is that of a row of this send.
   */
  lemma Amplification(words: set<string>, msg: ChatMsg, faults: nat -> Fault, envs: nat -> SaveEnv, store: Store)
    requires Sound(store)
    ensures var (store', r) := SendResult(words, msg, faults, envs, store);
            var out := Sent(words, msg);
            && Sound(store')
            && (out.None? ==> store' == store && (r.Ok? ==> r.value.code == INTERNAL_ERROR))
            && (out.Some? ==> Saves(store, store', out.value, 64))
            && (r.Ok? && r.value.code == 0 ==> out.Some? && Saved(store, store', out.value, r.value.seqId))
  {
    hide Sound, Saves, Retry.Run, Saved, Retry.StateBefore, ForwardAttempt, Sent;
    var body := ForwardBody(words, msg, faults, envs);
    Retry.RetryContract(3, body, store);
    var (store', r, n) := Retry.Run(3, body, store, 0);
    var before := Retry.StateBefore(body, store, n - 1);
    match Sent(words, msg)
    case None =>
      NothingSent(words, msg, faults, envs, store, n - 1);
      RefusedForward(words, msg, faults(n - 1), envs(n - 1), store);
    case Some(out) =>
      ForwardStates(words, msg, faults, envs, store, n - 1, out);
      OneForward(words, msg, faults(n - 1), envs(n - 1), before, out);
      SavesTwice(store, before, store', out, 16 * (n - 1), 16);
      SavesMore(store, store', out, 16 * n, 64);
      if r.Ok? && r.value.code == 0 {
        SavedLater(store, before, store', out, 16 * (n - 1), r.value.seqId);
      }
  }

  lemma RefusedForward(words: set<string>, msg: ChatMsg, fault: Fault, env: SaveEnv, store: Store)
    requires Sent(words, msg).None?
    ensures var (store', r) := ForwardAttempt(words, msg, fault, env, store);
            store' == store && (r.Ok? ==> r.value.code == INTERNAL_ERROR)
  {
  }

  lemma {:induction false} NothingSent(words: set<string>, msg: ChatMsg, faults: nat -> Fault,
                                       envs: nat -> SaveEnv, store: Store, k: nat)
    requires Sent(words, msg).None?
    ensures Retry.StateBefore(ForwardBody(words, msg, faults, envs), store, k) == store
  {
    if k > 0 {
      NothingSent(words, msg, faults, envs, store, k - 1);
      RefusedForward(words, msg, faults(k - 1), envs(k - 1), store);
    }
  }

  // ----- when a send is answered

  /**
   * The send is answered exactly if one of the gateway's four requests is; the first such answer is the
   * one the client sees, and after four without one the exception leaves the retry loop.
   */
  lemma SendFinishes(words: set<string>, msg: ChatMsg, faults: nat -> Fault, envs: nat -> SaveEnv, store: Store)
    ensures var (store', r) := SendResult(words, msg, faults, envs, store);
            var body := ForwardBody(words, msg, faults, envs);
            && (r.Ok? <==> exists k: nat :: k < 4 && faults(k).Delivered?)
            && (forall n: nat | n < 4 && faults(n).Delivered? && forall k: nat | k < n :: !faults(k).Delivered? ::
                  (store', r) == body(Retry.StateBefore(body, store, n), n))
            && ((forall k: nat | k < 4 :: faults(k).Lost?) ==> store' == store)
  {
    hide Retry.Run, ProcessResult, SaveRpc, ForwardAttempt, Retry.StateBefore;
    var body := ForwardBody(words, msg, faults, envs);
    Retry.RetryContract(3, body, store);
    var (store', r, n) := Retry.Run(3, body, store, 0);
    forall k: nat ensures Retry.Throws(body, store, k) <==> !faults(k).Delivered? {
      ForwardOutcome(words, msg, faults, envs, Retry.StateBefore(body, store, k), k);
    }
    forall m: nat | m < 4 && faults(m).Delivered? && forall k: nat | k < m :: !faults(k).Delivered?
      ensures m == n - 1
    {
      assert !Retry.Throws(body, store, m);
      assert r.Ok?;
      assert !Retry.Throws(body, store, n - 1);
      assert !(m < n - 1) && !(n - 1 < m);
    }
    if forall k: nat | k < 4 :: faults(k).Lost? {
      LostLeavesNothing(words, msg, faults, envs, store, n);
      StateAfter(body, store, n - 1);
    }
  }

  lemma StateAfter<S, T>(body: (S, nat) -> (S, Outcome<T>), s: S, k: nat)
    ensures Retry.StateBefore(body, s, k + 1) == body(Retry.StateBefore(body, s, k), k).0
  {
  }

  lemma ForwardOutcome(words: set<string>, msg: ChatMsg, faults: nat -> Fault, envs: nat -> SaveEnv, store: Store,
                       k: nat)
    ensures var (after, seqId) := ProcessResult(words, msg, SaveRpc(envs(k)), store);
            ForwardBody(words, msg, faults, envs)(store, k) ==
              match faults(k)
              case Lost => (store, Throw)
              case ReplyLost => (after, Throw)
              case Delivered => (after, Ok(if seqId.Some? then Answer(0, seqId.value) else Answer(500, "")))
  {
    hide ProcessResult, SaveRpc;
  }

  lemma {:induction false} LostLeavesNothing(words: set<string>, msg: ChatMsg, faults: nat -> Fault,
                                             envs: nat -> SaveEnv, store: Store, k: nat)
    requires forall j: nat | j < k :: faults(j).Lost?
    ensures Retry.StateBefore(ForwardBody(words, msg, faults, envs), store, k) == store
  {
    hide ForwardBody, ProcessResult, SaveRpc;
    if k > 0 {
      LostLeavesNothing(words, msg, faults, envs, store, k - 1);
      ForwardOutcome(words, msg, faults, envs, store, k - 1);
    }
  }

  // ----- sends without failures

  /** An answer that arrives ends the send, whatever its code: business errors are not retried. */
  lemma FirstAnswerCounts(words: set<string>, msg: ChatMsg, faults: nat -> Fault, envs: nat -> SaveEnv, store: Store)
    requires faults(0).Delivered?
    ensures var (store', r) := SendResult(words, msg, faults, envs, store);
            var (after, seqId) := ProcessResult(words, msg, SaveRpc(envs(0)), store);
            store' == after && r == Ok(if seqId.Some? then Answer(0, seqId.value) else Answer(500, ""))
  {
    hide ProcessResult, SaveRpc, ForwardBody;
    ForwardOutcome(words, msg, faults, envs, store, 0);
  }

  /** A refused message is answered with code 500 and leaves no trace. */
  lemma RefusedSend(words: set<string>, msg: ChatMsg, faults: nat -> Fault, envs: nat -> SaveEnv, store: Store)
    requires faults(0).Delivered?
    requires !(msg.sessionType == 1 && msg.senderId != msg.receiverId)
    requires !(msg.sessionType == 2 && msg.receiverId != 0)
    ensures SendResult(words, msg, faults, envs, store) == (store, Ok(Answer(500, "")))
  {
    WhatIsSent(words, msg);
    FirstAnswerCounts(words, msg, faults, envs, store);
  }

  /** Nothing fails at the first try of either insert, and an id is left. */
  ghost predicate NothingFails(env: SaveEnv, store: Store) {
    && env.faults(0).Delivered? && env.body(0)(0).Stored? && env.index(0)(0).Inserted?
    && IndexDao.NextId(store.rows, env.index(0)(0).skip) < UINT64_LIMIT
  }

  /**
   * A send that meets no failure, from the client's request to the two stores, word for word: one body
   * with the masked text, one row with the next free id, and an answer with code 0 and that row's
   * sequence id.
   */
  lemma CleanSend(words: set<string>, msg: ChatMsg, faults: nat -> Fault, envs: nat -> SaveEnv, store: Store)
    requires faults(0).Delivered? && NothingFails(envs(0), store)
    requires (msg.sessionType == 1 && msg.senderId != msg.receiverId) || (msg.sessionType == 2 && msg.receiverId != 0)
    ensures var ev := envs(0).index(0)(0);
            var id := IndexDao.NextId(store.rows, ev.skip);
            var index := MsgIndex(msg.msgId, msg.senderId, msg.receiverId, msg.sessionType, "");
            var text := if msg.msgType == 1 then FilterSpec.Mask(words, msg.content) else msg.content;
            SendResult(words, msg, faults, envs, store) ==
              (Store(store.docs + multiset{MsgBody(msg.msgId, text, msg.msgType, msg.sessionType)},
                     store.rows + [Row(id, index, ev.nowMs)]),
               Ok(Answer(0, "SEQ_" + SignedToString(ev.nowMs) + "_" + ToString(id))))
  {
    hide FilterSpec.Mask, Sent, SaveRpc, ToString, SignedToString;
    WhatIsSent(words, msg);
    FirstAnswerCounts(words, msg, faults, envs, store);
    CleanSave(envs(0), Sent(words, msg).value, store);
  }

  lemma CleanSave(env: SaveEnv, msg: ChatMsg, store: Store)
    requires NothingFails(env, store)
    ensures var ev := env.index(0)(0);
            var id := IndexDao.NextId(store.rows, ev.skip);
            var index := MsgIndex(msg.msgId, msg.senderId, msg.receiverId, msg.sessionType, "");
            CallSaveResult(msg, SaveRpc(env), store) ==
              (Store(store.docs + multiset{MsgBody(msg.msgId, msg.content, msg.msgType, msg.sessionType)},
                     store.rows + [Row(id, index, ev.nowMs)]),
               Some("SEQ_" + SignedToString(ev.nowMs) + "_" + ToString(id)))
  {
    hide ToString, SignedToString;
    var ev := env.index(0)(0);
    var id := IndexDao.NextId(store.rows, ev.skip);
    assert BodyDao.InsertResult(store.docs, BodyOf(msg), env.body(0)) == (store.docs + multiset{BodyOf(msg)}, true);
    assert IndexDao.InsertBody(IndexOf(msg), env.index(0))(store.rows, 0) ==
           (store.rows + [Row(id, IndexOf(msg), ev.nowMs)], Ok(IndexDao.SeqId.Print(ev.nowMs, id)));
    assert SaveResult(store, msg, env.body(0), env.index(0)).1 != "";
  }
}
