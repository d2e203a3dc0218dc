/** The bound of 64 on one send is reached: every level fails as late as it can, three times each. */
module WorstSend {
  import opened Wrappers
  import opened MsgTables
  import opened MessageService
  import opened ChatLogic
  import opened SendPath
  import BodyDao = MsgBodyDao
  import IndexDao = MsgIndexDao
  import Retry

  /** Ids 1, 2, 3, ..., as in a table that no other call has used. */
  ghost predicate Dense(rows: seq<Row>, n: nat) {
    |rows| == n <= 64 && forall k | 0 <= k < n :: rows[k].id == k + 1
  }

  ghost predicate Filled(store: Store, msg: ChatMsg, n: nat) {
    Dense(store.rows, n) && store.docs[BodyOf(msg)] == n
  }

  /** Three attempts throw after their effect, the fourth succeeds. */
  function LateBody(): nat -> BodyDao.InsertEvent {
    (k: nat) => if k < 3 then BodyDao.Fails(true) else BodyDao.Stored
  }

  function LateIndex(): nat -> IndexDao.InsertEvent {
    (k: nat) => if k < 3 then IndexDao.FailsAfter(0, 0) else IndexDao.Inserted(0, 0)
  }

  function LateFaults(): nat -> Fault {
    (k: nat) => if k < 3 then ReplyLost else Delivered
  }

  function LateEnv(): SaveEnv {
    SaveEnv(LateFaults(), (j: nat) => LateBody(), (j: nat) => LateIndex())
  }

  function LateEnvs(): nat -> SaveEnv { (i: nat) => LateEnv() }

  lemma {:induction false} BodyFour(docs: multiset<MsgBody>, body: MsgBody, a: nat)
    requires a <= 3
    ensures var (docs', r, _) := Retry.Run(BodyDao.RETRIES, BodyDao.InsertBody(body, LateBody()), docs, a);
            docs'[body] == docs[body] + (4 - a) && r == Ok(true)
    decreases 4 - a
  {
    var f := BodyDao.InsertBody(body, LateBody());
    assert LateBody()(a) == if a < 3 then BodyDao.Fails(true) else BodyDao.Stored;
    if a < 3 {
      assert f(docs, a) == (docs + multiset{body}, Throw);
      BodyFour(docs + multiset{body}, body, a + 1);
    }
  }

  lemma {:induction false} IndexFour(rows: seq<Row>, index: MsgIndex, a: nat)
    requires a <= 3 && Dense(rows, |rows|) && |rows| + (4 - a) <= 64
    ensures var (rows', r, _) := Retry.Run(IndexDao.RETRIES, IndexDao.InsertBody(index, LateIndex()), rows, a);
            Dense(rows', |rows| + (4 - a)) && r.Ok? && r.value != ""
    decreases 4 - a
  {
    var f := IndexDao.InsertBody(index, LateIndex());
    var next := rows + [Row(IndexDao.NextId(rows, 0), index, 0)];
    assert LateIndex()(a) == if a < 3 then IndexDao.FailsAfter(0, 0) else IndexDao.Inserted(0, 0);
    if a < 3 {
      assert f(rows, a) == (next, Throw);
      IndexFour(next, index, a + 1);
    }
  }

  lemma OneRpcFour(store: Store, msg: ChatMsg, j: nat, n: nat)
    requires Filled(store, msg, n) && n + 4 <= 64
    ensures var (store', reply) := SaveRpc(LateEnv())(store, msg, j);
            && Filled(store', msg, n + 4)
            && (j == 3 ==> reply.Reply? && reply.code == 0) && (j < 3 ==> reply.StatusError?)
  {
    hide Retry.Run;
    assert LateEnv().body(j) == LateBody() && LateEnv().index(j) == LateIndex();
    BodyFour(store.docs, BodyOf(msg), 0);
    IndexFour(store.rows, IndexOf(msg), 0);
    var (store', seqId) := SaveResult(store, msg, LateBody(), LateIndex());
    assert Filled(store', msg, n + 4) && seqId != "";
  }

  lemma {:induction false} CallSixteen(store: Store, msg: ChatMsg, a: nat, n: nat)
    requires a <= 3 && Filled(store, msg, n) && n + 4 * (4 - a) <= 64
    ensures var (store', r, _) := Retry.Run(ChatLogic.RETRIES, SaveBody(msg, SaveRpc(LateEnv())), store, a);
            Filled(store', msg, n + 4 * (4 - a)) && r.Ok?
    decreases 4 - a
  {
    hide Filled, SaveRpc;
    OneRpcFour(store, msg, a, n);
    if a < 3 { CallSixteen(SaveRpc(LateEnv())(store, msg, a).0, msg, a + 1, n + 4); }
  }

  lemma {:induction false} ForwardAll(words: set<string>, msg: ChatMsg, out: ChatMsg, store: Store, a: nat, n: nat)
    requires a <= 3 && Sent(words, msg) == Some(out) && Filled(store, out, n) && n + 16 * (4 - a) <= 64
    ensures var (store', r, _) := Retry.Run(3, ForwardBody(words, msg, LateFaults(), LateEnvs()), store, a);
            Filled(store', out, n + 16 * (4 - a)) && r.Ok? && r.value.code == 0
    decreases 4 - a
  {
    hide Filled, SaveRpc, Sent;
    OneForwardSixteen(words, msg, out, store, a, n);
    if a < 3 {
      ForwardAll(words, msg, out, ForwardAttempt(words, msg, LateFaults()(a), LateEnv(), store).0, a + 1, n + 16);
    }
  }

  lemma OneForwardSixteen(words: set<string>, msg: ChatMsg, out: ChatMsg, store: Store, a: nat, n: nat)
    requires a <= 3 && Sent(words, msg) == Some(out) && Filled(store, out, n) && n + 16 <= 64
    ensures var (store', r) := ForwardAttempt(words, msg, LateFaults()(a), LateEnv(), store);
            && Filled(store', out, n + 16)
            && (a < 3 ==> r.Throw?) && (a == 3 ==> r.Ok? && r.value.code == 0)
  {
    hide Filled, SaveRpc, Sent, Retry.Run;
    CallSixteen(store, out, 0, n);
  }

  /**
   * For every accepted message there are failures under which one send leaves 64 rows and 64 bodies
   * behind, and the client sees code 0 all the same; on a table without a unique key, that is.
   */
  lemma SixtyFourIsReached(words: set<string>, msg: ChatMsg)
    requires Sent(words, msg).Some?
    ensures var (store, r) := SendResult(words, msg, LateFaults(), LateEnvs(), Store(multiset{}, []));
            && |store.rows| == 64 && store.docs[BodyOf(Sent(words, msg).value)] == 64
            && r.Ok? && r.value.code == 0
  {
    hide Retry.Run, Sent;
    ForwardAll(words, msg, Sent(words, msg).value, Store(multiset{}, []), 0, 0);
  }
}
