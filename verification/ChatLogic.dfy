/**
 * logic/src/chat_handler.cpp and logic/src/message_processor.cpp: validate a message, mask its text,
 * and hand it to the message service with a retried call.
 */
module ChatLogic {
  import opened Wrappers
  import opened MessageService
  import FilterSpec
  import WordFilter
  import Retry

  const RETRIES: int := 3
  const TEXT: int := 1
  const SESSION_SINGLE: int := 1
  const SESSION_GROUP: int := 2

  datatype Handler = SingleChat | GroupChat

  function GetHandler(sessionType: int): Option<Handler> {
    if sessionType == SESSION_SINGLE then Some(SingleChat)
    else if sessionType == SESSION_GROUP then Some(GroupChat)
    else None
  }

  predicate Validate(handler: Handler, senderId: nat, receiverId: nat) {
    match handler
    case SingleChat => senderId != receiverId
    case GroupChat => receiverId != 0
  }

  /** The answer of the SaveMsg call: a gRPC error, or a response. */
  datatype RpcReply = StatusError | Reply(code: int, seqId: string)

  /** One attempt of the SaveMsg call; anything but status OK with code 0 throws. */
  function SaveBody<S>(msg: ChatMsg, rpc: (S, ChatMsg, nat) -> (S, RpcReply)): (S, nat) -> (S, Outcome<string>) {
    (s: S, k: nat) =>
      var (s', reply) := rpc(s, msg, k);
      (s', if reply.Reply? && reply.code == 0 then Ok(reply.seqId) else Throw)
  }

  function CallSaveResult<S>(msg: ChatMsg, rpc: (S, ChatMsg, nat) -> (S, RpcReply), s: S): (S, Option<string>) {
    var (s', r, _) := Retry.Run(RETRIES, SaveBody(msg, rpc), s, 0);
    (s', if r.Ok? then Some(r.value) else None)
  }

  ghost function Cleaned(words: set<string>, msgType: int, content: string): string {
    if msgType == TEXT then FilterSpec.Mask(words, content) else content
  }

  /** The message that is handed on to be saved, if the incoming one is accepted. */
  ghost function Sent(words: set<string>, msg: ChatMsg): Option<ChatMsg> {
    var handler := GetHandler(msg.sessionType);
    if handler.None? || !Validate(handler.value, msg.senderId, msg.receiverId) then None
    else Some(msg.(content := Cleaned(words, msg.msgType, msg.content)))
  }

  /** What processing one message does to the world behind `rpc`, and the sequence id it yields. */
  ghost function ProcessResult<S>(words: set<string>, msg: ChatMsg, rpc: (S, ChatMsg, nat) -> (S, RpcReply), s: S)
    : (S, Option<string>)
  {
    match Sent(words, msg)
    case None => (s, None)
    case Some(out) => CallSaveResult(out, rpc, s)
  }

  class LogicChatMsg {
    const msgId: string
    const senderId: nat
    const receiverId: nat
    const sessionType: int
    const msgType: int
    var content: string
    var serverTime: int
    var seqId: string

    constructor (msg: ChatMsg)
      ensures Request() == msg && seqId == ""
    {
      msgId, senderId, receiverId := msg.msgId, msg.senderId, msg.receiverId;
      sessionType, msgType, content := msg.sessionType, msg.msgType, msg.content;
      serverTime, seqId := 0, "";
    }

    /** The SaveMsgReq built from the message. */
    function Request(): ChatMsg
      reads this
    {
      ChatMsg(msgId, senderId, receiverId, sessionType, msgType, content)
    }

    /** ProcessSend, the same in both handlers: the filter runs only if the check found a word. */
    method ProcessSend(filter: WordFilter.SensitiveFilter, nowMs: int)
      requires filter.Valid()
      modifies this`content, this`serverTime
      ensures content == Cleaned(filter.words, msgType, old(content)) && serverTime == nowMs
    {
      if msgType == TEXT {
        var has, _ := filter.HasSensitiveWord(content);
        if has {
          var masked, _, _ := filter.Filter(content);
          content := masked;
        } else {
          FilterSpec.CleanIsUntouched(filter.words, content, 0);
          assert content[0..] == content;
        }
      }
      serverTime := nowMs;
    }

    /** On success the sequence id is also stored in the message. */
    method CallMessageServiceToSave<S>(rpc: (S, ChatMsg, nat) -> (S, RpcReply), s0: S)
      returns (s: S, outSeqId: Option<string>)
      modifies this`seqId
      ensures (s, outSeqId) == CallSaveResult(Request(), rpc, s0)
      ensures seqId == if outSeqId.Some? then outSeqId.value else old(seqId)
    {
      hide Retry.Run;
      var r, calls;
      s, r, calls := Retry.ExecuteWithRetry(RETRIES, SaveBody(Request(), rpc), s0);
      if r.Throw? {
        return s, None;
      }
      seqId := r.value;
      return s, Some(r.value);
    }

    /** `None` is the source's `false`; DispatchToPushService always succeeds and is not shown. */
    method ProcessIncomingMessage<S>(filter: WordFilter.SensitiveFilter, nowMs: int,
                                     rpc: (S, ChatMsg, nat) -> (S, RpcReply), s0: S)
      returns (s: S, outSeqId: Option<string>)
      requires filter.Valid()
      modifies this
      ensures (s, outSeqId) == ProcessResult(filter.words, old(Request()), rpc, s0)
      ensures match Sent(filter.words, old(Request()))
              case Some(out) =>
                && Request() == out && serverTime == nowMs
                && seqId == if outSeqId.Some? then outSeqId.value else old(seqId)
              case None => Request() == old(Request()) && serverTime == old(serverTime) && seqId == old(seqId)
      ensures !((sessionType == 1 && senderId != receiverId) || (sessionType == 2 && receiverId != 0)) ==>
                s == s0 && outSeqId.None? && content == old(content)
      ensures (sessionType == 1 && senderId != receiverId) || (sessionType == 2 && receiverId != 0) ==>
                && content == (if msgType == 1 then FilterSpec.Mask(filter.words, old(content)) else old(content))
                && (s, outSeqId) == CallSaveResult(Request(), rpc, s0)
    {
      hide CallSaveResult;
      WhatIsSent(filter.words, Request());
      var handler := GetHandler(sessionType);
      if handler.None? || !Validate(handler.value, senderId, receiverId) {
        return s0, None;
      }
      ProcessSend(filter, nowMs);
      s, outSeqId := CallMessageServiceToSave(rpc, s0);
    }
  }

  /**
   * Which messages are accepted, and what becomes of them: a single-chat message to somebody else and a
   * group message to a group; the text of text messages is masked, and nothing else is changed.
   */
  lemma WhatIsSent(words: set<string>, msg: ChatMsg)
    ensures Sent(words, msg).Some? <==>
            (msg.sessionType == 1 && msg.senderId != msg.receiverId) || (msg.sessionType == 2 && msg.receiverId != 0)
    ensures Sent(words, msg).Some? && msg.msgType != 1 ==> Sent(words, msg).value == msg
    ensures Sent(words, msg).Some? && msg.msgType == 1 ==>
              Sent(words, msg).value == msg.(content := FilterSpec.Mask(words, msg.content))
  {
  }

  /** The answer to call `k` of SaveMsg, in the state the earlier calls leave. */
  function Answer<S>(msg: ChatMsg, rpc: (S, ChatMsg, nat) -> (S, RpcReply), s: S, k: nat): RpcReply {
    rpc(Retry.StateBefore(SaveBody(msg, rpc), s, k), msg, k).1
  }

  predicate IsFailure(reply: RpcReply) { reply.StatusError? || reply.code != 0 }

  /** Call `n` is the first to get a good answer. */
  ghost predicate FirstGood<S>(msg: ChatMsg, rpc: (S, ChatMsg, nat) -> (S, RpcReply), s: S, n: nat) {
    n < 4 && !IsFailure(Answer(msg, rpc, s, n)) && forall k: nat | k < n :: IsFailure(Answer(msg, rpc, s, k))
  }

  /**
   * The retried call succeeds exactly if one of the answers 0 to 3 is status OK with code 0, and gives
   * the sequence id of the first such answer; no later call is made.
   */
  lemma FirstGoodAnswer<S>(msg: ChatMsg, rpc: (S, ChatMsg, nat) -> (S, RpcReply), s: S)
    ensures var (s', seqId) := CallSaveResult(msg, rpc, s);
            && (seqId.None? <==> forall k: nat | k < 4 :: IsFailure(Answer(msg, rpc, s, k)))
            && (forall n: nat | FirstGood(msg, rpc, s, n) ::
                  && seqId == Some(Answer(msg, rpc, s, n).seqId)
                  && s' == Retry.StateBefore(SaveBody(msg, rpc), s, n + 1))
  {
    hide Retry.Run;
    var body := SaveBody(msg, rpc);
    Retry.RetryContract(RETRIES, body, s);
    var (s', r, n) := Retry.Run(RETRIES, body, s, 0);
    forall k: nat ensures Retry.Throws(body, s, k) <==> IsFailure(Answer(msg, rpc, s, k)) {}
    assert s' == Retry.StateBefore(body, s, n - 1 + 1);
    forall m: nat | FirstGood(msg, rpc, s, m) ensures m == n - 1 {
      assert !Retry.Throws(body, s, m);
      assert r.Ok?;
      assert !Retry.Throws(body, s, n - 1);
      assert !(m < n - 1) && !(n - 1 < m);
    }
  }

  /** A remote side that also writes down every request it is sent. */
  function Recording<S>(rpc: (S, ChatMsg, nat) -> (S, RpcReply))
    : ((S, seq<ChatMsg>), ChatMsg, nat) -> ((S, seq<ChatMsg>), RpcReply)
  {
    (s: (S, seq<ChatMsg>), msg: ChatMsg, k: nat) =>
      var (s', reply) := rpc(s.0, msg, k);
      ((s', s.1 + [msg]), reply)
  }

  /** What the recorder holds after `k` calls: the one request, `k` times. */
  lemma {:induction false} RecordedBefore<S>(msg: ChatMsg, rpc: (S, ChatMsg, nat) -> (S, RpcReply), s: S, k: nat)
    ensures var log := Retry.StateBefore(SaveBody(msg, Recording(rpc)), (s, []), k).1;
            |log| == k && forall m | m in log :: m == msg
  {
    if k > 0 {
      RecordedBefore(msg, rpc, s, k - 1);
    }
  }

  /**
   * What leaves for the message service, whether or not the check before the filter fired.  Something is
   * sent exactly for a single-chat message to somebody else and a group message to a group.  It is sent
   * at most four times, and every time it is the message itself, its text masked if it is a text message;
   * such a text is clean and as long as the original.
   */
  lemma HandedOnIsClean<S>(words: set<string>, msg: ChatMsg, rpc: (S, ChatMsg, nat) -> (S, RpcReply), s: S)
    requires FilterSpec.Sturdy(words)
    ensures var log := ProcessResult(words, msg, Recording(rpc), (s, [])).0.1;
            && |log| <= 4
            && (log != [] <==> (msg.sessionType == 1 && msg.senderId != msg.receiverId)
                               || (msg.sessionType == 2 && msg.receiverId != 0))
            && (forall m | m in log ::
                  m == if msg.msgType == 1 then msg.(content := FilterSpec.Mask(words, msg.content)) else msg)
            && (forall m | m in log && m.msgType == 1 ::
                  !FilterSpec.Contains(words, m.content) && |m.content| == |msg.content|)
  {
    hide Retry.Run, FilterSpec.Contains, FilterSpec.Mask, FilterSpec.Sturdy;
    WhatIsSent(words, msg);
    match Sent(words, msg)
    case None =>
    case Some(out) =>
      var body := SaveBody(out, Recording(rpc));
      var (s', r, n) := Retry.Run(RETRIES, body, (s, []), 0);
      Retry.RetryContract(RETRIES, body, (s, []));
      RecordedBefore(out, rpc, s, n);
      assert s' == Retry.StateBefore(body, (s, []), n);
      assert s'.1[0] in s'.1;
      FilterSpec.MaskLeavesNothing(words, msg.content);
  }
}
