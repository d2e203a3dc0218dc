/**
 * The sequence id of message/src/dao/msg_index_dao.cpp: "SEQ_<milliseconds>_<row id>", printed by
 * Insert and read back as the cursor of FetchOfflineMsgIds.
 */
module SeqId {
  import opened Wrappers
  import opened Decimal

  function Print(nowMs: int, id: nat): string {
    "SEQ_" + SignedToString(nowMs) + "_" + ToString(id)
  }

  /** std::string::find_last_of('_') */
  function FindLastUnderscore(s: string): (r: Option<nat>)
    ensures r.Some? ==> r.value < |s| && s[r.value] == '_'
  {
    if s == "" then None
    else if s[|s| - 1] == '_' then Some(|s| - 1)
    else FindLastUnderscore(s[..|s| - 1])
  }

  /** The row id a cursor stands for: what follows the last '_', or 0 if there is no '_'. */
  function Cursor(lastSeqId: string): (r: Outcome<nat>)
    ensures r.Ok? ==> r.value < UINT64_LIMIT
  {
    match FindLastUnderscore(lastSeqId)
    case None => Ok(0)
    case Some(pos) => Stoull(lastSeqId[pos + 1..])
  }

  lemma {:induction false} LastUnderscoreIsAt(s: string, at: nat)
    requires at < |s| && s[at] == '_' && forall k | at < k < |s| :: s[k] != '_'
    ensures FindLastUnderscore(s) == Some(at)
  {
    if at < |s| - 1 {
      LastUnderscoreIsAt(s[..|s| - 1], at);
    }
  }

  /** Reading back a printed id gives the row id, for every clock value and exactly for the uint64 ids. */
  lemma CursorOfPrint(nowMs: int, id: nat)
    ensures Cursor(Print(nowMs, id)) == if id < UINT64_LIMIT then Ok(id) else Throw
  {
    var s, digits := Print(nowMs, id), ToString(id);
    var at := |s| - |digits| - 1;
    assert s[at] == '_' && s[at + 1..] == digits;
    forall k | at < k < |s| ensures s[k] != '_' {
      assert s[k] == digits[k - at - 1];
    }
    LastUnderscoreIsAt(s, at);
    StoullOfToString(id);
  }

  lemma {:induction false} NoUnderscoreFound(s: string)
    ensures FindLastUnderscore(s).None? <==> '_' !in s
  {
    if s != "" {
      NoUnderscoreFound(s[..|s| - 1]);
      assert s == s[..|s| - 1] + [s[|s| - 1]];
    }
  }

  /** A cursor without '_', the empty one of a client that has seen nothing among them, stands for id 0. */
  lemma FirstCursor(cursor: string)
    requires '_' !in cursor
    ensures Cursor(cursor) == Ok(0)
  {
    NoUnderscoreFound(cursor);
  }

  /** Any other cursor is read from behind its last '_'; what stands in front does not matter. */
  lemma CursorReadsTail(front: string, tail: string)
    requires '_' !in tail
    ensures Cursor(front + "_" + tail) == Stoull(tail)
  {
    var s := front + "_" + tail;
    forall k | |front| < k < |s| ensures s[k] != '_' {
      assert s[k] == tail[k - |front| - 1];
      assert tail[k - |front| - 1] in tail;
    }
    LastUnderscoreIsAt(s, |front|);
    assert s[|front| + 1..] == tail;
  }
}
