/** MULTI/EXEC on tapes: queued statuses, one array header, one reply per command. */
module Transactions {
  import opened Bytes
  import opened Streams
  import opened Resp
  import opened RespLaws
  import opened Commands

  /** "redis: transaction failed" */
  const TX_FAILED_TEXT: seq<byte> :=
    [114, 101, 100, 105, 115, 58, 32, 116, 114, 97, 110, 115, 97, 99, 116, 105, 111, 110, 32, 102, 97, 105, 108, 101, 100]
  const TX_FAILED := Redis(TX_FAILED_TEXT)

  datatype QueueOut = Queued(rest: Tape) | NotQueued(err: Error, rest: Tape) | UnsettledQueue

  /** k statuses in a row; the first failure ends it. */
  function ReadStatuses(t: Tape, cap: nat, k: nat): QueueOut
    requires cap >= MIN_BUFFER
    decreases k
  {
    if k == 0 then Queued(t)
    else match ReadCmd(t, cap, StringCmd)
      case (None, _) => UnsettledQueue
      case (Some(m), rest) => if m.Bad? then NotQueued(m.err, rest) else ReadStatuses(rest, cap, k - 1)
  }

  /** AllFailed: every user command is marked with err. Otherwise a verdict per user command. */
  datatype MultiOut =
    | AllFailed(err: Error, rest: Tape)
    | Executed(out: BatchOut)
    | Panicked(rest: Tape)
    | UnsettledMulti

  function ReadMulti(t: Tape, cap: nat, kinds: seq<Kind>): MultiOut
    requires cap >= MIN_BUFFER
  {
    match ReadStatuses(t, cap, |kinds| + 1)
    case UnsettledQueue => UnsettledMulti
    case NotQueued(err, rest) => if err == Panic then Panicked(rest) else AllFailed(err, rest)
    case Queued(rest) => ReadExec(rest, cap, kinds)
  }

  function ReadExec(t: Tape, cap: nat, kinds: seq<Kind>): MultiOut
    requires cap >= MIN_BUFFER
  {
    match ReadLine(t, cap)
    case Unsettled => UnsettledMulti
    case Fail(err, rest) => AllFailed(err, rest)
    case Ok(line, rest) =>
      if line == [] then Panicked(rest)
      else if line[0] != STAR then AllFailed(Malformed, rest)
      else if IsNilMark(line) then AllFailed(TX_FAILED, rest)
      else Executed(ReadBatch(rest, cap, kinds, []))
  }

  predicate IsStatus(v: Reply, cap: nat) { v.Status? && Sendable(v, cap) }

  /** The queue phase reads up to the first reply that is not a status, and no further. */
  lemma {:induction false} StatusesRead(replies: seq<Reply>, rest: Tape, cap: nat, k: nat)
    requires cap >= MIN_BUFFER && |replies| == k && forall v <- replies :: IsStatus(v, cap)
    ensures ReadStatuses(Ahead(EncodeAll(replies), rest), cap, k) == Queued(rest)
    decreases k
  {
    hide Encode, ReadCmd, Suits;
    if k == 0 {
      AheadNone(rest);
    } else {
      var after := Ahead(EncodeAll(replies[1..]), rest);
      AheadTwice(Encode(replies[0]), EncodeAll(replies[1..]), rest);
      StatusSuits(replies[0], cap);
      SuitedCmdReads(replies[0], StringCmd, after, cap);
      StatusesRead(replies[1..], rest, cap, k - 1);
    }
  }

  lemma StatusSuits(v: Reply, cap: nat)
    requires IsStatus(v, cap)
    ensures Suits(v, StringCmd, cap) && MeaningFor(v, StringCmd) == Good(Str(v.text))
  {
  }

  /** MULTI and n commands answered with statuses, EXEC with the array of the n replies: user
      command i gets element i and the stream is left exactly behind the array. */
  lemma TransactionAligned(statuses: seq<Reply>, replies: seq<Reply>, kinds: seq<Kind>, rest: Tape, cap: nat)
    requires cap >= MIN_BUFFER && |replies| == |kinds| && |statuses| == |kinds| + 1
    requires forall v <- statuses :: IsStatus(v, cap)
    requires |replies| <= MAX_INT64 && |Dec(|replies|)| + 3 <= cap
    requires forall i :: 0 <= i < |kinds| ==> Suits(replies[i], kinds[i], cap)
    ensures ReadMulti(Ahead(EncodeAll(statuses), Ahead(Encode(Array(replies)), rest)), cap, kinds)
         == Executed(Batch(Meanings(replies, kinds), rest))
  {
    hide EncodeAll, ReadStatuses, ReadBatch, ReadLine, Dec, Suits, Meanings;
    var body := Ahead(EncodeAll(replies), rest);
    StatusesRead(statuses, Ahead(Encode(Array(replies)), rest), cap, |kinds| + 1);
    AheadTwice([STAR] + Dec(|replies|) + CRLF, EncodeAll(replies), rest);
    NumberLine(STAR, |replies|, body, cap);
    BatchAligned(replies, kinds, rest, cap, []);
    assert [] + Meanings(replies, kinds) == Meanings(replies, kinds);
  }

  /** A nil array marks every command failed and is itself consumed exactly. */
  lemma TransactionAborted(statuses: seq<Reply>, kinds: seq<Kind>, rest: Tape, cap: nat)
    requires cap >= MIN_BUFFER && |statuses| == |kinds| + 1
    requires forall v <- statuses :: IsStatus(v, cap)
    ensures ReadMulti(Ahead(EncodeAll(statuses), Ahead(Encode(NilArray), rest)), cap, kinds) == AllFailed(TX_FAILED, rest)
  {
    hide EncodeAll, ReadStatuses, ReadBatch, ReadLine;
    StatusesRead(statuses, Ahead(Encode(NilArray), rest), cap, |kinds| + 1);
    LineFits([STAR, MINUS, 49], rest, cap);
  }

  /** A command refused while it is queued: everything the server sends after the refusal, the
      answer to EXEC included, is left unread. */
  lemma RefusedInQueue(queued: seq<Reply>, text: seq<byte>, rest: Tape, kinds: seq<Kind>, cap: nat)
    requires cap >= MIN_BUFFER && |queued| <= |kinds| && forall v <- queued :: IsStatus(v, cap)
    requires Sendable(Reply.Error(text), cap)
    ensures ReadMulti(Ahead(EncodeAll(queued), Ahead(Encode(Reply.Error(text)), rest)), cap, kinds) == AllFailed(Redis(text), rest)
  {
    hide EncodeAll, ReadExec;
    RefusedStatus(queued, text, rest, cap, |kinds| + 1);
  }

  lemma RefusalSuits(text: seq<byte>, cap: nat)
    requires Sendable(Reply.Error(text), cap)
    ensures Suits(Reply.Error(text), StringCmd, cap) && MeaningFor(Reply.Error(text), StringCmd) == Bad(Redis(text))
  {
  }

  lemma {:induction false} RefusedStatus(queued: seq<Reply>, text: seq<byte>, rest: Tape, cap: nat, k: nat)
    requires cap >= MIN_BUFFER && |queued| < k && forall v <- queued :: IsStatus(v, cap)
    requires Sendable(Reply.Error(text), cap)
    ensures ReadStatuses(Ahead(EncodeAll(queued), Ahead(Encode(Reply.Error(text)), rest)), cap, k) == NotQueued(Redis(text), rest)
    decreases k
  {
    var refusal := Reply.Error(text);
    hide Encode, ReadCmd, Suits, MeaningFor, Sendable;
    RefusalSuits(text, cap);
    if queued == [] {
      AheadNone(Ahead(Encode(refusal), rest));
      SuitedCmdReads(refusal, StringCmd, rest, cap);
    } else {
      AheadTwice(Encode(queued[0]), EncodeAll(queued[1..]), Ahead(Encode(refusal), rest));
      StatusSuits(queued[0], cap);
      SuitedCmdReads(queued[0], StringCmd, Ahead(EncodeAll(queued[1..]), Ahead(Encode(refusal), rest)), cap);
      RefusedStatus(queued[1..], text, rest, cap, k - 1);
    }
  }
}
