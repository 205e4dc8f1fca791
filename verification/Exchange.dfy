/** One batch on one connection, as a relation between the connection before and after. */
module Exchange {
  import opened Bytes
  import opened Streams
  import opened Resp
  import opened RespLaws
  import opened Commands
  import opened Transactions

  /** What the client has not consumed, and what will fail on the way. */
  datatype Wire = Wire(tape: Tape)

  /** Every byte that was sent has been consumed. */
  predicate Healthy(w: Wire) { Flat(w.tape) == [] }

  datatype Work = Pipe(kinds: seq<Kind>) | Tx(kinds: seq<Kind>)

  datatype Got = Got(err: Option<Error>, verdicts: seq<Verdict>)

  /** The error of a whole batch: a panic unwinds it, otherwise the first failure counts. */
  function BatchError(verdicts: seq<Verdict>): Option<Error> {
    if verdicts != [] && verdicts[|verdicts| - 1] == Bad(Panic) then Some(Panic) else FirstError(verdicts)
  }

  /** What the client makes of a tape; None when there is a tie. */
  function Reads(work: Work, t: Tape, cap: nat): Option<(Got, Tape)>
    requires cap >= 16
  {
    if work.Pipe? then BatchReads(ReadBatch(t, cap, work.kinds, []))
    else TransactionReads(ReadMulti(t, cap, work.kinds), |work.kinds|)
  }

  function TransactionReads(out: MultiOut, n: nat): Option<(Got, Tape)> {
    match out
    case AllFailed(err, rest) => Some((Got(Some(err), Marked(n, err)), rest))
    case Executed(batch) => BatchReads(batch)
    case Panicked(rest) => Some((Got(Some(Panic), []), rest))
    case UnsettledMulti => None
  }

  function BatchReads(out: BatchOut): Option<(Got, Tape)> {
    match out
    case Batch(verdicts, rest) => Some((Got(BatchError(verdicts), verdicts), rest))
    case UnsettledBatch => None
  }

  function Marked(n: nat, err: Error): seq<Verdict> { seq(n, _ => Bad(err)) }

  /** A batch on a connection: the server answers, what is under way arrives as `seen`, and the outcome is
      what the client makes of that. A failed write is the error of every command. */
  ghost predicate Exchanged(w: Wire, w': Wire, work: Work, answer: seq<byte>, seen: Tape, sent: bool, got: Got, cap: nat)
    requires cap >= 16
  {
    && Flat(seen) == Flat(w.tape) + answer
    && if sent then
         var r := Reads(work, seen, cap);
         r == None || r == Some((got, w'.tape))
       else w'.tape == seen && got == Got(Some(IO(Fault)), Marked(|work.kinds|, IO(Fault)))
  }

  /** Where a connection is after a batch: back in the pool, closed, lost to a panic, or still with the
      Multi whose only connection it is. */
  datatype Fate = Pooled | Closed | Leaked | Kept

  /** freeConn and putConn: the error of the batch and the unread bytes already buffered decide. */
  function ReleaseFate(e: Option<Error>, buffered: int): Fate {
    if e == Some(Panic) then Leaked
    else if buffered != 0 || (e.Some? && !e.value.Redis?) then Closed
    else Pooled
  }

  /** The same on the pool of a Multi, which holds one connection: it takes it back without looking at what
      is buffered, hands on what is to be removed, and still has it after a panic. */
  function MultiFate(e: Option<Error>, buffered: int): Fate {
    if e.Some? && e != Some(Panic) && (buffered != 0 || !e.value.Redis?) then Closed else Kept
  }

  /** What a server that serves the batch sends. */
  datatype Script =
    | Plain(replies: seq<Reply>)
    | Committed(statuses: seq<Reply>, replies: seq<Reply>)
    | Aborted(statuses: seq<Reply>)

  function Answer(script: Script): seq<byte> {
    match script
    case Plain(replies) => EncodeAll(replies)
    case Committed(statuses, replies) => EncodeAll(statuses) + Encode(Array(replies))
    case Aborted(statuses) => EncodeAll(statuses) + Encode(NilArray)
  }

  /** The server answers every command with one reply the command can read to its end. */
  ghost predicate Served(replies: seq<Reply>, kinds: seq<Kind>, cap: nat) {
    |replies| == |kinds| && forall i :: 0 <= i < |kinds| ==> Suits(replies[i], kinds[i], cap)
  }

  ghost predicate Queues(statuses: seq<Reply>, k: nat, cap: nat) {
    |statuses| == k && forall v <- statuses :: IsStatus(v, cap)
  }

  /** The script answers this very batch, one reply per command. */
  ghost predicate Serves(script: Script, work: Work, cap: nat) {
    match script
    case Plain(replies) => work.Pipe? && Served(replies, work.kinds, cap)
    case Committed(statuses, replies) =>
      && work.Tx? && Queues(statuses, |work.kinds| + 1, cap)
      && Served(replies, work.kinds, cap) && Sendable(Array(replies), cap)
    case Aborted(statuses) => work.Tx? && Queues(statuses, |work.kinds| + 1, cap)
  }

  /** What the commands of the batch should be told. */
  function Expected(script: Script, work: Work): Got
    requires script.Aborted? || |script.replies| == |work.kinds|
  {
    match script
    case Aborted(_) => Got(Some(TX_FAILED), Marked(|work.kinds|, TX_FAILED))
    case _ => var verdicts := Meanings(script.replies, work.kinds); Got(FirstError(verdicts), verdicts)
  }

  lemma ServedBatch(replies: seq<Reply>, kinds: seq<Kind>, rest: Tape, cap: nat)
    requires cap >= 16 && Served(replies, kinds, cap)
    ensures ReadBatch(Ahead(EncodeAll(replies), rest), cap, kinds, []) == Batch(Meanings(replies, kinds), rest)
  {
    hide EncodeAll, ReadBatch, Suits, Meanings;
    BatchAligned(replies, kinds, rest, cap, []);
    Units(Meanings(replies, kinds));
  }

  lemma ServedWithoutPanic(replies: seq<Reply>, kinds: seq<Kind>, cap: nat)
    requires Served(replies, kinds, cap)
    ensures BatchError(Meanings(replies, kinds)) == FirstError(Meanings(replies, kinds))
  {
    hide Suits, MeaningFor, FirstError;
    if replies != [] {
      SuitedNoPanic(replies[|replies| - 1], kinds[|kinds| - 1], cap);
    }
  }

  lemma SuitedNoPanic(v: Reply, kind: Kind, cap: nat)
    requires Suits(v, kind, cap)
    ensures MeaningFor(v, kind) != Bad(Panic)
  {
  }

  /** A batch that is served is read to exactly the end of its answer, and every command gets its own
      reply. */
  lemma ServedInStep(script: Script, work: Work, rest: Tape, cap: nat)
    requires cap >= 16 && Serves(script, work, cap)
    ensures Reads(work, Ahead(Answer(script), rest), cap) == Some((Expected(script, work), rest))
  {
    hide EncodeAll, ReadBatch, ReadMulti, Encode, Suits, MeaningFor, FirstError, Sendable;
    match script
    case Plain(replies) =>
      ServedBatch(replies, work.kinds, rest, cap);
      ServedWithoutPanic(replies, work.kinds, cap);
    case Committed(statuses, replies) =>
      CommittedInStep(statuses, replies, work.kinds, rest, cap);
    case Aborted(statuses) =>
      AheadTwice(EncodeAll(statuses), Encode(NilArray), rest);
      TransactionAborted(statuses, work.kinds, rest, cap);
  }

  lemma CommittedInStep(statuses: seq<Reply>, replies: seq<Reply>, kinds: seq<Kind>, rest: Tape, cap: nat)
    requires cap >= 16 && Serves(Committed(statuses, replies), Tx(kinds), cap)
    ensures ReadMulti(Ahead(EncodeAll(statuses) + Encode(Array(replies)), rest), cap, kinds) == Executed(Batch(Meanings(replies, kinds), rest))
    ensures BatchError(Meanings(replies, kinds)) == FirstError(Meanings(replies, kinds))
  {
    hide EncodeAll, ReadMulti, Suits, MeaningFor, FirstError, Encode;
    AheadTwice(EncodeAll(statuses), Encode(Array(replies)), rest);
    TransactionAligned(statuses, replies, kinds, rest, cap);
    ServedWithoutPanic(replies, kinds, cap);
  }
}
