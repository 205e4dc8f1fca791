/** redis.go, pipeline.go and multi.go on one connection: write a batch, read its replies, release. */
module Client {
  import opened Bytes
  import opened Streams
  import opened Resp
  import opened RespLaws
  import opened Commands
  import opened Transactions
  import opened Exchange
  import opened Bufio
  import opened CutReplies
  import opened Faults
  import RespParser

  /** What the world does with one batch: the peer's answer, how everything that is under way arrives, and
      whether the write fails, after how many bytes. */
  datatype Turn = Turn(answer: seq<byte>, arrivals: Tape, failsAfter: Option<nat>)

  class Cmd {
    const kind: Kind
    const args: seq<seq<byte>>
    var slot: Slot

    constructor (kind: Kind, args: seq<seq<byte>>)
      ensures this.kind == kind && this.args == args && slot == Slot(None, None)
    {
      this.kind, this.args, slot := kind, args, Slot(None, None);
    }

    method SetErr(e: Error)
      modifies this
      ensures slot == old(slot).(err := Some(e))
    {
      slot := slot.(err := Some(e));
    }

    /** The fields a reply sets; the error field is never cleared but by Cmd, and a failed type assertion
        leaves both as they are. */
    method ParseReply(rd: Reader) returns (m: Verdict)
      requires rd.Valid()
      modifies this, rd, rd.buf, rd.rd
      ensures rd.Valid() && (old(rd.troubled) ==> rd.troubled)
      ensures slot == Record(kind, old(slot), m)
      ensures !rd.troubled ==>
        ReadCmd(old(rd.Tape()), rd.buf.Length, kind) in {(Some(m), rd.Tape()), (None, old(rd.Tape()))}
    {
      hide Resp.ParseReply, Record, Accepts, Reader.Tape, Reader.TapeWith;
      var v, e := RespParser.ParseReply(rd, ParserOf(kind));
      m := if e.Some? then Bad(e.value) else Cast(kind, Good(v));
      slot := Record(kind, slot, m);
    }
  }

  class Conn {
    const rd: Reader
    /** What the peer has been sent. */
    var sent: seq<byte>

    constructor (rd: Reader)
      ensures this.rd == rd && sent == []
    {
      this.rd, sent := rd, [];
    }

    /** A socket never returns nothing without an error, nor bytes along with a failure. */
    ghost predicate Valid()
      reads this, rd, rd.buf, rd.rd
    {
      rd.Valid() && rd.rd.Orderly()
    }

    ghost function Wire(): Wire
      requires Valid()
      reads this, rd, rd.buf, rd.rd
    {
      Exchange.Wire.Wire(rd.Tape())
    }

    ghost predicate Takes(turn: Turn)
      requires Valid()
      reads this, rd, rd.buf, rd.rd
    {
      rd.rd.Arrives(turn.answer, turn.arrivals) && (turn.failsAfter.Some? ==> rd.rd.faulty)
    }

    /** What the reader has before it once the peer has answered: its window, then what arrives. */
    ghost function Seen(turn: Turn): Tape
      requires Valid()
      reads this, rd, rd.buf, rd.rd
    {
      var window, coming := rd.buf[rd.r..rd.w], turn.arrivals;
      if rd.err == Some(Fault) then Cut(window, coming) else Ahead(window, coming)
    }

    /** Nothing is lost on the way. */
    lemma SeenAll(turn: Turn)
      requires Valid() && Takes(turn)
      ensures Flat(Seen(turn)) == Flat(rd.Tape()) + turn.answer
    {
      var window, coming, before := rd.buf[rd.r..rd.w], turn.arrivals, rd.rd.Tape();
      Assoc(window, Flat(before), turn.answer);
      if rd.err == Some(Fault) {
        FlatCut(window, coming);
        FlatCut(window, before);
      } else {
        Assoc(window, coming.now, Flatten(coming.later));
        Assoc(window, before.now, Flatten(before.later));
      }
    }

    /** Sends b, and the peer answers. */
    method Write(b: seq<byte>, turn: Turn) returns (e: Option<Err>)
      requires Valid() && Takes(turn)
      modifies this, rd.rd
      ensures Valid() && rd.Tape() == old(Seen(turn))
      ensures e == if turn.failsAfter.Some? then Some(Fault) else None
      ensures sent == old(sent) + match turn.failsAfter
        case None => b
        case Some(n) => b[..Min(n, |b|)]
    {
      rd.rd.Answer(turn.answer, turn.arrivals);
      match turn.failsAfter {
        case None =>
          sent := sent + b;
          return None;
        case Some(n) =>
          sent := sent + b[..Min(n, |b|)];
          return Some(Fault);
      }
    }

    /** pool.Put on an open pool: a connection with unread data is closed instead. */
    method Put() returns (fate: Fate)
      requires Valid()
      modifies rd, rd.buf, rd.rd
      ensures Valid() && fate == if old(rd.Buffered()) != 0 then Closed else Pooled
      ensures old(rd.Buffered()) == 0 ==> rd.Buffered() == 0 && Wire() == old(Wire())
    {
      if rd.Buffered() != 0 {
        var _, _ := rd.ReadN(rd.Buffered());
        return Closed;
      }
      return Pooled;
    }

    method FreeConn(e: Error) returns (fate: Fate)
      requires Valid()
      modifies rd, rd.buf, rd.rd
      ensures Valid() && fate == if old(rd.Buffered()) != 0 || !e.Redis? then Closed else Pooled
      ensures old(rd.Buffered()) == 0 ==> rd.Buffered() == 0 && Wire() == old(Wire())
    {
      if rd.Buffered() > 0 { return Closed; }
      if e.Redis? {
        fate := Put();
        return;
      }
      return Closed;
    }

    /** What every caller does with the error of its batch. */
    method Release(e: Option<Error>) returns (fate: Fate)
      requires Valid()
      modifies rd, rd.buf, rd.rd
      ensures Valid() && fate == ReleaseFate(e, old(rd.Buffered()))
      ensures old(rd.Buffered()) == 0 ==> rd.Buffered() == 0 && Wire() == old(Wire())
    {
      if e == Some(Panic) { return Leaked; }
      if e.Some? {
        fate := FreeConn(e.value);
      } else {
        fate := Put();
      }
    }

    /** The same in a Multi: its pool of one takes the connection back as it is, and passes on what is to be
        removed. */
    method ReleaseToMulti(e: Option<Error>) returns (fate: Fate)
      requires Valid()
      ensures fate == MultiFate(e, rd.Buffered())
    {
      if e == None || e == Some(Panic) { return Kept; }
      if rd.Buffered() > 0 { return Closed; }
      return if e.value.Redis? then Kept else Closed;
    }
  }

  predicate Distinct(cmds: seq<Cmd>) { forall i, j :: 0 <= i < j < |cmds| ==> cmds[i] != cmds[j] }

  function Kinds(cmds: seq<Cmd>): (kinds: seq<Kind>)
    ensures |kinds| == |cmds|
  {
    seq(|cmds|, i requires 0 <= i < |cmds| => cmds[i].kind)
  }

  function Requests(cmds: seq<Cmd>): seq<seq<seq<byte>>> {
    seq(|cmds|, i requires 0 <= i < |cmds| => cmds[i].args)
  }

  /** writeCmd: one buffer for the whole batch, written once. */
  method WriteCmd(cn: Conn, cmds: seq<Cmd>, turn: Turn) returns (e: Option<Error>)
    requires cn.Valid() && cn.Takes(turn)
    modifies cn, cn.rd.rd
    ensures cn.Valid() && cn.rd.Tape() == old(cn.Seen(turn))
    ensures e == if turn.failsAfter.Some? then Some(TIMEOUT) else None
    ensures var bytes := EncodeReqs(Requests(cmds));
      cn.sent == old(cn.sent) + match turn.failsAfter
        case None => bytes
        case Some(n) => bytes[..Min(n, |bytes|)]
  {
    hide EncodeReq;
    var buf: seq<byte> := [];
    for i := 0 to |cmds|
      invariant buf == EncodeReqs(Requests(cmds)[..i])
      modifies {}
    {
      buf := RespParser.AppendArgs(buf, cmds[i].args);
      assert Requests(cmds)[..i + 1][..i] == Requests(cmds)[..i];
    }
    assert Requests(cmds)[..|cmds|] == Requests(cmds);
    var err := cn.Write(buf, turn);
    return if err.Some? then Some(IO(err.value)) else None;
  }

  method SetCmdsErr(cmds: seq<Cmd>, e: Error)
    requires Distinct(cmds)
    modifies set c | c in cmds
    ensures forall i :: 0 <= i < |cmds| ==> cmds[i].slot == old(cmds[i].slot).(err := Some(e))
  {
    for i := 0 to |cmds|
      invariant forall j :: 0 <= j < i ==> cmds[j].slot == old(cmds[j].slot).(err := Some(e))
      invariant forall j :: i <= j < |cmds| ==> cmds[j].slot == old(cmds[j].slot)
    {
      cmds[i].SetErr(e);
    }
  }

  /** The reply loop of both kinds of batch. */
  method ReadReplies(rd: Reader, cmds: seq<Cmd>) returns (e: Option<Error>, ghost verdicts: seq<Verdict>)
    requires rd.Valid() && Distinct(cmds)
    modifies rd, rd.buf, rd.rd, set c | c in cmds
    ensures rd.Valid() && (old(rd.troubled) ==> rd.troubled)
    ensures |verdicts| <= |cmds| && e == BatchError(verdicts)
    ensures |verdicts| < |cmds| ==> e == Some(Panic)
    ensures forall i :: 0 <= i < |verdicts| ==> cmds[i].slot == Record(cmds[i].kind, old(cmds[i].slot), verdicts[i])
    ensures forall i :: |verdicts| <= i < |cmds| ==> cmds[i].slot == old(cmds[i].slot)
    ensures !rd.troubled ==>
      ReadBatch(old(rd.Tape()), rd.buf.Length, Kinds(cmds), []) in {Batch(verdicts, rd.Tape()), UnsettledBatch}
  {
    hide Reader.Tape, Reader.TapeWith, Record, ReadCmd, FirstError;
    var firstCmdErr: Option<Error> := None;
    verdicts := [];
    ghost var kinds, spec := Kinds(cmds), ReadBatch(rd.Tape(), rd.buf.Length, Kinds(cmds), []);
    NoError();
    for i := 0 to |cmds|
      invariant rd.Valid() && (old(rd.troubled) ==> rd.troubled)
      invariant |verdicts| == i && firstCmdErr == FirstError(verdicts) && Bad(Panic) !in verdicts
      invariant forall j :: 0 <= j < i ==> cmds[j].slot == Record(cmds[j].kind, old(cmds[j].slot), verdicts[j])
      invariant forall j :: i <= j < |cmds| ==> cmds[j].slot == old(cmds[j].slot)
      invariant !rd.troubled ==> spec in {ReadBatch(rd.Tape(), rd.buf.Length, kinds[i..], verdicts), UnsettledBatch}
    {
      var m := cmds[i].ParseReply(rd);
      assert kinds[i..][0] == cmds[i].kind && kinds[i..][1..] == kinds[i + 1..];
      FirstErrorSnoc(verdicts, m);
      verdicts := verdicts + [m];
      if m == Bad(Panic) {
        return Some(Panic), verdicts;
      }
      if m.Bad? && firstCmdErr == None {
        firstCmdErr := Some(m.err);
      }
    }
    return firstCmdErr, verdicts;
  }

  lemma NoError() ensures FirstError([]) == None {}

  /** Pipeline.execCmds. */
  method ExecPipeline(cn: Conn, cmds: seq<Cmd>, turn: Turn) returns (e: Option<Error>, ghost verdicts: seq<Verdict>)
    requires cn.Valid() && cn.Takes(turn) && Distinct(cmds)
    modifies cn, cn.rd, cn.rd.buf, cn.rd.rd, set c | c in cmds
    ensures cn.Valid()
    ensures Exchanged(old(cn.Wire()), cn.Wire(), Pipe(Kinds(cmds)), turn.answer, old(cn.Seen(turn)), turn.failsAfter == None,
                      Got(e, verdicts), cn.rd.buf.Length)
    ensures |verdicts| <= |cmds| && (|verdicts| < |cmds| ==> e == Some(Panic))
    ensures turn.failsAfter == None ==> cn.sent == old(cn.sent) + EncodeReqs(Requests(cmds))
    ensures turn.failsAfter == None ==>
      && (forall i :: 0 <= i < |verdicts| ==> cmds[i].slot == Record(cmds[i].kind, old(cmds[i].slot), verdicts[i]))
      && (forall i :: |verdicts| <= i < |cmds| ==> cmds[i].slot == old(cmds[i].slot))
    ensures turn.failsAfter.Some? ==> forall i :: 0 <= i < |cmds| ==> cmds[i].slot == old(cmds[i].slot).(err := Some(TIMEOUT))
  {
    hide Reader.Tape, Reader.TapeWith, Record, BatchError, EncodeReqs, ReadBatch, Conn.Seen, Flat;
    cn.SeenAll(turn);
    e := WriteCmd(cn, cmds, turn);
    if e.Some? {
      SetCmdsErr(cmds, e.value);
      return e, Marked(|cmds|, TIMEOUT);
    }
    e, verdicts := ReadReplies(cn.rd, cmds);
  }

  /** What a batch leaves behind for the pool: the connection after it, the bytes that are buffered, and
      what becomes of the connection. */
  ghost predicate Released(cn: Conn, after: Wire, buffered: nat, e: Option<Error>, fate: Fate)
    reads cn, cn.rd, cn.rd.buf, cn.rd.rd
  {
    && cn.Valid() && buffered <= |after.tape.now| && fate == ReleaseFate(e, buffered)
    && (fate == Pooled ==> cn.Wire() == after && cn.rd.Buffered() == 0)
  }

  /** The buffered bytes are on the tape. */
  lemma BufferedIsAhead(cn: Conn)
    requires cn.Valid()
    ensures cn.rd.Buffered() <= |cn.Wire().tape.now|
  {
  }

  /** Pipeline.Exec once it has a connection: an exchange, and what follows from its outcome. When the
      connection starts in step, the server serves the batch and its answer arrives before a read fails,
      every command has its own reply and the connection ends in step. */
  method Pipeline(cn: Conn, cmds: seq<Cmd>, turn: Turn, ghost replies: seq<Reply>)
    returns (e: Option<Error>, fate: Fate, ghost verdicts: seq<Verdict>, ghost after: Wire, ghost buffered: nat)
    requires cn.Valid() && cn.Takes(turn) && Distinct(cmds)
    modifies cn, cn.rd, cn.rd.buf, cn.rd.rd, set c | c in cmds
    ensures Exchanged(old(cn.Wire()), after, Pipe(Kinds(cmds)), turn.answer, old(cn.Seen(turn)), turn.failsAfter == None,
                      Got(e, verdicts), cn.rd.buf.Length)
    ensures Released(cn, after, buffered, e, fate)
    ensures turn.failsAfter == None ==>
      && cn.sent == old(cn.sent) + EncodeReqs(Requests(cmds)) && |verdicts| <= |cmds|
      && (forall i :: 0 <= i < |verdicts| ==> cmds[i].slot == Record(cmds[i].kind, old(cmds[i].slot), verdicts[i]))
      && (forall i :: |verdicts| <= i < |cmds| ==> cmds[i].slot == old(cmds[i].slot))
    ensures turn.failsAfter.Some? ==> forall i :: 0 <= i < |cmds| ==> cmds[i].slot == old(cmds[i].slot).(err := Some(TIMEOUT))
    ensures (turn.failsAfter == None && Healthy(old(cn.Wire())) && turn.answer == EncodeAll(replies) == old(cn.Seen(turn)).now
         && Served(replies, Kinds(cmds), cn.rd.buf.Length)) ==>
      && verdicts == Meanings(replies, Kinds(cmds)) && e == FirstError(verdicts)
      && Healthy(after) && fate == ReleaseFate(e, 0)
  {
    hide Reader.Tape, Reader.TapeWith, Record, EncodeReqs, Reads, Answer, FirstError, MeaningFor, Suits, Conn.Seen, Conn.Takes;
    hide Exchanged, Flat;
    ghost var work, before, seen := Pipe(Kinds(cmds)), cn.Wire(), cn.Seen(turn);
    e, verdicts := ExecPipeline(cn, cmds, turn);
    after, buffered := cn.Wire(), cn.rd.Buffered();
    BufferedIsAhead(cn);
    if turn.failsAfter == None && Healthy(before) && turn.answer == EncodeAll(replies) == seen.now
       && Served(replies, work.kinds, cn.rd.buf.Length) {
      PlainAnswer(replies);
      ServedExchange(Plain(replies), work, before, after, seen, Got(e, verdicts), cn.rd.buf.Length);
    }
    fate := cn.Release(e);
  }

  lemma PlainAnswer(replies: seq<Reply>)
    ensures Answer(Plain(replies)) == EncodeAll(replies)
  {
  }

  /** A served batch whose answer arrives before a read fails. */
  lemma ServedExchange(script: Script, work: Work, before: Wire, after: Wire, seen: Tape, got: Got, cap: nat)
    requires cap >= 16 && Serves(script, work, cap) && Healthy(before) && seen.now == Answer(script)
    requires Exchanged(before, after, work, Answer(script), seen, true, got, cap)
    ensures got == Expected(script, work) && Healthy(after) && after.tape.now == []
  {
    hide Reads, Serves, Expected, Answer;
    var rest := Tape([], seen.later);
    Units(Answer(script));
    assert seen == Ahead(Answer(script), rest);
    ServedInStep(script, work, rest, cap);
    Units(Flatten(seen.later));
    Units(Answer(script));
    SameTail(Answer(script), Flatten(seen.later));
  }

  lemma SameTail(a: seq<byte>, b: seq<byte>)
    ensures a + b == a ==> b == []
  {
    assert |a + b| == |a| + |b|;
  }

  const MULTI: seq<byte> := [77, 85, 76, 84, 73]
  const EXEC: seq<byte> := [69, 88, 69, 67]

  /** The status loop of Multi.execCmds: one status command object reads all k statuses. */
  method ReadQueued(rd: Reader, k: nat) returns (e: Option<Error>)
    requires rd.Valid()
    modifies rd, rd.buf, rd.rd
    ensures rd.Valid() && (old(rd.troubled) ==> rd.troubled)
    ensures !rd.troubled ==>
      ReadStatuses(old(rd.Tape()), rd.buf.Length, k)
        in {if e.Some? then NotQueued(e.value, rd.Tape()) else Queued(rd.Tape()), UnsettledQueue}
  {
    hide Reader.Tape, Reader.TapeWith, ReadCmd;
    var statusCmd := new Cmd(StringCmd, []);
    ghost var spec := ReadStatuses(rd.Tape(), rd.buf.Length, k);
    for i := 0 to k
      invariant rd.Valid() && (old(rd.troubled) ==> rd.troubled)
      invariant !rd.troubled ==> spec in {ReadStatuses(rd.Tape(), rd.buf.Length, k - i), UnsettledQueue}
      modifies rd, rd.buf, rd.rd, statusCmd
    {
      var m := statusCmd.ParseReply(rd);
      if m.Bad? { return Some(m.err); }
    }
    return None;
  }

  /** How the state after a transaction shows its outcome. */
  twostate predicate Shows(cmds: seq<Cmd>, out: MultiOut, new e: Option<Error>, rest: Tape)
    reads set c | c in cmds
  {
    match out
    case AllFailed(err, left) => e == Some(err) && rest == left
      && forall i :: 0 <= i < |cmds| ==> cmds[i].slot == old(cmds[i].slot).(err := Some(err))
    case Executed(Batch(verdicts, left)) => |verdicts| <= |cmds| && e == BatchError(verdicts) && rest == left
      && forall i :: 0 <= i < |verdicts| ==> cmds[i].slot == Record(cmds[i].kind, old(cmds[i].slot), verdicts[i])
    case Executed(UnsettledBatch) => true
    case Panicked(left) => e == Some(Panic) && rest == left
    case UnsettledMulti => true
  }

  /** Multi.execCmds after the commands have been written. */
  method ReadTransaction(rd: Reader, cmds: seq<Cmd>) returns (e: Option<Error>, ghost out: MultiOut)
    requires rd.Valid() && Distinct(cmds)
    modifies rd, rd.buf, rd.rd, set c | c in cmds
    ensures rd.Valid() && (old(rd.troubled) ==> rd.troubled)
    ensures !rd.troubled ==>
      Shows(cmds, out, e, rd.Tape()) && out == ReadMulti(old(rd.Tape()), rd.buf.Length, Kinds(cmds))
  {
    hide Reader.Tape, Reader.TapeWith, ReadStatuses, ReadBatch, Resp.ReadLine, Record, BatchError;
    out := ReadMulti(rd.Tape(), rd.buf.Length, Kinds(cmds));
    e := ReadQueued(rd, |cmds| + 1);
    if e.Some? {
      if e != Some(Panic) { SetCmdsErr(cmds, e.value); }
      return;
    }
    e, out := ReadHeaderAndReplies(rd, cmds, out);
  }

  method ReadHeaderAndReplies(rd: Reader, cmds: seq<Cmd>, ghost spec: MultiOut) returns (e: Option<Error>, ghost out: MultiOut)
    requires rd.Valid() && Distinct(cmds)
    requires !rd.troubled ==> spec in {ReadExec(rd.Tape(), rd.buf.Length, Kinds(cmds)), UnsettledMulti}
    modifies rd, rd.buf, rd.rd, set c | c in cmds
    ensures rd.Valid() && (old(rd.troubled) ==> rd.troubled)
    ensures !rd.troubled ==> Shows(cmds, out, e, rd.Tape()) && out == spec
  {
    hide Reader.Tape, Reader.TapeWith, ReadBatch, Resp.ReadLine, Record, BatchError;
    out := spec;
    var line;
    line, e := RespParser.ReadLine(rd);
    if e.Some? {
      SetCmdsErr(cmds, e.value);
      return;
    }
    if line == [] { return Some(Panic), out; }
    if line[0] != STAR {
      SetCmdsErr(cmds, Malformed);
      return Some(Malformed), out;
    }
    if IsNilMark(line) {
      SetCmdsErr(cmds, TX_FAILED);
      return Some(TX_FAILED), out;
    }
    ghost var verdicts;
    e, verdicts := ReadReplies(rd, cmds);
  }

  /** What a transaction sends. */
  function Wrapped(cmds: seq<Cmd>): seq<seq<seq<byte>>> { [[MULTI]] + Requests(cmds) + [[EXEC]] }

  /** Multi.execCmds. */
  method ExecMulti(cn: Conn, cmds: seq<Cmd>, turn: Turn) returns (e: Option<Error>, ghost out: MultiOut)
    requires cn.Valid() && cn.Takes(turn) && Distinct(cmds)
    modifies cn, cn.rd, cn.rd.buf, cn.rd.rd, set c | c in cmds
    ensures cn.Valid()
    ensures turn.failsAfter == None ==>
      && cn.sent == old(cn.sent) + EncodeReqs(Wrapped(cmds))
      && out == ReadMulti(old(cn.Seen(turn)), cn.rd.buf.Length, Kinds(cmds)) && Shows(cmds, out, e, cn.rd.Tape())
    ensures turn.failsAfter.Some? ==>
      && e == Some(TIMEOUT) && cn.rd.Tape() == old(cn.Seen(turn))
      && forall i :: 0 <= i < |cmds| ==> cmds[i].slot == old(cmds[i].slot).(err := Some(TIMEOUT))
  {
    hide Reader.Tape, Reader.TapeWith, ReadMulti, Record, EncodeReqs, BatchError, Conn.Seen;
    var multi := new Cmd(StringCmd, [MULTI]);
    var exec := new Cmd(SliceCmd, [EXEC]);
    assert Requests([multi] + cmds + [exec]) == Wrapped(cmds);
    e := WriteCmd(cn, [multi] + cmds + [exec], turn);
    if e.Some? {
      SetCmdsErr(cmds, e.value);
      return e, UnsettledMulti;
    }
    e, out := ReadTransaction(cn.rd, cmds);
  }

  /** The outcome of a transaction is what its commands show. */
  lemma ShownIsRead(out: MultiOut, e: Option<Error>, rest: Tape, n: nat) returns (verdicts: seq<Verdict>)
    requires match out
      case AllFailed(err, left) => e == Some(err) && rest == left
      case Executed(Batch(told, left)) => e == BatchError(told) && rest == left
      case Executed(UnsettledBatch) => true
      case Panicked(left) => e == Some(Panic) && rest == left
      case UnsettledMulti => true
    ensures TransactionReads(out, n) in {None, Some((Got(e, verdicts), rest))}
  {
    hide BatchError;
    var r := TransactionReads(out, n);
    verdicts := if r.Some? then r.value.0.verdicts else [];
  }

  /** Multi.Exec once it has a connection and at least one command is queued. The Multi keeps the connection,
      with all that is still unread, or it is closed. */
  method Multi(cn: Conn, cmds: seq<Cmd>, turn: Turn, ghost script: Script)
    returns (e: Option<Error>, fate: Fate, ghost verdicts: seq<Verdict>)
    requires cn.Valid() && cn.Takes(turn) && Distinct(cmds)
    modifies cn, cn.rd, cn.rd.buf, cn.rd.rd, set c | c in cmds
    ensures cn.Valid() && fate == MultiFate(e, cn.rd.Buffered())
    ensures Exchanged(old(cn.Wire()), cn.Wire(), Tx(Kinds(cmds)), turn.answer, old(cn.Seen(turn)), turn.failsAfter == None,
                      Got(e, verdicts), cn.rd.buf.Length)
    ensures turn.failsAfter == None ==>
      && cn.sent == old(cn.sent) + EncodeReqs(Wrapped(cmds))
      && Shows(cmds, ReadMulti(old(cn.Seen(turn)), cn.rd.buf.Length, Kinds(cmds)), e, cn.rd.Tape())
    ensures turn.failsAfter.Some? ==> forall i :: 0 <= i < |cmds| ==> cmds[i].slot == old(cmds[i].slot).(err := Some(TIMEOUT))
    ensures (turn.failsAfter == None && Healthy(old(cn.Wire())) && turn.answer == Answer(script) == old(cn.Seen(turn)).now
         && Serves(script, Tx(Kinds(cmds)), cn.rd.buf.Length)) ==>
      && (forall i :: 0 <= i < |cmds| ==>
            cmds[i].slot == if script.Aborted? then old(cmds[i].slot).(err := Some(TX_FAILED))
                            else Record(cmds[i].kind, old(cmds[i].slot), MeaningFor(script.replies[i], cmds[i].kind)))
      && e == Expected(script, Tx(Kinds(cmds))).err
      && Healthy(cn.Wire()) && fate == MultiFate(e, 0)
  {
    hide Reader.Tape, Reader.TapeWith, Record, ReadMulti, Answer, FirstError, MeaningFor, Suits, Queues, BatchError, Served;
    hide Sendable, Conn.Seen, Conn.Takes, Flat, EncodeReqs;
    ghost var work, before, seen := Tx(Kinds(cmds)), cn.Wire(), cn.Seen(turn);
    cn.SeenAll(turn);
    ghost var out;
    e, out := ExecMulti(cn, cmds, turn);
    ghost var after := cn.Wire();
    BufferedIsAhead(cn);
    if turn.failsAfter == None {
      verdicts := ShownIsRead(out, e, after.tape, |cmds|);
      if Healthy(before) && turn.answer == Answer(script) == seen.now && Serves(script, work, cn.rd.buf.Length) {
        TransactionServed(script, work, seen, cn.rd.buf.Length);
        ServedExchange(script, work, before, after, seen, Got(e, verdicts), cn.rd.buf.Length);
      }
    } else {
      verdicts := Marked(|cmds|, TIMEOUT);
    }
    fate := cn.ReleaseToMulti(e);
  }

  lemma TransactionServed(script: Script, work: Work, seen: Tape, cap: nat)
    requires cap >= 16 && work.Tx? && Serves(script, work, cap) && seen.now == Answer(script)
    ensures var rest := Tape([], seen.later);
      match script
      case Aborted(_) => ReadMulti(seen, cap, work.kinds) == AllFailed(TX_FAILED, rest)
      case Committed(_, replies) =>
        && |replies| == |work.kinds|
        && ReadMulti(seen, cap, work.kinds) == Executed(Batch(Meanings(replies, work.kinds), rest))
        && BatchError(Meanings(replies, work.kinds)) == FirstError(Meanings(replies, work.kinds))
  {
    hide EncodeAll, ReadMulti, Encode, Suits, MeaningFor, FirstError, Sendable, Meanings, BatchError;
    var rest := Tape([], seen.later);
    Units(Answer(script));
    assert seen == Ahead(Answer(script), rest);
    match script
    case Committed(statuses, replies) => CommittedInStep(statuses, replies, work.kinds, rest, cap);
    case Aborted(statuses) =>
      AheadTwice(EncodeAll(statuses), Encode(NilArray), rest);
      TransactionAborted(statuses, work.kinds, rest, cap);
  }

  lemma OneCmd(t: Tape, cap: nat, kind: Kind, m: Verdict, rest: Tape)
    requires cap >= 16 && ReadCmd(t, cap, kind) in {(Some(m), rest), (None, t)}
    ensures Reads(Pipe([kind]), t, cap) in {None, Some((Got(Failure(m), [m]), rest))}
  {
    hide ReadCmd;
    assert [kind][1..] == [] && [] + [m] == [m] && [m][1..] == [];
    assert FirstError([m]) == Failure(m) && BatchError([m]) == Failure(m);
    if ReadCmd(t, cap, kind).0.Some? {
      assert ReadBatch(rest, cap, [], [m]) == Batch([m], rest);
      assert ReadBatch(t, cap, [kind], []) == Batch([m], rest);
    }
  }

  /** baseClient.run once it has a connection: a batch of one. */
  method Run(cn: Conn, cmd: Cmd, turn: Turn, ghost reply: Reply)
    returns (fate: Fate, ghost m: Verdict, ghost after: Wire, ghost buffered: nat)
    requires cn.Valid() && cn.Takes(turn)
    modifies cn, cn.rd, cn.rd.buf, cn.rd.rd, cmd
    ensures Exchanged(old(cn.Wire()), after, Pipe([cmd.kind]), turn.answer, old(cn.Seen(turn)), turn.failsAfter == None,
                      Got(Failure(m), [m]), cn.rd.buf.Length)
    ensures Released(cn, after, buffered, Failure(m), fate)
    ensures turn.failsAfter == None ==>
      cn.sent == old(cn.sent) + EncodeReqs([cmd.args]) && cmd.slot == Record(cmd.kind, old(cmd.slot), m)
    ensures turn.failsAfter.Some? ==> cmd.slot == old(cmd.slot).(err := Some(TIMEOUT))
    ensures (turn.failsAfter == None && Healthy(old(cn.Wire())) && turn.answer == Encode(reply) == old(cn.Seen(turn)).now
         && Suits(reply, cmd.kind, cn.rd.buf.Length)) ==>
      && m == MeaningFor(reply, cmd.kind) && Healthy(after) && fate == ReleaseFate(Failure(m), 0)
  {
    hide Reader.Tape, Reader.TapeWith, Record, Encode, ReadCmd, MeaningFor, Suits, Conn.Seen, Conn.Takes, Flat, Reads, EncodeReqs;
    ghost var before, seen := cn.Wire(), cn.Seen(turn);
    cn.SeenAll(turn);
    assert Requests([cmd]) == [cmd.args] && Marked(1, TIMEOUT) == [Bad(TIMEOUT)];
    var e := WriteCmd(cn, [cmd], turn);
    if e.Some? {
      after, buffered, m := cn.Wire(), cn.rd.Buffered(), Bad(TIMEOUT);
      BufferedIsAhead(cn);
      fate := cn.Release(e);
      cmd.SetErr(e.value);
      return;
    }
    var told := cmd.ParseReply(cn.rd);
    m := told;
    after, buffered := cn.Wire(), cn.rd.Buffered();
    BufferedIsAhead(cn);
    OneCmd(seen, cn.rd.buf.Length, cmd.kind, m, after.tape);
    if Healthy(before) && turn.answer == Encode(reply) == seen.now && Suits(reply, cmd.kind, cn.rd.buf.Length) {
      OneServed(reply, cmd.kind, seen, cn.rd.buf.Length);
      ServedToEnd(before, seen, Encode(reply));
    }
    fate := cn.Release(Failure(told));
  }

  lemma OneServed(reply: Reply, kind: Kind, seen: Tape, cap: nat)
    requires cap >= 16 && seen.now == Encode(reply) && Suits(reply, kind, cap)
    ensures ReadCmd(seen, cap, kind) == (Some(MeaningFor(reply, kind)), Tape([], seen.later))
  {
    hide Encode, ReadCmd, MeaningFor, Suits;
    var rest := Tape([], seen.later);
    Units(Encode(reply));
    assert seen == Ahead(Encode(reply), rest);
    SuitedCmdReads(reply, kind, rest, cap);
  }

  lemma ServedToEnd(before: Wire, seen: Tape, answer: seq<byte>)
    requires Healthy(before) && seen.now == answer && Flat(seen) == Flat(before.tape) + answer
    ensures Healthy(Exchange.Wire.Wire(Tape([], seen.later)))
  {
    Units(answer);
    SameTail(answer, Flatten(seen.later));
    Units(Flatten(seen.later));
  }

  // --- A run in which a fault stays hidden ---------------------------------------------------------------------

  const ASK: seq<seq<byte>> := [[65]]

  /** Two commands on a fresh connection. The first is answered with an error; then the connection falls
      silent, and the answer to the second is late. The batch ends with the error of the first command, the
      connection goes back to the pool, and the late answer is still to come. */
  method HiddenFault() returns (e: Option<Error>, fate: Fate, cn: Conn)
    ensures cn.Valid() && e == Some(Redis([69])) && fate == Pooled && Flat(cn.Wire().tape) == Encode(Int(7))
  {
    hide Reads, Still, Flat, CutShort, Encode, EncodeAll, Poisoned, Served;
    var answer, quiet := EncodeAll([REFUSED, Int(7)]), QUIET;
    var seen := Cut(Encode(REFUSED), quiet);
    HiddenPlace(4096);
    var rd := new Source(Tape([], []), 0, true, false);
    var r := new Reader(rd, 4096);
    cn := new Conn(r);
    var first := new Cmd(AnyCmd, ASK);
    var second := new Cmd(IntCmd, ASK);
    var cmds := [first, second];
    var turn := Turn(answer, seen, None);
    assert EmptyTape() by { NothingYet(); }
    assert cn.Wire().tape == Tape([], []) && Kinds(cmds) == [AnyCmd, IntCmd];
    Units(answer);
    Untouched(cn, turn);
    ghost var verdicts, after, buffered;
    e, fate, verdicts, after, buffered := Pipeline(cn, cmds, turn, [REFUSED, Int(7)]);
    HiddenOutcome(after, e, verdicts);
  }

  predicate EmptyTape() { Flat(Tape([], [])) == [] }

  lemma NothingYet() ensures EmptyTape() {}

  lemma Untouched(cn: Conn, turn: Turn)
    requires cn.Valid() && cn.rd.err == None && cn.rd.r == cn.rd.w
    ensures cn.Seen(turn) == turn.arrivals
  {
    AheadNone(turn.arrivals);
  }

  lemma HiddenOutcome(after: Wire, e: Option<Error>, verdicts: seq<Verdict>)
    requires Exchanged(Exchange.Wire.Wire(Tape([], [])), after, Pipe([AnyCmd, IntCmd]), EncodeAll([REFUSED, Int(7)]),
                       Cut(Encode(REFUSED), QUIET), true, Got(e, verdicts), 4096)
    ensures e == Some(Redis([69])) && after.tape.now == [] && Flat(after.tape) == Encode(Int(7)) && ReleaseFate(e, 0) == Pooled
  {
    hide Still, Encode, ReadBatch, Flat;
    HiddenPlace(4096);
    CutExchange(Plain([REFUSED, Int(7)]), Pipe([AnyCmd, IntCmd]), InReplies(1, []), QUIET, 4096);
    HiddenError(4096);
  }

  // --- A run in which half a number is told ----------------------------------------------------------------------

  const TWELVE := Cut([COLON, 49], Tape([], [[50] + CRLF]))

  /** One command on a fresh connection, answered 12. A read fails behind the first digit, the rest is late:
      the command succeeds with 1, the connection goes back to the pool, and the rest is still to come. */
  method HalfANumberTold() returns (cmd: Cmd, fate: Fate, cn: Conn)
    ensures cn.Valid() && cmd.slot == Slot(Some(Num(1)), None) && fate == Pooled && Flat(cn.Wire().tape) == [50] + CRLF
  {
    hide Reads, Flat, Encode, Suits;
    Twelve();
    var rd := new Source(Tape([], []), 0, true, false);
    var r := new Reader(rd, 4096);
    cn := new Conn(r);
    cmd := new Cmd(IntCmd, ASK);
    var turn := Turn([COLON, 49, 50] + CRLF, TWELVE, None);
    assert EmptyTape() by { NothingYet(); }
    Units(turn.answer);
    Untouched(cn, turn);
    ghost var m, after, buffered;
    fate, m, after, buffered := Run(cn, cmd, turn, Int(12));
    HalfOutcome(after, m);
  }

  lemma Twelve()
    ensures Flat(TWELVE) == [COLON, 49, 50] + CRLF && Flat(Tape([], [[50] + CRLF])) == [50] + CRLF
  {
    var rest := Tape([], [[50] + CRLF]);
    assert rest.later[1..] == [];
    assert Flatten(rest.later) == [50] + CRLF && Flat(rest) == [50] + CRLF;
    FlatCut([COLON, 49], rest);
    Assoc([COLON, 49], [50], CRLF);
    assert [COLON, 49] + [50] == [COLON, 49, 50];
  }

  lemma HalfOutcome(after: Wire, m: Verdict)
    requires Reads(Pipe([IntCmd]), TWELVE, 4096) in {None, Some((Got(Failure(m), [m]), after.tape))}
    ensures m == Good(Num(1)) && after.tape == Tape([], [[50] + CRLF])
  {
    hide ReadCmd;
    var rest, told := Tape([], [[50] + CRLF]), Good(Num(1));
    HalfANumber(rest, 4096);
    assert [IntCmd][1..] == [] && [] + [told] == [told];
    assert ReadBatch(rest, 4096, [], [told]) == Batch([told], rest);
    assert ReadBatch(TWELVE, 4096, [IntCmd], []) == Batch([told], rest);
    assert [m][0] == [told][0];
  }
}
