/** command.go and the batches of pipeline.go and multi.go, on tapes. */
module Commands {
  import opened Bytes
  import opened Streams
  import opened Resp
  import opened RespLaws

  /** Cmd, SliceCmd, StatusCmd and StringCmd, IntCmd, StringSliceCmd. */
  datatype Kind = AnyCmd | SliceCmd | StringCmd | IntCmd | StringSliceCmd

  function ParserOf(kind: Kind): MultiBulkParser {
    if kind.AnyCmd? || kind.SliceCmd? then SliceParser
    else if kind.StringSliceCmd? then StringSliceParser
    else NoParser
  }

  /** The type assertion a command makes on its value. */
  predicate Accepts(kind: Kind, v: GoVal) {
    match kind
    case AnyCmd => true
    case SliceCmd => v.List?
    case StringSliceCmd => v.List?
    case StringCmd => v.Str?
    case IntCmd => v.Num?
  }

  function Cast(kind: Kind, m: Verdict): Verdict {
    if m.Good? && !Accepts(kind, m.value) then Bad(Panic) else m
  }

  /** The val and err fields of a command object. */
  datatype Slot = Slot(val: Option<GoVal>, err: Option<Error>)

  /** What parseReply leaves in the fields: Cmd writes both, the others only the one concerned, and
      a failed type assertion writes none. */
  function Record(kind: Kind, before: Slot, m: Verdict): Slot {
    match m
    case Good(v) => if kind.AnyCmd? then Slot(Some(v), None) else before.(val := Some(v))
    case Bad(err) =>
      if err == Panic then before
      else if kind.AnyCmd? then Slot(None, Some(err))
      else before.(err := Some(err))
  }

  function Failure(m: Verdict): Option<Error> {
    if m.Bad? then Some(m.err) else None
  }

  /** One command reads its reply. */
  function ReadCmd(t: Tape, cap: nat, kind: Kind): (Option<Verdict>, Tape)
    requires cap >= MIN_BUFFER
  {
    match ParseReply(t, cap, ParserOf(kind))
    case Unsettled => (None, t)
    case Ok(v, rest) => (Some(Cast(kind, Good(v))), rest)
    case Fail(err, rest) => (Some(Bad(err)), rest)
  }

  /** What a batch of commands reads: a verdict per command up to the first panic. */
  datatype BatchOut = Batch(verdicts: seq<Verdict>, rest: Tape) | UnsettledBatch

  function ReadBatch(t: Tape, cap: nat, kinds: seq<Kind>, acc: seq<Verdict>): BatchOut
    requires cap >= MIN_BUFFER
    decreases |kinds|
  {
    if kinds == [] then Batch(acc, t)
    else match ReadCmd(t, cap, kinds[0])
      case (None, _) => UnsettledBatch
      case (Some(m), rest) =>
        if m == Bad(Panic) then Batch(acc + [m], rest) else ReadBatch(rest, cap, kinds[1..], acc + [m])
  }

  /** The error of the first command that failed. */
  function FirstError(verdicts: seq<Verdict>): Option<Error> {
    if verdicts == [] then None
    else if verdicts[0].Bad? then Some(verdicts[0].err)
    else FirstError(verdicts[1..])
  }

  lemma {:induction false} FirstErrorSnoc(verdicts: seq<Verdict>, m: Verdict)
    ensures FirstError(verdicts + [m]) == if FirstError(verdicts).Some? then FirstError(verdicts) else Failure(m)
  {
    if verdicts != [] {
      assert (verdicts + [m])[1..] == verdicts[1..] + [m];
      FirstErrorSnoc(verdicts[1..], m);
    } else {
      assert ([] + [m])[1..] == [];
    }
  }

  predicate IsLowestFailure(verdicts: seq<Verdict>, i: nat, err: Error) {
    i < |verdicts| && verdicts[i] == Bad(err) && forall j :: 0 <= j < i ==> verdicts[j].Good?
  }

  /** FirstError really is the failure with the lowest index. */
  lemma {:induction false} FirstErrorIsLowest(verdicts: seq<Verdict>)
    ensures FirstError(verdicts) == None ==> forall i :: 0 <= i < |verdicts| ==> verdicts[i].Good?
    ensures FirstError(verdicts).Some? ==> exists i: nat :: IsLowestFailure(verdicts, i, FirstError(verdicts).value)
  {
    if verdicts != [] {
      var err := FirstError(verdicts);
      if verdicts[0].Bad? {
        assert IsLowestFailure(verdicts, 0, err.value);
      } else {
        FirstErrorIsLowest(verdicts[1..]);
        assert forall j :: 1 <= j < |verdicts| ==> verdicts[j] == verdicts[1..][j - 1];
        if err.Some? {
          var i: nat :| IsLowestFailure(verdicts[1..], i, err.value);
          assert verdicts[i + 1] == verdicts[1..][i];
          assert IsLowestFailure(verdicts, i + 1, err.value);
        }
      }
    }
  }

  // --- What the server's replies mean to a batch -------------------------------------------------

  function MeaningFor(v: Reply, kind: Kind): Verdict { Cast(kind, Meaning(v, ParserOf(kind))) }

  /** A reply the command reads to its end without panicking. */
  predicate Suits(v: Reply, kind: Kind, cap: nat) {
    Sendable(v, cap) && EndsWithError(v, ParserOf(kind)) && MeaningFor(v, kind) != Bad(Panic)
  }

  function Meanings(replies: seq<Reply>, kinds: seq<Kind>): seq<Verdict>
    requires |replies| == |kinds|
  {
    seq(|replies|, i requires 0 <= i < |replies| => MeaningFor(replies[i], kinds[i]))
  }

  lemma CmdReads(v: Reply, kind: Kind, rest: Tape, cap: nat)
    requires cap >= MIN_BUFFER && Sendable(v, cap)
    ensures ReadCmd(Ahead(Encode(v), rest), cap, kind)
         == (Some(MeaningFor(v, kind)), Ahead(Unread(v, ParserOf(kind)), rest))
  {
    hide Meaning, Unread, Encode, ParseReply;
    ReplyDecodes(v, rest, cap, ParserOf(kind));
  }

  /** Batch alignment: whatever earlier commands failed with, command i gets reply i, and the stream
      is left exactly behind the last reply. */
  lemma {:induction false} BatchAligned(replies: seq<Reply>, kinds: seq<Kind>, rest: Tape, cap: nat, acc: seq<Verdict>)
    requires cap >= MIN_BUFFER && |replies| == |kinds|
    requires forall i :: 0 <= i < |kinds| ==> Suits(replies[i], kinds[i], cap)
    ensures ReadBatch(Ahead(EncodeAll(replies), rest), cap, kinds, acc) == Batch(acc + Meanings(replies, kinds), rest)
    decreases |replies|
  {
    hide Encode, Suits, MeaningFor, ReadCmd;
    if replies == [] {
      AheadNone(rest);
      assert acc + Meanings(replies, kinds) == acc;
    } else {
      var v, kind := replies[0], kinds[0];
      var after := Ahead(EncodeAll(replies[1..]), rest);
      AheadTwice(Encode(v), EncodeAll(replies[1..]), rest);
      SuitedCmdReads(v, kind, after, cap);
      var m := MeaningFor(v, kind);
      assert forall i :: 0 <= i < |kinds| - 1 ==> Suits(replies[1..][i], kinds[1..][i], cap);
      BatchAligned(replies[1..], kinds[1..], rest, cap, acc + [m]);
      assert acc + Meanings(replies, kinds) == acc + [m] + Meanings(replies[1..], kinds[1..]);
    }
  }

  lemma SuitedCmdReads(v: Reply, kind: Kind, rest: Tape, cap: nat)
    requires cap >= MIN_BUFFER && Suits(v, kind, cap)
    ensures ReadCmd(Ahead(Encode(v), rest), cap, kind) == (Some(MeaningFor(v, kind)), rest)
    ensures MeaningFor(v, kind) != Bad(Panic)
  {
    hide Encode, Meaning, Unread, EndsWithError, ReadCmd, Sendable;
    CmdReads(v, kind, rest, cap);
    ConsumedExactly(v, ParserOf(kind));
    AheadNone(rest);
  }

  /** Where alignment ends: the command after a reply that was not read to its end parses the unread
      part of that reply instead of its own. */
  lemma MisalignedAfter(v: Reply, kind: Kind, rest: Tape, cap: nat, next: Kind)
    requires cap >= MIN_BUFFER && Sendable(v, cap) && MeaningFor(v, kind) != Bad(Panic)
    ensures ReadBatch(Ahead(Encode(v), rest), cap, [kind, next], [])
         == ReadBatch(Ahead(Unread(v, ParserOf(kind)), rest), cap, [next], [MeaningFor(v, kind)])
    ensures Unread(v, ParserOf(kind)) == [] <==> EndsWithError(v, ParserOf(kind))
  {
    hide Encode, Unread, MeaningFor, ReadCmd, EndsWithError;
    CmdReads(v, kind, rest, cap);
    ConsumedExactly(v, ParserOf(kind));
    assert [kind, next][1..] == [next];
    assert [] + [MeaningFor(v, kind)] == [MeaningFor(v, kind)];
  }

  lemma LastCmdReads(v: Reply, kind: Kind, rest: Tape, cap: nat, acc: seq<Verdict>)
    requires cap >= MIN_BUFFER && Suits(v, kind, cap)
    ensures ReadBatch(Ahead(Encode(v), rest), cap, [kind], acc) == Batch(acc + [MeaningFor(v, kind)], rest)
  {
    hide Encode, MeaningFor, ReadCmd, Suits;
    SuitedCmdReads(v, kind, rest, cap);
    assert [kind][1..] == [];
  }

  /** An array whose first element is an error, and what is left of it. */
  lemma BrokenArray()
    ensures var v := Array([Reply.Error([69]), Int(1)]);
      && Sendable(v, 4096) && MeaningFor(v, AnyCmd) == Bad(Redis([69]))
      && Unread(v, SliceParser) == Encode(Int(1))
  {
    var items := [Reply.Error([69]), Int(1)];
    assert items[1..] == [Int(1)] && [Int(1)][1..] == [];
    assert EncodeAll([Int(1)]) == Encode(Int(1)) + [];
    assert DecInt(1) == [49] && Dec(2) == [50];
    assert Meaning(items[0], SliceParser) == Bad(Redis([69]));
  }

  /** A run in which it happens: the second command is answered 1, which belongs to the first. */
  lemma AnotherCommandsReply(rest: Tape)
    ensures var first := Array([Reply.Error([69]), Int(1)]);
      ReadBatch(Ahead(Encode(first), Ahead(Encode(Int(7)), rest)), 4096, [AnyCmd, IntCmd], [])
        == Batch([Bad(Redis([69])), Good(Num(1))], Ahead(Encode(Int(7)), rest))
  {
    hide Encode, ReadBatch, MeaningFor, Unread, Suits, Sendable, EndsWithError, DecInt;
    BrokenArray();
    One();
    var tail := Ahead(Encode(Int(7)), rest);
    MisalignedAfter(Array([Reply.Error([69]), Int(1)]), AnyCmd, tail, 4096, IntCmd);
    LastCmdReads(Int(1), IntCmd, tail, 4096, [Bad(Redis([69]))]);
  }

  lemma One()
    ensures Suits(Int(1), IntCmd, 4096) && MeaningFor(Int(1), IntCmd) == Good(Num(1))
  {
    assert DecInt(1) == [49];
  }
}
