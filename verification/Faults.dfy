/** Reads that fail in the middle of a batch: what the command is told whose reply is cut off, what becomes
    of the commands behind it, and of the connection. */
module Faults {
  import opened Bytes
  import opened Streams
  import opened Resp
  import opened RespLaws
  import opened Commands
  import opened Transactions
  import opened Exchange
  import opened CutReplies

  function Failed(n: nat): seq<Verdict> { Marked(n, TIMEOUT) }

  lemma StillCmd(t: Tape, cap: nat, kind: Kind)
    requires cap >= MIN_BUFFER && Still(t, 1)
    ensures ReadCmd(t, cap, kind) == (Some(Bad(TIMEOUT)), Past(t))
  {
    StillReply(t, cap, ParserOf(kind));
  }

  /** In silence every command fails, one read each. */
  lemma {:induction false} StillBatch(t: Tape, cap: nat, kinds: seq<Kind>, acc: seq<Verdict>)
    requires cap >= MIN_BUFFER && Still(t, |kinds|)
    ensures ReadBatch(t, cap, kinds, acc) == Batch(acc + Failed(|kinds|), PastAll(t, |kinds|))
    decreases |kinds|
  {
    hide ReadCmd;
    if kinds == [] {
      assert acc + Failed(0) == acc;
    } else {
      StillLess(t, |kinds|, 1);
      StillCmd(t, cap, kinds[0]);
      StillBatch(Past(t), cap, kinds[1..], acc + [Bad(TIMEOUT)]);
      PastOneMore(t, |kinds| - 1);
      assert acc + [Bad(TIMEOUT)] + Failed(|kinds| - 1) == acc + Failed(|kinds|);
    }
  }

  // --- A batch that is cut off ---------------------------------------------------------------------------

  /** What the command whose reply is cut off is told. */
  function CutTold(v: Reply, kind: Kind, part: seq<byte>): Verdict { Cast(kind, CutMeaning(v, part, ParserOf(kind))) }

  lemma CutCmd(v: Reply, kind: Kind, part: seq<byte>, gap: Tape, cap: nat)
    requires cap >= MIN_BUFFER && Suits(v, kind, cap) && part < Encode(v) && Still(gap, 1)
    ensures var (m, rest) := ReadCmd(Cut(part, gap), cap, kind);
      m == Some(CutTold(v, kind, part)) && rest in [gap, Past(gap)]
  {
    hide ParseReply, Sendable, EndsWithError, Encode, MeaningFor, CutMeaning;
    CutReply(v, part, gap, cap, ParserOf(kind));
    CutTells(v, part, gap, cap, ParserOf(kind));
  }

  /** A cut makes no command panic. */
  lemma CutStaysCalm(v: Reply, kind: Kind, part: seq<byte>, cap: nat)
    requires Suits(v, kind, cap)
    ensures CutTold(v, kind, part) != Bad(Panic)
  {
    hide Sendable, EndsWithError;
    CutNoPanic(v, part, ParserOf(kind));
    if v.Array? { CutListOrFails(v.items, part, ParserOf(kind)); }
  }

  lemma CutListOrFails(items: seq<Reply>, part: seq<byte>, p: MultiBulkParser)
    ensures var m := CutMeaning(Array(items), part, p); m.Good? ==> m.value.List?
  {
    var header := NumberHeader(STAR, |items|);
    if |part| >= |header| { CutAllListOrFails(items, part[|header|..], p, []); }
  }

  lemma {:induction false} CutAllListOrFails(items: seq<Reply>, part: seq<byte>, p: MultiBulkParser, acc: seq<GoVal>)
    ensures var m := CutMeaningAll(items, part, p, acc); m.Good? ==> m.value.List?
    decreases |items|
  {
    hide Encode, CutMeaning, Meaning;
    if items != [] && |part| >= |Encode(items[0])| {
      match Admit(p, Meaning(items[0], ElementParser(p)))
      case Keep(x) => CutAllListOrFails(items[1..], part[|Encode(items[0])|..], p, acc + [x]);
      case Stop(_) =>
    }
  }

  lemma CutAtOnce(gap: Tape, cap: nat, kind: Kind)
    requires cap >= MIN_BUFFER
    ensures ReadCmd(Cut([], gap), cap, kind) == (Some(Bad(TIMEOUT)), gap)
  {
    CutPast([], gap);
    assert ReadLine(Cut([], gap), cap) == Fail(TIMEOUT, gap);
  }

  lemma {:induction false} BatchPrefix(replies: seq<Reply>, kinds: seq<Kind>, k: nat, t: Tape, cap: nat, acc: seq<Verdict>)
    requires cap >= MIN_BUFFER && Served(replies, kinds, cap) && k <= |kinds|
    ensures ReadBatch(Ahead(EncodeAll(replies[..k]), t), cap, kinds, acc)
         == ReadBatch(t, cap, kinds[k..], acc + Meanings(replies[..k], kinds[..k]))
    decreases k
  {
    hide Encode, Suits, MeaningFor, ReadCmd;
    if k == 0 {
      AheadNone(t);
      assert acc + Meanings(replies[..0], kinds[..0]) == acc && kinds[0..] == kinds;
    } else {
      var v, kind, most := replies[0], kinds[0], replies[1..];
      assert replies[..k][1..] == most[..k - 1] && replies[..k][0] == v;
      AheadTwice(Encode(v), EncodeAll(most[..k - 1]), t);
      SuitedCmdReads(v, kind, Ahead(EncodeAll(most[..k - 1]), t), cap);
      BatchPrefix(most, kinds[1..], k - 1, t, cap, acc + [MeaningFor(v, kind)]);
      assert kinds[1..][k - 1..] == kinds[k..];
      assert acc + Meanings(replies[..k], kinds[..k])
          == acc + [MeaningFor(v, kind)] + Meanings(most[..k - 1], kinds[1..][..k - 1]);
    }
  }

  /** What the commands of a batch are told when the k-th reply is cut off and nothing more arrives. */
  function CutVerdicts(replies: seq<Reply>, kinds: seq<Kind>, k: nat, part: seq<byte>): seq<Verdict>
    requires |replies| == |kinds| && k < |kinds|
  {
    Meanings(replies[..k], kinds[..k]) + [CutTold(replies[k], kinds[k], part)] + Failed(|kinds| - k - 1)
  }

  lemma CutBatch(replies: seq<Reply>, kinds: seq<Kind>, k: nat, part: seq<byte>, gap: Tape, cap: nat)
    requires cap >= MIN_BUFFER && Served(replies, kinds, cap) && k < |kinds| && part < Encode(replies[k])
    requires Still(gap, |kinds| - k + 1)
    ensures var out := ReadBatch(Ahead(EncodeAll(replies[..k]), Cut(part, gap)), cap, kinds, []);
      out.Batch? && out.verdicts == CutVerdicts(replies, kinds, k, part) && out.rest.now == [] && Flat(out.rest) == Flat(gap)
  {
    hide Encode, Suits, MeaningFor, ReadCmd, EncodeAll, Still, PastAll, Flat, Meanings, CutTold;
    var told := Meanings(replies[..k], kinds[..k]);
    BatchPrefix(replies, kinds, k, Cut(part, gap), cap, []);
    assert [] + told == told;
    assert kinds[k..][0] == kinds[k] && kinds[k..][1..] == kinds[k + 1..];
    StillLess(gap, |kinds| - k + 1, 1);
    CutCmd(replies[k], kinds[k], part, gap, cap);
    CutStaysCalm(replies[k], kinds[k], part, cap);
    var (m, rest) := ReadCmd(Cut(part, gap), cap, kinds[k]);
    PastOneMore(gap, 0);
    StillNow(gap, |kinds| - k + 1);
    StillLess(gap, |kinds| - k + 1, |kinds| - k);
    Afterwards(gap, rest, cap, kinds[k + 1..], told + [m.value]);
  }

  lemma StillNow(t: Tape, m: nat)
    requires m > 0 && Still(t, m)
    ensures t.now == []
  {
  }

  /** The commands behind the one that was cut off. */
  lemma Afterwards(gap: Tape, rest: Tape, cap: nat, kinds: seq<Kind>, acc: seq<Verdict>)
    requires cap >= MIN_BUFFER && Still(gap, |kinds| + 2) && rest in [gap, Past(gap)]
    ensures rest.now == [] && Flat(rest) == Flat(gap)
    ensures var out := ReadBatch(rest, cap, kinds, acc);
      out.Batch? && out.verdicts == acc + Failed(|kinds|) && out.rest.now == [] && Flat(out.rest) == Flat(gap)
  {
    hide ReadBatch, Flat;
    StillLess(gap, |kinds| + 2, 1);
    PastOneMore(gap, 0);
    StillLess(gap, |kinds| + 2, |kinds| + 1);
    if rest == gap { StillLess(gap, |kinds| + 2, |kinds| + 1); }
    StillNow(rest, |kinds| + 1);
    StillLess(rest, |kinds| + 1, |kinds|);
    StillNow(PastAll(rest, |kinds|), 1);
    StillBatch(rest, cap, kinds, acc);
  }

  // --- The error of such a batch ---------------------------------------------------------------------------

  lemma {:induction false} FirstErrorConcat(a: seq<Verdict>, b: seq<Verdict>)
    ensures FirstError(a + b) == if FirstError(a).Some? then FirstError(a) else FirstError(b)
  {
    if a == [] {
      assert a + b == b;
    } else {
      assert (a + b)[1..] == a[1..] + b;
      FirstErrorConcat(a[1..], b);
    }
  }

  lemma FirstOfOne(m: Verdict, n: nat)
    ensures FirstError([m] + Failed(n)) == if m.Bad? then Some(m.err) else if n > 0 then Some(TIMEOUT) else None
  {
    assert ([m] + Failed(n))[1..] == Failed(n);
    assert n > 0 ==> Failed(n)[0] == Bad(TIMEOUT);
  }

  /** The connection of a batch goes back to the pool although replies to it are still under way: what was
      told before the cut has failed with a redis error, or nothing has and the reply that was cut off is
      such an error, or is taken for a whole reply to the last command. */
  predicate Poisons(replies: seq<Reply>, kinds: seq<Kind>, k: nat, part: seq<byte>)
    requires |replies| == |kinds| && k < |kinds|
  {
    match FirstError(Meanings(replies[..k], kinds[..k]))
    case Some(err) => err.Redis?
    case None =>
      var m := CutTold(replies[k], kinds[k], part);
      if m.Bad? then m.err.Redis? else k + 1 == |kinds|
  }

  lemma CutError(replies: seq<Reply>, kinds: seq<Kind>, k: nat, part: seq<byte>, cap: nat)
    requires Served(replies, kinds, cap) && k < |kinds|
    ensures var err := BatchError(CutVerdicts(replies, kinds, k, part));
      err != Some(Panic) && (ReleaseFate(err, 0) == Pooled <==> Poisons(replies, kinds, k, part))
  {
    hide FirstError, Meanings, CutTold, Suits;
    var n, m := |kinds| - k - 1, CutTold(replies[k], kinds[k], part);
    var told, all := Meanings(replies[..k], kinds[..k]), CutVerdicts(replies, kinds, k, part);
    CutStaysCalm(replies[k], kinds[k], part, cap);
    assert all == told + ([m] + Failed(n));
    assert all[|all| - 1] == if n == 0 then m else Bad(TIMEOUT);
    FirstErrorConcat(told, [m] + Failed(n));
    FirstOfOne(m, n);
    CalmSoFar(replies, kinds, k, cap);
  }

  lemma {:induction false} CalmSoFar(replies: seq<Reply>, kinds: seq<Kind>, k: nat, cap: nat)
    requires Served(replies, kinds, cap) && k <= |kinds|
    ensures FirstError(Meanings(replies[..k], kinds[..k])) != Some(Panic)
  {
    hide Suits, MeaningFor, FirstError;
    var told := Meanings(replies[..k], kinds[..k]);
    FirstErrorIsLowest(told);
    forall i | 0 <= i < k ensures told[i] != Bad(Panic) {
      SuitedNoPanic(replies[i], kinds[i], cap);
    }
  }

  // --- Any batch, cut off anywhere -------------------------------------------------------------------------

  /** Where an answer is cut off: so many whole replies have come, and a part of the next. */
  datatype Place =
    | InStatuses(k: nat, part: seq<byte>)
    | InHeader(part: seq<byte>)
    | InReplies(k: nat, part: seq<byte>)

  /** The line that answers EXEC. */
  function ExecLine(script: Script): seq<byte>
    requires !script.Plain?
  {
    if script.Aborted? then Encode(NilArray) else NumberHeader(STAR, |script.replies|)
  }

  predicate IsPlace(script: Script, at: Place) {
    match at
    case InStatuses(k, part) => !script.Plain? && k < |script.statuses| && part < Encode(script.statuses[k])
    case InHeader(part) => !script.Plain? && part < ExecLine(script)
    case InReplies(k, part) => !script.Aborted? && k < |script.replies| && part < Encode(script.replies[k])
  }

  /** What has come when the answer is cut off there. */
  function Came(script: Script, at: Place): seq<byte>
    requires IsPlace(script, at)
  {
    match at
    case InStatuses(k, part) => EncodeAll(script.statuses[..k]) + part
    case InHeader(part) => EncodeAll(script.statuses) + part
    case InReplies(k, part) =>
      (if script.Plain? then [] else EncodeAll(script.statuses) + ExecLine(script)) + (EncodeAll(script.replies[..k]) + part)
  }

  lemma {:induction false} CutAmong(replies: seq<Reply>, x: seq<byte>) returns (k: nat, part: seq<byte>)
    requires x < EncodeAll(replies)
    ensures k < |replies| && part < Encode(replies[k]) && x == EncodeAll(replies[..k]) + part
    decreases |replies|
  {
    hide Encode;
    PrefixOfSum(x, Encode(replies[0]), EncodeAll(replies[1..]));
    if x < Encode(replies[0]) {
      k, part := 0, x;
      Units(x);
    } else {
      var more := x[|Encode(replies[0])|..];
      k, part := CutAmong(replies[1..], more);
      assert replies[..k + 1][1..] == replies[1..][..k];
      Assoc(Encode(replies[0]), EncodeAll(replies[1..][..k]), part);
      k := k + 1;
    }
  }

  /** Every point short of the end of an answer is such a place. */
  lemma EveryPlace(script: Script, x: seq<byte>) returns (at: Place)
    requires x < Answer(script)
    ensures IsPlace(script, at) && Came(script, at) == x
  {
    hide Encode, EncodeAll;
    match script
    case Plain(replies) =>
      var k, part := CutAmong(replies, x);
      at := InReplies(k, part);
      Units(x);
    case Committed(statuses, replies) =>
      ExecAnswer(script);
      PrefixOfSum(x, EncodeAll(statuses), ExecLine(script) + EncodeAll(replies));
      if x < EncodeAll(statuses) {
        var k, part := CutAmong(statuses, x);
        at := InStatuses(k, part);
      } else {
        var more := x[|EncodeAll(statuses)|..];
        PrefixOfSum(more, ExecLine(script), EncodeAll(replies));
        if more < ExecLine(script) {
          at := InHeader(more);
        } else {
          var rest := more[|ExecLine(script)|..];
          var k, part := CutAmong(replies, rest);
          at := InReplies(k, part);
          Assoc(EncodeAll(statuses), ExecLine(script), rest);
        }
      }
    case Aborted(statuses) =>
      PrefixOfSum(x, EncodeAll(statuses), ExecLine(script));
      if x < EncodeAll(statuses) {
        var k, part := CutAmong(statuses, x);
        at := InStatuses(k, part);
      } else {
        at := InHeader(x[|EncodeAll(statuses)|..]);
      }
  }

  lemma ExecAnswer(script: Script)
    requires !script.Plain?
    ensures Answer(script) == EncodeAll(script.statuses) + (ExecLine(script) + if script.Aborted? then [] else EncodeAll(script.replies))
  {
    if script.Aborted? { Units(Encode(NilArray)); }
  }

  /** Whether the connection goes back to the pool with replies still under way. In a transaction that is
      so while its replies are read, as in a pipeline; before that only if the nil array that answers EXEC
      is cut off right in front of its line end. */
  predicate Poisoned(script: Script, work: Work, at: Place)
    requires IsPlace(script, at) && (script.Aborted? || |script.replies| == |work.kinds|)
  {
    match at
    case InStatuses(_, _) => false
    case InHeader(part) => script.Aborted? && part == [STAR, MINUS, 49]
    case InReplies(k, part) => Poisons(script.replies, work.kinds, k, part)
  }

  /** A status that is cut off is taken for a whole one; the next read fails, and the transaction with it. */
  lemma {:induction false} CutStatuses(statuses: seq<Reply>, k: nat, part: seq<byte>, n: nat, gap: Tape, cap: nat)
    requires cap >= MIN_BUFFER && k < |statuses| == n && part < Encode(statuses[k]) && Still(gap, 1)
    requires forall v <- statuses :: IsStatus(v, cap)
    ensures var out := ReadStatuses(Ahead(EncodeAll(statuses[..k]), Cut(part, gap)), cap, n);
      out == NotQueued(TIMEOUT, gap) || out == NotQueued(TIMEOUT, Past(gap)) || (out == Queued(gap) && k + 1 == n)
    decreases n
  {
    hide Encode, ReadCmd, Suits, Still;
    var v := statuses[0];
    StatusSuits(v, cap);
    if k == 0 {
      AheadNone(Cut(part, gap));
      CutStatus(v, part, gap, cap);
      if n > 1 { StillCmd(gap, cap, StringCmd); }
    } else {
      assert statuses[..k][1..] == statuses[1..][..k - 1] && statuses[..k][0] == v;
      var after := Ahead(EncodeAll(statuses[1..][..k - 1]), Cut(part, gap));
      AheadTwice(Encode(v), EncodeAll(statuses[1..][..k - 1]), Cut(part, gap));
      SuitedCmdReads(v, StringCmd, after, cap);
      CutStatuses(statuses[1..], k - 1, part, n - 1, gap, cap);
    }
  }

  lemma CutStatus(v: Reply, part: seq<byte>, gap: Tape, cap: nat)
    requires cap >= MIN_BUFFER && IsStatus(v, cap) && part < Encode(v)
    ensures ReadCmd(Cut(part, gap), cap, StringCmd)
         == if part == [] then (Some(Bad(TIMEOUT)), gap) else (Some(Good(Str(part[1..]))), gap)
  {
    hide ReadLine;
    CutLine([PLUS] + v.text, part, gap, cap);
    if part != [] {
      assert part[0] == Encode(v)[0] == PLUS;
      assert ParseReply(Cut(part, gap), cap, NoParser) == ParseBody(part, gap, cap, NoParser) == Ok(Str(part[1..]), gap);
    }
  }

  lemma CutExec(script: Script, part: seq<byte>, kinds: seq<Kind>, gap: Tape, cap: nat)
    requires cap >= MIN_BUFFER && !script.Plain? && part < ExecLine(script) && Still(gap, |kinds| + 1) && kinds != []
    requires script.Committed? ==> |DecInt(|script.replies|)| + 3 <= cap
    ensures var out := ReadExec(Cut(part, gap), cap, kinds);
      if part == [] then out == AllFailed(TIMEOUT, gap)
      else if script.Aborted? && part == [STAR, MINUS, 49] then out == AllFailed(TX_FAILED, gap)
      else out == Executed(Batch(Failed(|kinds|), PastAll(gap, |kinds|)))
  {
    hide ReadLine, ReadBatch, Still, PastAll, DecInt, IsNilMark;
    var text := if script.Aborted? then [STAR, MINUS, 49] else [STAR] + DecInt(|script.replies|);
    if script.Committed? { HeaderText(STAR, |script.replies|); }
    CutLine(text, part, gap, cap);
    StillLess(gap, |kinds| + 1, |kinds|);
    StillBatch(gap, cap, kinds, []);
    Units(Failed(|kinds|));
    if part != [] {
      if script.Committed? { NoMinus(|script.replies|, part); }
      else { NilLine(part); }
    }
  }

  lemma NilLine(part: seq<byte>)
    requires part != [] && part < Encode(NilArray)
    ensures part[0] == STAR && (IsNilMark(part) <==> part == [STAR, MINUS, 49])
  {
  }

  lemma NoMinus(n: nat, part: seq<byte>)
    requires part != [] && part < NumberHeader(STAR, n)
    ensures !IsNilMark(part) && part[0] == STAR
  {
    if |part| == 3 {
      assert part[1] == NumberHeader(STAR, n)[1] == DecInt(n)[0];
      ParseIntDec(n, 0);
    }
  }

  lemma FailedBatch(n: nat)
    requires n > 0
    ensures BatchError(Failed(n)) == Some(TIMEOUT)
  {
    assert Failed(n)[n - 1] == Bad(TIMEOUT) && Failed(n)[0] == Bad(TIMEOUT);
  }

  // The whole batch.

  ghost predicate LeftBehind(r: Option<(Got, Tape)>, gap: Tape, pooled: bool) {
    r.Some? && var (got, left) := r.value;
    && left.now == [] && Flat(left) == Flat(gap) && got.err != Some(Panic)
    && (ReleaseFate(got.err, 0) == Pooled <==> pooled)
  }

  lemma CutInReplies(replies: seq<Reply>, kinds: seq<Kind>, k: nat, part: seq<byte>, gap: Tape, cap: nat)
    requires cap >= MIN_BUFFER && Served(replies, kinds, cap) && k < |kinds| && part < Encode(replies[k])
    requires Still(gap, |kinds| + 3)
    ensures LeftBehind(BatchReads(ReadBatch(Cut(EncodeAll(replies[..k]) + part, gap), cap, kinds, [])), gap,
                       Poisons(replies, kinds, k, part))
  {
    hide ReadBatch, Still, Flat, Encode, EncodeAll, Poisons, CutVerdicts, Suits, ReleaseFate, BatchError;
    CutAhead(EncodeAll(replies[..k]), part, gap);
    StillLess(gap, |kinds| + 3, |kinds| - k + 1);
    CutBatch(replies, kinds, k, part, gap, cap);
    CutError(replies, kinds, k, part, cap);
  }

  lemma CutInStatuses(script: Script, kinds: seq<Kind>, k: nat, part: seq<byte>, gap: Tape, cap: nat)
    requires cap >= MIN_BUFFER && !script.Plain? && Queues(script.statuses, |kinds| + 1, cap)
    requires k < |script.statuses| && part < Encode(script.statuses[k]) && Still(gap, 3)
    ensures LeftBehind(TransactionReads(ReadMulti(Cut(EncodeAll(script.statuses[..k]) + part, gap), cap, kinds), |kinds|), gap, false)
  {
    hide ReadStatuses, ReadBatch, ReadLine, Flat, Encode, EncodeAll;
    CutAhead(EncodeAll(script.statuses[..k]), part, gap);
    CutStatuses(script.statuses, k, part, |kinds| + 1, gap, cap);
    StillLine(gap, cap);
    StillLess(gap, 3, 1);
    PastOneMore(gap, 0);
    StillNow(gap, 3);
    StillNow(Past(gap), 2);
  }

  lemma CutInHeader(script: Script, kinds: seq<Kind>, part: seq<byte>, gap: Tape, cap: nat)
    requires cap >= MIN_BUFFER && !script.Plain? && Queues(script.statuses, |kinds| + 1, cap) && kinds != []
    requires script.Committed? ==> |DecInt(|script.replies|)| + 3 <= cap
    requires part < ExecLine(script) && Still(gap, |kinds| + 3)
    ensures LeftBehind(TransactionReads(ReadMulti(Cut(EncodeAll(script.statuses) + part, gap), cap, kinds), |kinds|), gap,
                       script.Aborted? && part == [STAR, MINUS, 49])
  {
    hide ReadStatuses, ReadBatch, ReadExec, Flat, EncodeAll, ExecLine, Still, PastAll, BatchError;
    CutAhead(EncodeAll(script.statuses), part, gap);
    StatusesRead(script.statuses, Cut(part, gap), cap, |kinds| + 1);
    StillLess(gap, |kinds| + 3, |kinds| + 1);
    CutExec(script, part, kinds, gap, cap);
    FailedBatch(|kinds|);
    StillNow(gap, |kinds| + 3);
    StillLess(gap, |kinds| + 3, |kinds|);
    StillNow(PastAll(gap, |kinds|), 3);
  }

  lemma ExecHeader(statuses: seq<Reply>, n: nat, t: Tape, kinds: seq<Kind>, cap: nat)
    requires cap >= MIN_BUFFER && Queues(statuses, |kinds| + 1, cap) && n <= MAX_INT64 && |DecInt(n)| + 3 <= cap
    ensures ReadMulti(Ahead(EncodeAll(statuses) + NumberHeader(STAR, n), t), cap, kinds) == Executed(ReadBatch(t, cap, kinds, []))
  {
    hide ReadStatuses, ReadBatch, ReadLine, EncodeAll, DecInt;
    AheadTwice(EncodeAll(statuses), NumberHeader(STAR, n), t);
    StatusesRead(statuses, Ahead(NumberHeader(STAR, n), t), cap, |kinds| + 1);
    NumberLine(STAR, n, t, cap);
  }

  /** A batch whose answer is cut off anywhere, with nothing more to come while the batch is read: all that
      came has been used up, and the connection goes back to the pool exactly when it is poisoned. */
  lemma CutExchange(script: Script, work: Work, at: Place, gap: Tape, cap: nat)
    requires cap >= MIN_BUFFER && Serves(script, work, cap) && IsPlace(script, at)
    requires Still(gap, |work.kinds| + 3) && (work.Tx? ==> work.kinds != [])
    ensures LeftBehind(Reads(work, Cut(Came(script, at), gap), cap), gap, Poisoned(script, work, at))
  {
    hide ReadBatch, ReadMulti, Still, Flat, Encode, EncodeAll, Poisons, LeftBehind, Suits;
    match at
    case InStatuses(k, part) =>
      StillLess(gap, |work.kinds| + 3, 3);
      CutInStatuses(script, work.kinds, k, part, gap, cap);
    case InHeader(part) =>
      CutInHeader(script, work.kinds, part, gap, cap);
    case InReplies(k, part) =>
      CutInReplies(script.replies, work.kinds, k, part, gap, cap);
      ReadAsReplies(script, work, k, part, gap, cap);
  }

  lemma FlatCut(x: seq<byte>, gap: Tape)
    ensures Flat(Cut(x, gap)) == x + Flat(gap)
  {
    assert ([gap.now] + gap.later)[1..] == gap.later;
  }

  lemma {:induction false} EncodeSplit(replies: seq<Reply>, k: nat)
    requires k < |replies|
    ensures |EncodeAll(replies)| >= |EncodeAll(replies[..k])| + |Encode(replies[k])|
    decreases k
  {
    hide Encode;
    if k > 0 {
      EncodeSplit(replies[1..], k - 1);
      assert replies[..k][1..] == replies[1..][..k - 1] && replies[..k][0] == replies[0];
    }
  }

  /** Replies are still under way. */
  lemma Owed(script: Script, at: Place, gap: Tape)
    requires IsPlace(script, at) && Flat(Cut(Came(script, at), gap)) == Answer(script)
    ensures Flat(gap) != []
  {
    hide Encode, EncodeAll, Flat, ExecLine;
    FlatCut(Came(script, at), gap);
    if !script.Plain? { ExecAnswer(script); }
    match at
    case InStatuses(k, part) => EncodeSplit(script.statuses, k);
    case InHeader(part) =>
    case InReplies(k, part) => EncodeSplit(script.replies, k);
  }

  /** The answer is cut off there, and nothing more arrives while the batch is read. */
  predicate CutShort(script: Script, work: Work, at: Place, gap: Tape, seen: Tape) {
    && IsPlace(script, at) && seen == Cut(Came(script, at), gap) && Still(gap, |work.kinds| + 3)
    && (work.Tx? ==> work.kinds != [])
  }

  // --- Faults that pass -------------------------------------------------------------------------------------

  lemma {:induction false} ToldFirst(t: Tape, cap: nat, kinds: seq<Kind>, acc: seq<Verdict>)
    requires cap >= MIN_BUFFER
    ensures var out := ReadBatch(t, cap, kinds, acc);
      out.Batch? ==> acc <= out.verdicts
    decreases |kinds|
  {
    hide ReadCmd;
    if kinds != [] {
      var (m, rest) := ReadCmd(t, cap, kinds[0]);
      if m.Some? && m.value != Bad(Panic) { ToldFirst(rest, cap, kinds[1..], acc + [m.value]); }
    }
  }

  /** A command whose reply is cut off where it is noticed. */
  lemma NoticedCmd(v: Reply, kind: Kind, part: seq<byte>, gap: Tape, cap: nat)
    requires cap >= MIN_BUFFER && Suits(v, kind, cap) && part < Encode(v) && Noticed(v, part)
    ensures ReadCmd(Cut(part, gap), cap, kind) == (Some(Bad(TIMEOUT)), gap)
  {
    hide ParseReply, Sendable, EndsWithError, Encode, MeaningFor, Noticed;
    NoticedReply(v, part, gap, cap, ParserOf(kind));
  }

  /** The places at which a failed read shows, whatever arrives afterwards: in front of a status or of the
      line that answers EXEC; where the reply that is cut off notices it; and anywhere behind a command that
      has failed with anything but a redis error. */
  predicate NoticedAt(script: Script, work: Work, at: Place)
    requires IsPlace(script, at) && (script.Aborted? || |script.replies| == |work.kinds|)
  {
    match at
    case InStatuses(_, part) => part == []
    case InHeader(part) => part == []
    case InReplies(k, part) =>
      (match FirstError(Meanings(script.replies[..k], work.kinds[..k]))
       case Some(err) => !err.Redis?
       case None => Noticed(script.replies[k], part))
  }

  /** The batch fails, and its connection does not go back to the pool. */
  predicate KeptOut(r: Option<(Got, Tape)>) { r.Some? ==> r.value.0.err.Some? && !r.value.0.err.value.Redis? }

  lemma ShownInReplies(replies: seq<Reply>, kinds: seq<Kind>, k: nat, part: seq<byte>, gap: Tape, cap: nat)
    requires cap >= MIN_BUFFER && Served(replies, kinds, cap) && k < |kinds| && part < Encode(replies[k])
    requires match FirstError(Meanings(replies[..k], kinds[..k]))
      case Some(err) => !err.Redis?
      case None => Noticed(replies[k], part)
    ensures KeptOut(BatchReads(ReadBatch(Cut(EncodeAll(replies[..k]) + part, gap), cap, kinds, [])))
  {
    hide Encode, EncodeAll, Suits, MeaningFor, ReadCmd, FirstError, Meanings, Noticed;
    var told := Meanings(replies[..k], kinds[..k]);
    CutAhead(EncodeAll(replies[..k]), part, gap);
    BatchPrefix(replies, kinds, k, Cut(part, gap), cap, []);
    Units(told);
    assert kinds[k..][0] == kinds[k] && kinds[k..][1..] == kinds[k + 1..];
    ToldFirst(Cut(part, gap), cap, kinds[k..], told);
    if FirstError(told) == None {
      NoticedCmd(replies[k], kinds[k], part, gap, cap);
      ToldFirst(gap, cap, kinds[k + 1..], told + [Bad(TIMEOUT)]);
      Units([Bad(TIMEOUT)]);
      FirstFails(TIMEOUT, []);
      FirstErrorConcat(told, [Bad(TIMEOUT)]);
      FailsFirst(ReadBatch(gap, cap, kinds[k + 1..], told + [Bad(TIMEOUT)]), told + [Bad(TIMEOUT)]);
    } else {
      FailsFirst(ReadBatch(Cut(part, gap), cap, kinds[k..], told), told);
    }
  }

  lemma FailsFirst(out: BatchOut, told: seq<Verdict>)
    requires out.Batch? ==> told <= out.verdicts
    requires FirstError(told).Some? && !FirstError(told).value.Redis?
    ensures KeptOut(BatchReads(out))
  {
    hide FirstError;
    if out.Batch? {
      assert out.verdicts == told + out.verdicts[|told|..];
      FirstErrorConcat(told, out.verdicts[|told|..]);
    }
  }

  lemma {:induction false} ShownInStatuses(statuses: seq<Reply>, k: nat, n: nat, gap: Tape, cap: nat)
    requires cap >= MIN_BUFFER && k < |statuses| == n && forall v <- statuses :: IsStatus(v, cap)
    ensures ReadStatuses(Cut(EncodeAll(statuses[..k]), gap), cap, n) == NotQueued(TIMEOUT, gap)
    decreases n
  {
    hide Encode, ReadCmd, Suits;
    if k == 0 {
      CutAtOnce(gap, cap, StringCmd);
    } else {
      var v, most := statuses[0], EncodeAll(statuses[1..][..k - 1]);
      StatusSuits(v, cap);
      assert statuses[..k][1..] == statuses[1..][..k - 1] && statuses[..k][0] == v;
      CutAhead(Encode(v), most, gap);
      SuitedCmdReads(v, StringCmd, Cut(most, gap), cap);
      ShownInStatuses(statuses[1..], k - 1, n - 1, gap, cap);
    }
  }

  lemma ShownInHeader(statuses: seq<Reply>, kinds: seq<Kind>, gap: Tape, cap: nat)
    requires cap >= MIN_BUFFER && Queues(statuses, |kinds| + 1, cap)
    ensures ReadMulti(Cut(EncodeAll(statuses), gap), cap, kinds) == AllFailed(TIMEOUT, gap)
  {
    hide ReadStatuses, EncodeAll, ReadLine;
    Units(EncodeAll(statuses));
    CutAhead(EncodeAll(statuses), [], gap);
    StatusesRead(statuses, Cut([], gap), cap, |kinds| + 1);
    CutLine([], [], gap, cap);
  }

  /** A read that fails at such a place is the failure of the batch, whatever arrives afterwards. */
  lemma FaultShows(script: Script, work: Work, at: Place, gap: Tape, cap: nat)
    requires cap >= MIN_BUFFER && Serves(script, work, cap) && IsPlace(script, at) && NoticedAt(script, work, at)
    ensures KeptOut(Reads(work, Cut(Came(script, at), gap), cap))
  {
    hide ReadBatch, ReadStatuses, ReadExec, Encode, EncodeAll, Suits, Noticed, FirstError, Meanings, KeptOut;
    match at
    case InStatuses(k, part) =>
      Units(EncodeAll(script.statuses[..k]));
      ShownInStatuses(script.statuses, k, |work.kinds| + 1, gap, cap);
      ShownByAll(TIMEOUT, |work.kinds|, gap);
    case InHeader(part) =>
      Units(EncodeAll(script.statuses));
      ShownInHeader(script.statuses, work.kinds, gap, cap);
      ShownByAll(TIMEOUT, |work.kinds|, gap);
    case InReplies(k, part) =>
      ShownInReplies(script.replies, work.kinds, k, part, gap, cap);
      ReadAsReplies(script, work, k, part, gap, cap);
  }

  lemma ShownByAll(err: Error, n: nat, rest: Tape)
    requires !err.Redis?
    ensures KeptOut(TransactionReads(AllFailed(err, rest), n))
  {
  }

  /** Behind the line that answers EXEC a transaction is read like a pipeline. */
  lemma ReadAsReplies(script: Script, work: Work, k: nat, part: seq<byte>, gap: Tape, cap: nat)
    requires cap >= MIN_BUFFER && Serves(script, work, cap) && IsPlace(script, InReplies(k, part))
    ensures Reads(work, Cut(Came(script, InReplies(k, part)), gap), cap)
         == BatchReads(ReadBatch(Cut(EncodeAll(script.replies[..k]) + part, gap), cap, work.kinds, []))
  {
    hide ReadBatch, ReadMulti, Encode, EncodeAll, Suits;
    var came := EncodeAll(script.replies[..k]) + part;
    if script.Plain? {
      Units(came);
    } else {
      var n := |script.replies|;
      CutAhead(EncodeAll(script.statuses) + NumberHeader(STAR, n), came, gap);
      ExecHeader(script.statuses, n, Cut(came, gap), work.kinds, cap);
    }
  }

  lemma FirstFails(err: Error, more: seq<Verdict>)
    ensures FirstError([Bad(err)] + more) == Some(err)
  {
  }

  // --- Replies that are shifted ------------------------------------------------------------------------------

  /** k replies arrive, a read fails, the others arrive after all. */
  function Late(replies: seq<Reply>, k: nat): Tape
    requires k <= |replies|
  {
    Cut(EncodeAll(replies[..k]), Tape(EncodeAll(replies[k..]), []))
  }

  /** Such a fault is the failure of one command, and shifts the replies inside the batch: every command
      behind it is told the reply to the one before it. */
  lemma ShiftedReplies(replies: seq<Reply>, kinds: seq<Kind>, k: nat, cap: nat)
    requires cap >= MIN_BUFFER && Served(replies, kinds, cap) && k < |kinds|
    requires Served(replies[k..|replies| - 1], kinds[k + 1..], cap)
    ensures ReadBatch(Late(replies, k), cap, kinds, [])
         == Batch(Meanings(replies[..k], kinds[..k]) + [Bad(TIMEOUT)] + Meanings(replies[k..|replies| - 1], kinds[k + 1..]),
                  Tape(Encode(replies[|replies| - 1]), []))
  {
    hide Encode, EncodeAll, Suits, MeaningFor, ReadCmd, Meanings;
    var last := replies[|replies| - 1];
    var told, most, rest := Meanings(replies[..k], kinds[..k]), replies[k..|replies| - 1], Tape(Encode(last), []);
    var gap := Tape(EncodeAll(replies[k..]), []);
    Units(EncodeAll(replies[..k]));
    CutAhead(EncodeAll(replies[..k]), [], gap);
    BatchPrefix(replies, kinds, k, Cut([], gap), cap, []);
    Units(told);
    CutAtOnce(gap, cap, kinds[k]);
    assert kinds[k..][0] == kinds[k] && kinds[k..][1..] == kinds[k + 1..];
    AllButLast(most, last);
    assert most + [last] == replies[k..];
    BatchAligned(most, kinds[k + 1..], rest, cap, told + [Bad(TIMEOUT)]);
  }

  lemma {:induction false} AllButLast(most: seq<Reply>, last: Reply)
    ensures EncodeAll(most + [last]) == EncodeAll(most) + Encode(last)
  {
    hide Encode;
    if most == [] {
      assert ([] + [last])[1..] == [];
      Units(Encode(last));
    } else {
      assert (most + [last])[1..] == most[1..] + [last];
      AllButLast(most[1..], last);
      Assoc(Encode(most[0]), EncodeAll(most[1..]), Encode(last));
    }
  }

  /** The tape as command j finds it. */
  function Behind(t: Tape, cap: nat, kinds: seq<Kind>, j: nat): Option<Tape>
    requires cap >= MIN_BUFFER && j <= |kinds|
    decreases j
  {
    if j == 0 then Some(t)
    else match ReadCmd(t, cap, kinds[0])
      case (None, _) => None
      case (Some(m), rest) => if m == Bad(Panic) then None else Behind(rest, cap, kinds[1..], j - 1)
  }

  /** What a command is told is what it reads there. */
  lemma {:induction false} ToldThere(t: Tape, cap: nat, kinds: seq<Kind>, acc: seq<Verdict>, j: nat)
    requires cap >= MIN_BUFFER && j < |kinds|
    ensures var out := ReadBatch(t, cap, kinds, acc);
      out.Batch? && |acc| + j < |out.verdicts| ==>
        Behind(t, cap, kinds, j).Some? && ReadCmd(Behind(t, cap, kinds, j).value, cap, kinds[j]).0 == Some(out.verdicts[|acc| + j])
    decreases j
  {
    hide ReadCmd;
    var (m, rest) := ReadCmd(t, cap, kinds[0]);
    if m.Some? && m.value != Bad(Panic) {
      var more := acc + [m.value];
      ToldFirst(rest, cap, kinds[1..], more);
      if j == 0 {
        var out := ReadBatch(rest, cap, kinds[1..], more);
        assert out.Batch? ==> out.verdicts[|acc|] == more[|acc|];
      } else {
        ToldThere(rest, cap, kinds[1..], more, j - 1);
      }
    }
  }

  /** Command j is told reply i: what it finds before it is the answer from that reply on, and it is told what
      that reply means to it. */
  predicate IsTold(replies: seq<Reply>, kinds: seq<Kind>, t: Tape, cap: nat, j: nat, i: nat)
    requires cap >= MIN_BUFFER && j < |kinds| && i < |replies|
  {
    match Behind(t, cap, kinds, j)
    case None => false
    case Some(there) =>
      && Encode(replies[i]) <= there.now && Flat(there) == EncodeAll(replies[i..])
      && ReadCmd(there, cap, kinds[j]).0 == Some(MeaningFor(replies[i], kinds[j]))
  }

  lemma {:induction false} BehindPrefix(replies: seq<Reply>, kinds: seq<Kind>, k: nat, t: Tape, cap: nat, j: nat)
    requires cap >= MIN_BUFFER && Served(replies, kinds, cap) && j <= k <= |kinds|
    ensures Behind(Ahead(EncodeAll(replies[..k]), t), cap, kinds, j) == Some(Ahead(EncodeAll(replies[j..k]), t))
    decreases j
  {
    hide Encode, Suits, MeaningFor, ReadCmd;
    if j > 0 {
      var v, most := replies[0], replies[1..];
      assert replies[..k][1..] == most[..k - 1] && replies[..k][0] == v;
      AheadTwice(Encode(v), EncodeAll(most[..k - 1]), t);
      SuitedCmdReads(v, kinds[0], Ahead(EncodeAll(most[..k - 1]), t), cap);
      BehindPrefix(most, kinds[1..], k - 1, t, cap, j - 1);
      assert most[j - 1..k - 1] == replies[j..k];
    } else {
      assert replies[0..k] == replies[..k];
    }
  }

  lemma {:induction false} EncodeConcat(a: seq<Reply>, b: seq<Reply>)
    ensures EncodeAll(a + b) == EncodeAll(a) + EncodeAll(b)
  {
    hide Encode;
    if a == [] {
      assert a + b == b;
    } else {
      assert (a + b)[1..] == a[1..] + b;
      EncodeConcat(a[1..], b);
      Assoc(Encode(a[0]), EncodeAll(a[1..]), EncodeAll(b));
    }
  }

  /** Different places in an answer have different amounts of it before them. */
  lemma SamePlace(replies: seq<Reply>, i: nat, j: nat)
    requires i <= |replies| && j <= |replies| && EncodeAll(replies[i..]) == EncodeAll(replies[j..])
    ensures i == j
  {
    hide EncodeAll;
    if i < j {
      assert replies[i..] == replies[i..j] + replies[j..];
      EncodeConcat(replies[i..j], replies[j..]);
      EncodeAllEmpty(replies[i..j]);
    } else if j < i {
      assert replies[j..] == replies[j..i] + replies[i..];
      EncodeConcat(replies[j..i], replies[i..]);
      EncodeAllEmpty(replies[j..i]);
    }
  }

  /** Up to the failed read the j-th command finds the answer from the j-th reply on. */
  lemma InOrder(replies: seq<Reply>, kinds: seq<Kind>, k: nat, cap: nat, j: nat)
    requires cap >= MIN_BUFFER && Served(replies, kinds, cap) && k < |kinds| && j <= k
    ensures Behind(Late(replies, k), cap, kinds, j) == Some(Cut(EncodeAll(replies[j..k]), Tape(EncodeAll(replies[k..]), [])))
    ensures Flat(Cut(EncodeAll(replies[j..k]), Tape(EncodeAll(replies[k..]), []))) == EncodeAll(replies[j..])
  {
    hide EncodeAll, Suits, Flat, Behind;
    var gap := Tape(EncodeAll(replies[k..]), []);
    Units(EncodeAll(replies[..k]));
    Units(EncodeAll(replies[j..k]));
    CutAhead(EncodeAll(replies[..k]), [], gap);
    CutAhead(EncodeAll(replies[j..k]), [], gap);
    BehindPrefix(replies, kinds, k, Cut([], gap), cap, j);
    FlatCut(EncodeAll(replies[j..k]), gap);
    OnlyNow(EncodeAll(replies[k..]));
    assert replies[j..] == replies[j..k] + replies[k..];
    EncodeConcat(replies[j..k], replies[k..]);
  }

  lemma OnlyNow(x: seq<byte>)
    ensures Flat(Tape(x, [])) == x
  {
    Units(x);
  }

  /** When the rest of the answer arrives after a read that failed once, some command is told another command's
      reply exactly when the read that failed was not the one for the last reply. */
  lemma CrossTalkExactlyWhen(replies: seq<Reply>, kinds: seq<Kind>, k: nat, cap: nat)
    requires cap >= MIN_BUFFER && Served(replies, kinds, cap) && k < |kinds|
    ensures (exists j: nat, i: nat :: j < |kinds| && i < |replies| && i != j && IsTold(replies, kinds, Late(replies, k), cap, j, i))
       <==> k + 1 < |kinds|
  {
    hide IsTold, Suits, Late;
    if k + 1 < |kinds| {
      NextIsTold(replies, kinds, k, cap);
    } else {
      forall j: nat, i: nat | j < |kinds| && i < |replies| && IsTold(replies, kinds, Late(replies, k), cap, j, i) ensures i == j {
        ToldInOrder(replies, kinds, k, cap, j, i);
      }
    }
  }

  /** Up to the failed read every command is told its own reply or none. */
  lemma ToldInOrder(replies: seq<Reply>, kinds: seq<Kind>, k: nat, cap: nat, j: nat, i: nat)
    requires cap >= MIN_BUFFER && Served(replies, kinds, cap) && k < |kinds| && j <= k && i < |replies|
    requires IsTold(replies, kinds, Late(replies, k), cap, j, i)
    ensures i == j
  {
    hide Encode, EncodeAll, Suits, Flat, Behind, ReadCmd, MeaningFor, Late;
    InOrder(replies, kinds, k, cap, j);
    SamePlace(replies, i, j);
  }

  /** The command behind the failed read is told the reply to the one that failed. */
  lemma NextIsTold(replies: seq<Reply>, kinds: seq<Kind>, k: nat, cap: nat)
    requires cap >= MIN_BUFFER && Served(replies, kinds, cap) && k + 1 < |kinds|
    ensures IsTold(replies, kinds, Late(replies, k), cap, k + 1, k)
  {
    hide Encode, Suits, Flat, Behind, ReadCmd, MeaningFor, Late;
    var v, kind, gap := replies[k], kinds[k + 1], Tape(EncodeAll(replies[k..]), []);
    InOrder(replies, kinds, k, cap, k);
    assert replies[k..k] == [] && EncodeAll([]) == [];
    CutAtOnce(gap, cap, kinds[k]);
    OneMoreBehind(Late(replies, k), cap, kinds, k, gap);
    OnlyNow(EncodeAll(replies[k..]));
    assert replies[k..][0] == v;
    assert Suits(v, kinds[k], cap);
    var rest := Tape(EncodeAll(replies[k..][1..]), []);
    assert gap == Ahead(Encode(v), rest);
    SuitsIsSendable(v, kinds[k], cap);
    CmdReads(v, kind, rest, cap);
  }

  lemma SuitsIsSendable(v: Reply, kind: Kind, cap: nat)
    requires Suits(v, kind, cap)
    ensures Sendable(v, cap)
  {
  }

  lemma {:induction false} OneMoreBehind(t: Tape, cap: nat, kinds: seq<Kind>, j: nat, rest: Tape)
    requires cap >= MIN_BUFFER && j < |kinds| && Behind(t, cap, kinds, j).Some?
    requires ReadCmd(Behind(t, cap, kinds, j).value, cap, kinds[j]) == (Some(Bad(TIMEOUT)), rest)
    ensures Behind(t, cap, kinds, j + 1) == Some(rest)
    decreases j
  {
    hide ReadCmd;
    var (m, after) := ReadCmd(t, cap, kinds[0]);
    if j == 0 {
      assert Behind(rest, cap, kinds[1..], 0) == Some(rest);
    } else {
      OneMoreBehind(after, cap, kinds[1..], j - 1, rest);
    }
  }

  // --- A line end that is torn apart -------------------------------------------------------------------------

  /** A read fails between the CR and the NL of a status, and the NL arrives afterwards: the status is told with
      the CR, and the next command finds an empty line and panics. */
  lemma TornLineEnd(text: seq<byte>, rest: Tape, cap: nat, next: Kind)
    requires cap >= MIN_BUFFER && IsStatus(Status(text), cap)
    ensures ReadBatch(Cut([PLUS] + text + [CR], Ahead([NL], rest)), cap, [StringCmd, next], [])
         == Batch([Good(Str(text + [CR])), Bad(Panic)], rest)
  {
    hide ReadCmd;
    var part, gap, m := [PLUS] + text + [CR], Ahead([NL], rest), Good(Str(text + [CR]));
    assert part[1..] == text + [CR] && part + [NL] == Encode(Status(text));
    CutStatus(Status(text), part, gap, cap);
    EmptyLine(rest, cap, next);
    assert [StringCmd, next][1..] == [next] && [] + [m] == [m] && [m] + [Bad(Panic)] == [m, Bad(Panic)];
  }

  lemma EmptyLine(rest: Tape, cap: nat, kind: Kind)
    requires cap >= MIN_BUFFER
    ensures ReadCmd(Ahead([NL], rest), cap, kind) == (Some(Bad(Panic)), rest)
  {
    var s := [NL] + rest.now;
    IndexOfUnique(s, NL, 0);
    assert s[..1] == [NL] && s[1..] == rest.now;
    assert ReadLine(Ahead([NL], rest), cap) == Ok([], rest);
    assert ParseReply(Ahead([NL], rest), cap, ParserOf(kind)) == ParseBody([], rest, cap, ParserOf(kind)) == Fail(Panic, rest);
  }

  // --- A number that is cut off ------------------------------------------------------------------------------

  /** The number 12, cut off behind its first digit, is told as 1, whatever arrives afterwards, and the
      connection goes back to the pool. */
  lemma HalfANumber(gap: Tape, cap: nat)
    requires cap >= MIN_BUFFER
    ensures [COLON, 49] < Encode(Int(12)) && ReadCmd(Cut([COLON, 49], gap), cap, IntCmd) == (Some(Good(Num(1))), gap)
    ensures Poisons([Int(12)], [IntCmd], 0, [COLON, 49])
  {
    hide ReadLine;
    var part := [COLON, 49];
    assert DecInt(12) == Dec(12) == Dec(1) + [50] == [49, 50];
    CutLine([COLON, 49, 50], part, gap, cap);
    assert part[1..] == [49];
    assert ParseInt([49], MAX_INT64) == Some(1) by { ParseIntDec(1, MAX_INT64); }
    assert ParseReply(Cut(part, gap), cap, NoParser) == ParseBody(part, gap, cap, NoParser) == Ok(Num(1), gap);
    assert Meanings([Int(12)][..0], [IntCmd][..0]) == [];
  }

  // --- A fault that stays hidden ------------------------------------------------------------------------------

  /** An error reply to the first of two commands has come, then nothing more. */
  const REFUSED := Reply.Error([69])
  const QUIET := Tape([], [[], [], [], [], Encode(Int(7))])

  lemma HiddenPlace(cap: nat)
    requires cap >= MIN_BUFFER
    ensures var (script, work, at) := (Plain([REFUSED, Int(7)]), Pipe([AnyCmd, IntCmd]), InReplies(1, []));
      && Serves(script, work, cap) && CutShort(script, work, at, QUIET, Cut(Encode(REFUSED), QUIET))
      && Flat(Cut(Encode(REFUSED), QUIET)) == Answer(script)
      && Poisoned(script, work, at) && Flat(QUIET) == Encode(Int(7))
  {
    var script := Plain([REFUSED, Int(7)]);
    var work := Pipe([AnyCmd, IntCmd]);
    hide Encode, EncodeAll, Still, Flat, Suits;
    QuietIsStill();
    assert [REFUSED, Int(7)][..1] == [REFUSED];
    TwoEncoded(REFUSED, Int(7));
    Units(Encode(REFUSED));
    SomeBytes();
    FlatCut(Encode(REFUSED), QUIET);
    SevenSuits(cap);
    assert [AnyCmd, IntCmd][..1] == [AnyCmd];
    assert Meanings([REFUSED], [AnyCmd]) == [Bad(Redis([69]))];
  }

  lemma TwoEncoded(a: Reply, b: Reply)
    ensures EncodeAll([a]) == Encode(a) && EncodeAll([a, b]) == Encode(a) + Encode(b)
  {
    hide Encode;
    assert [a][1..] == [] && [b][1..] == [] && [a, b][1..] == [b];
    Units(Encode(a));
    Units(Encode(b));
  }

  lemma SevenSuits(cap: nat)
    requires cap >= MIN_BUFFER
    ensures Suits(REFUSED, AnyCmd, cap) && Suits(Int(7), IntCmd, cap)
  {
    assert DecInt(7) == [55];
  }

  lemma QuietIsStill()
    ensures Still(QUIET, 5) && Flat(QUIET) == Encode(Int(7))
  {
    var x := Encode(Int(7));
    var l1: seq<seq<byte>> := [x];
    var l2, l3, l4 := [[]] + l1, [[], []] + l1, [[], [], []] + l1;
    assert QUIET.later[1..] == l4 && l4[1..] == l3 && l3[1..] == l2 && l2[1..] == l1 && l1[1..] == [];
    assert Still(Tape([], l1), 1) && Still(Tape([], l2), 2) && Still(Tape([], l3), 3) && Still(Tape([], l4), 4);
    assert Flatten(l1) == x && Flatten(l2) == x && Flatten(l3) == x && Flatten(l4) == x;
  }

  /** The error that hides the fault. */
  lemma HiddenError(cap: nat)
    requires cap >= MIN_BUFFER
    ensures ReadBatch(Cut(Encode(REFUSED), QUIET), cap, [AnyCmd, IntCmd], []).Batch?
    ensures BatchError(ReadBatch(Cut(Encode(REFUSED), QUIET), cap, [AnyCmd, IntCmd], []).verdicts) == Some(Redis([69]))
  {
    hide ReadBatch, Encode;
    var replies, kinds := [REFUSED, Int(7)], [AnyCmd, IntCmd];
    SevenSuits(cap);
    assert replies[..1] == [REFUSED] && kinds[..1] == [AnyCmd];
    TwoEncoded(REFUSED, Int(7));
    CutAhead(Encode(REFUSED), [], QUIET);
    Units(Encode(REFUSED));
    QuietIsStill();
    StillLess(QUIET, 5, 2);
    assert [] < Encode(Int(7)) by { SomeBytes(); }
    CutBatch(replies, kinds, 1, [], QUIET, cap);
    assert Meanings([REFUSED], [AnyCmd]) == [Bad(Redis([69]))];
    assert CutVerdicts(replies, kinds, 1, []) == [Bad(Redis([69])), Bad(TIMEOUT)];
  }

  lemma SomeBytes() ensures Encode(Int(7)) != [] {}
}
