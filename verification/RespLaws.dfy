/** Laws of the protocol: what is written is what is read, and exactly when. */
module RespLaws {
  import opened Bytes
  import opened Streams
  import opened Resp

  // --- Lines -----------------------------------------------------------------------------------

  /** A CRLF line is read back whole exactly when it fits the buffer. */
  lemma LineFits(text: seq<byte>, rest: Tape, cap: nat)
    requires cap >= MIN_BUFFER && NL !in text
    ensures |text| + 2 <= cap ==> ReadLine(Ahead(text + CRLF, rest), cap) == Ok(text, rest)
    ensures |text| + 2 > cap ==> ReadLine(Ahead(text + CRLF, rest), cap).Fail?
  {
    var s := text + CRLF + rest.now;
    assert s[|text| + 1] == NL;
    if |text| + 2 <= cap {
      NextLineTerminated(text, rest.now, cap, true);
    } else {
      assert forall k :: 0 <= k < |text| ==> s[k] == text[k];
      IndexOfUnique(s, NL, |text| + 1);
    }
  }

  lemma HeaderFits(mark: byte, n: int, rest: Tape, cap: nat)
    requires cap >= MIN_BUFFER && mark != NL
    ensures NL !in [mark] + DecInt(n)
    ensures |DecInt(n)| + 3 <= cap ==> ReadLine(Ahead([mark] + DecInt(n) + CRLF, rest), cap) == Ok([mark] + DecInt(n), rest)
    ensures |DecInt(n)| + 3 > cap ==> ReadLine(Ahead([mark] + DecInt(n) + CRLF, rest), cap).Fail?
  {
    ParseIntDec(n, 0);
    LineFits([mark] + DecInt(n), rest, cap);
  }

  /** Ten digits are enough for every 32-bit length, so argument headers fit any buffer. */
  lemma ShortHeader(n: nat)
    ensures n <= MAX_INT32 ==> |Dec(n)| + 3 <= MIN_BUFFER
    ensures n <= MAX_INT64 ==> |Dec(n)| + 3 <= 22
  {
    assert Pow10(10) == 10000000000;
    assert Pow10(19) == 1000000000 * Pow10(10);
    if n <= MAX_INT32 { DecLength(n, 10); }
    if n <= MAX_INT64 { DecLength(n, 19); }
  }

  // --- Requests --------------------------------------------------------------------------------

  predicate ArgFits(arg: seq<byte>) { |arg| <= MAX_INT32 }

  lemma ArgRoundTrip(arg: seq<byte>, rest: Tape, cap: nat)
    requires cap >= MIN_BUFFER
    ensures ArgFits(arg) ==> ParseArg(Ahead(EncodeArg(arg), rest), cap) == Ok(arg, rest)
    ensures !ArgFits(arg) ==> ParseArg(Ahead(EncodeArg(arg), rest), cap).Fail?
  {
    hide ReadLine, EncodeArg, DecInt, Dec;
    var n := |arg|;
    var body := Ahead(arg + CRLF, rest);
    ArgShape(arg, rest);
    HeaderFits(DOLLAR, n, body, cap);
    ShortHeader(n);
    ParseIntDec(n, MAX_INT32);
    assert ([DOLLAR] + DecInt(n))[1..] == DecInt(n);
    assert body.now[..n + 2] == arg + CRLF && body.now[n + 2..] == rest.now && (arg + CRLF)[..n] == arg;
  }

  lemma ArgShape(arg: seq<byte>, rest: Tape)
    ensures Ahead(EncodeArg(arg), rest) == Ahead([DOLLAR] + DecInt(|arg|) + CRLF, Ahead(arg + CRLF, rest))
    ensures |DecInt(|arg|)| == |Dec(|arg|)|
  {
    hide Dec;
    var head := [DOLLAR] + Dec(|arg|) + CRLF;
    Assoc(head, arg, CRLF);
    AheadTwice(head, arg + CRLF, rest);
  }

  lemma {:induction false} ArgsRoundTrip(args: seq<seq<byte>>, rest: Tape, cap: nat, acc: seq<seq<byte>>)
    requires cap >= MIN_BUFFER
    ensures (forall a <- args :: ArgFits(a)) ==> ParseArgs(Ahead(EncodeArgs(args), rest), cap, |args|, acc) == Ok(acc + args, rest)
    ensures !(forall a <- args :: ArgFits(a)) ==> ParseArgs(Ahead(EncodeArgs(args), rest), cap, |args|, acc).Fail?
    decreases |args|
  {
    hide EncodeArg, ParseArg;
    if args == [] {
      AheadNone(rest);
      assert acc + args == acc;
    } else {
      var after := Ahead(EncodeArgs(args[1..]), rest);
      AheadTwice(EncodeArg(args[0]), EncodeArgs(args[1..]), rest);
      ArgRoundTrip(args[0], after, cap);
      if ArgFits(args[0]) {
        ArgsRoundTrip(args[1..], rest, cap, acc + [args[0]]);
        assert acc + args == acc + [args[0]] + args[1..];
        assert forall a :: a in args <==> a == args[0] || a in args[1..];
      }
    }
  }

  /** The exact limits of the request format for a reader of `cap` bytes. */
  predicate ReqFits(args: seq<seq<byte>>, cap: nat) {
    && |args| <= MAX_INT64 && |Dec(|args|)| + 3 <= cap
    && forall a <- args :: ArgFits(a)
  }

  /** parseReq undoes appendArgs, and leaves exactly the bytes that follow, if and only if the
      request is within the limits; outside of them it fails. */
  lemma RequestRoundTrip(args: seq<seq<byte>>, rest: Tape, cap: nat)
    requires cap >= MIN_BUFFER
    ensures ParseReq(Ahead(EncodeReq(args), rest), cap) == Ok(args, rest) <==> ReqFits(args, cap)
    ensures !ReqFits(args, cap) ==> ParseReq(Ahead(EncodeReq(args), rest), cap).Fail?
  {
    hide EncodeArgs, EncodeReq, ParseArgs, DecInt, ReadLine;
    var body := Ahead(EncodeArgs(args), rest);
    ReqShape(args, rest);
    HeaderFits(STAR, |args|, body, cap);
    ParseIntDec(|args|, MAX_INT64);
    assert ([STAR] + DecInt(|args|))[1..] == DecInt(|args|);
    ArgsRoundTrip(args, rest, cap, []);
    assert [] + args == args;
  }

  lemma ReqShape(args: seq<seq<byte>>, rest: Tape)
    ensures Ahead(EncodeReq(args), rest) == Ahead([STAR] + DecInt(|args|) + CRLF, Ahead(EncodeArgs(args), rest))
    ensures |DecInt(|args|)| == |Dec(|args|)|
  {
    hide EncodeArgs, Dec;
    AheadTwice([STAR] + Dec(|args|) + CRLF, EncodeArgs(args), rest);
  }

  /** With a buffer of at least 22 bytes only the argument lengths matter. */
  lemma RequestRoundTripAnyBuffer(args: seq<seq<byte>>, rest: Tape, cap: nat)
    requires cap >= 22 && |args| <= MAX_INT64
    ensures ParseReq(Ahead(EncodeReq(args), rest), cap) == Ok(args, rest) <==> forall a <- args :: ArgFits(a)
  {
    ShortHeader(|args|);
    RequestRoundTrip(args, rest, cap);
  }

  /** What writeCmd puts on the wire for a batch. */
  function EncodeReqs(cmds: seq<seq<seq<byte>>>): seq<byte> {
    if cmds == [] then [] else EncodeReqs(cmds[..|cmds| - 1]) + EncodeReq(cmds[|cmds| - 1])
  }

  function ParseReqs(t: Tape, cap: nat, k: nat): Parsed<seq<seq<seq<byte>>>>
    requires cap >= MIN_BUFFER
  {
    if k == 0 then Ok([], t)
    else match ParseReqs(t, cap, k - 1)
      case Ok(cmds, rest) => (match ParseReq(rest, cap)
        case Ok(cmd, after) => Ok(cmds + [cmd], after)
        case Fail(err, after) => Fail(err, after)
        case Unsettled => Unsettled)
      case other => other
  }

  /** A batch of commands decodes to the same commands and leaves the stream just behind it. */
  lemma {:induction false} BatchRoundTrip(cmds: seq<seq<seq<byte>>>, rest: Tape, cap: nat)
    requires cap >= MIN_BUFFER && forall c <- cmds :: ReqFits(c, cap)
    ensures ParseReqs(Ahead(EncodeReqs(cmds), rest), cap, |cmds|) == Ok(cmds, rest)
    decreases |cmds|
  {
    hide EncodeReq, ParseReq, ReqFits;
    if cmds == [] {
      AheadNone(rest);
    } else {
      var most, last := cmds[..|cmds| - 1], cmds[|cmds| - 1];
      assert ReqFits(last, cap);
      AheadTwice(EncodeReqs(most), EncodeReq(last), rest);
      BatchRoundTrip(most, Ahead(EncodeReq(last), rest), cap);
      RequestRoundTrip(last, rest, cap);
      assert most + [last] == cmds;
    }
  }

  // --- Replies ---------------------------------------------------------------------------------

  /** The server keeps to the protocol, in lines the reader's buffer can hold. */
  predicate Sendable(v: Reply, cap: nat) {
    match v
    case Status(text) => NL !in text && |text| + 3 <= cap
    case Error(text) => NL !in text && |text| + 3 <= cap
    case Int(n) => -MAX_INT64 - 1 <= n <= MAX_INT64 && |DecInt(n)| + 3 <= cap
    case Bulk(body) => |body| <= MAX_INT64 - 2 && |Dec(|body|)| + 3 <= cap
    case NilBulk => true
    case NilArray => true
    case Array(items) =>
      |items| <= MAX_INT64 && |Dec(|items|)| + 3 <= cap && forall i <- items :: Sendable(i, cap)
  }

  /** What the caller is told for a reply, under a given multi-bulk parser. */
  function Meaning(v: Reply, p: MultiBulkParser): Verdict {
    match v
    case Status(text) => Good(Str(text))
    case Error(text) => Bad(Redis(text))
    case Int(n) => Good(Num(n))
    case Bulk(body) => Good(Str(body))
    case NilBulk => Bad(NIL_ERROR)
    case NilArray => Bad(NIL_ERROR)
    case Array(items) => if p.NoParser? then Bad(Panic) else MeaningAll(items, p, [])
  }

  function MeaningAll(items: seq<Reply>, p: MultiBulkParser, acc: seq<GoVal>): Verdict
    decreases items
  {
    if items == [] then Good(List(acc))
    else match Admit(p, Meaning(items[0], ElementParser(p)))
      case Keep(v) => MeaningAll(items[1..], p, acc + [v])
      case Stop(err) => Bad(err)
  }

  /** One error text, and no other, is taken for the nil reply. */
  lemma NilLookalike(text: seq<byte>, p: MultiBulkParser)
    ensures Meaning(Reply.Error(text), p) == Meaning(NilBulk, p) <==> text == NIL_TEXT
    ensures Admit(SliceParser, Meaning(Reply.Error(text), p)) == Keep(Nil) <==> text == NIL_TEXT
  {
  }

  /** The part of a reply that is still on the stream when the caller has its answer. */
  function Unread(v: Reply, p: MultiBulkParser): seq<byte> {
    if !v.Array? then [] else if p.NoParser? then EncodeAll(v.items) else UnreadAll(v.items, p)
  }

  function UnreadAll(items: seq<Reply>, p: MultiBulkParser): seq<byte>
    decreases items
  {
    if items == [] then []
    else match Admit(p, Meaning(items[0], ElementParser(p)))
      case Keep(_) => UnreadAll(items[1..], p)
      case Stop(_) => Unread(items[0], ElementParser(p)) + EncodeAll(items[1..])
  }

  function Delivered(m: Verdict, rest: Tape): Parsed<GoVal> {
    match m
    case Good(v) => Ok(v, rest)
    case Bad(err) => Fail(err, rest)
  }

  lemma NumberLine(mark: byte, n: int, rest: Tape, cap: nat)
    requires cap >= MIN_BUFFER && mark != NL && -MAX_INT64 - 1 <= n <= MAX_INT64 && |DecInt(n)| + 3 <= cap
    ensures ReadLine(Ahead([mark] + DecInt(n) + CRLF, rest), cap) == Ok([mark] + DecInt(n), rest)
    ensures ParseInt(([mark] + DecInt(n))[1..], MAX_INT64) == Some(n)
    ensures n >= 0 ==> !IsNilMark([mark] + DecInt(n))
  {
    HeaderFits(mark, n, rest, cap);
    ParseIntDec(n, MAX_INT64);
    assert ([mark] + DecInt(n))[1..] == DecInt(n);
    assert n >= 0 ==> IsDigit(DecInt(n)[0]);
  }

  /** Decoding is exact for every reply tree, nested errors and nils included: the caller gets the
      meaning of the reply, and precisely Unread of it stays on the stream. */
  lemma {:induction false} ReplyDecodes(v: Reply, rest: Tape, cap: nat, p: MultiBulkParser)
    requires cap >= MIN_BUFFER && Sendable(v, cap)
    ensures ParseReply(Ahead(Encode(v), rest), cap, p) == Delivered(Meaning(v, p), Ahead(Unread(v, p), rest))
    decreases v, 0
  {
    if v.Array? {
      hide EncodeAll, ParseElements, MeaningAll, UnreadAll, ParseReply;
      ArrayHeader(v.items, rest, cap, p);
      if !p.NoParser? {
        ElementsDecode(v.items, rest, cap, p, []);
      }
    } else {
      ScalarDecodes(v, rest, cap, p);
    }
  }

  lemma ScalarDecodes(v: Reply, rest: Tape, cap: nat, p: MultiBulkParser)
    requires cap >= MIN_BUFFER && Sendable(v, cap) && !v.Array?
    ensures ParseReply(Ahead(Encode(v), rest), cap, p) == Delivered(Meaning(v, p), Ahead(Unread(v, p), rest))
  {
    hide ReadLine, DecInt, Dec;
    AheadNone(rest);
    match v
    case Status(text) => LineFits([PLUS] + text, rest, cap);
    case Error(text) => LineFits([MINUS] + text, rest, cap);
    case Int(n) => NumberLine(COLON, n, rest, cap);
    case Bulk(body) => BulkDecodes(body, rest, cap, p);
    case NilBulk => LineFits([DOLLAR, MINUS, 49], rest, cap);
    case NilArray => LineFits([STAR, MINUS, 49], rest, cap);
  }

  lemma BulkDecodes(body: seq<byte>, rest: Tape, cap: nat, p: MultiBulkParser)
    requires cap >= MIN_BUFFER && Sendable(Bulk(body), cap)
    ensures ParseReply(Ahead(Encode(Bulk(body)), rest), cap, p) == Ok(Str(body), rest)
  {
    hide ReadLine;
    var n := |body|;
    var after := Ahead(body + CRLF, rest);
    AheadTwice([DOLLAR] + DecInt(n) + CRLF, body + CRLF, rest);
    NumberLine(DOLLAR, n, after, cap);
    assert after.now[..n + 2] == body + CRLF && after.now[n + 2..] == rest.now && (body + CRLF)[..n] == body;
  }

  lemma ArrayHeader(items: seq<Reply>, rest: Tape, cap: nat, p: MultiBulkParser)
    requires cap >= MIN_BUFFER && |items| <= MAX_INT64 && |Dec(|items|)| + 3 <= cap
    ensures ParseReply(Ahead(Encode(Array(items)), rest), cap, p)
         == var body := Ahead(EncodeAll(items), rest);
            if p.NoParser? then Fail(Panic, body) else ParseElements(body, cap, |items|, p, [])
  {
    hide ReadLine, EncodeAll, ParseElements, Dec;
    var body := Ahead(EncodeAll(items), rest);
    AheadTwice([STAR] + Dec(|items|) + CRLF, EncodeAll(items), rest);
    NumberLine(STAR, |items|, body, cap);
  }

  lemma {:induction false} ElementsDecode(items: seq<Reply>, rest: Tape, cap: nat, p: MultiBulkParser, acc: seq<GoVal>)
    requires cap >= MIN_BUFFER && forall i <- items :: Sendable(i, cap)
    ensures ParseElements(Ahead(EncodeAll(items), rest), cap, |items|, p, acc)
         == Delivered(MeaningAll(items, p, acc), Ahead(UnreadAll(items, p), rest))
    decreases items, 1
  {
    hide Encode, ParseReply, Meaning, Unread;
    if items == [] {
      AheadNone(rest);
    } else {
      var q := ElementParser(p);
      var after := Ahead(EncodeAll(items[1..]), rest);
      AheadTwice(Encode(items[0]), EncodeAll(items[1..]), rest);
      ReplyDecodes(items[0], after, cap, q);
      var m := Meaning(items[0], q);
      match Admit(p, m)
      case Keep(v) =>
        KeptIsRead(items[0], p);
        AheadNone(after);
        ElementsDecode(items[1..], rest, cap, p, acc + [v]);
      case Stop(_) =>
        AheadTwice(Unread(items[0], q), EncodeAll(items[1..]), rest);
    }
  }

  /** An element that is kept has been read to its end. */
  lemma {:induction false} KeptIsRead(v: Reply, p: MultiBulkParser)
    requires Admit(p, Meaning(v, ElementParser(p))).Keep?
    ensures Unread(v, ElementParser(p)) == []
  {
    if v.Array? && p.SliceParser? {
      GoodIsRead(v.items, p, []);
    }
  }

  lemma {:induction false} GoodIsRead(items: seq<Reply>, p: MultiBulkParser, acc: seq<GoVal>)
    requires p.SliceParser? || p.StringSliceParser?
    requires MeaningAll(items, p, acc) == Bad(NIL_ERROR) ==> p.SliceParser?
    requires MeaningAll(items, p, acc).Good? || MeaningAll(items, p, acc) == Bad(NIL_ERROR)
    ensures UnreadAll(items, p) == []
    decreases items
  {
    if items != [] {
      match Admit(p, Meaning(items[0], ElementParser(p)))
      case Keep(v) => GoodIsRead(items[1..], p, acc + [v]);
      case Stop(_) =>
    }
  }

  /** A caller could see this on the reply itself: nothing follows the element that ended the parse. */
  predicate EndsWithError(v: Reply, p: MultiBulkParser) {
    !v.Array? || (if p.NoParser? then v.items == [] else EndsWithErrorAll(v.items, p))
  }

  predicate EndsWithErrorAll(items: seq<Reply>, p: MultiBulkParser)
    decreases items
  {
    items == [] ||
    match Admit(p, Meaning(items[0], ElementParser(p)))
    case Keep(_) => EndsWithErrorAll(items[1..], p)
    case Stop(_) => |items| == 1 && EndsWithError(items[0], ElementParser(p))
  }

  /** A reply is consumed exactly if and only if no element follows one that ended the parse. */
  lemma {:induction false} ConsumedExactly(v: Reply, p: MultiBulkParser)
    ensures Unread(v, p) == [] <==> EndsWithError(v, p)
    decreases v, 0
  {
    if v.Array? {
      if p.NoParser? {
        EncodeAllEmpty(v.items);
      } else {
        ConsumedExactlyAll(v.items, p);
      }
    }
  }

  lemma {:induction false} ConsumedExactlyAll(items: seq<Reply>, p: MultiBulkParser)
    ensures UnreadAll(items, p) == [] <==> EndsWithErrorAll(items, p)
    decreases items, 1
  {
    if items != [] {
      if Admit(p, Meaning(items[0], ElementParser(p))).Keep? {
        ConsumedExactlyAll(items[1..], p);
      } else {
        ConsumedExactly(items[0], ElementParser(p));
        EncodeAllEmpty(items[1..]);
      }
    }
  }

  lemma EncodeAllEmpty(items: seq<Reply>)
    ensures EncodeAll(items) == [] <==> items == []
  {
    if items != [] {
      assert Encode(items[0]) != [];
    }
  }

  /** No error element anywhere inside an array. */
  predicate Calm(v: Reply) {
    v.Array? ==> forall i <- v.items :: !i.Error? && Calm(i)
  }

  /** Under parseSlice every calm reply is consumed exactly; at worst it is the nil error. */
  lemma {:induction false} CalmIsConsumed(v: Reply)
    requires Calm(v)
    ensures EndsWithError(v, SliceParser)
    ensures !v.Error? ==> Meaning(v, SliceParser).Good? || Meaning(v, SliceParser) == Bad(NIL_ERROR)
    decreases v, 0
  {
    if v.Array? {
      CalmAll(v.items, []);
    }
  }

  lemma {:induction false} CalmAll(items: seq<Reply>, acc: seq<GoVal>)
    requires forall i <- items :: !i.Error? && Calm(i)
    ensures EndsWithErrorAll(items, SliceParser) && MeaningAll(items, SliceParser, acc).Good?
    decreases items, 1
  {
    if items != [] {
      CalmIsConsumed(items[0]);
      match Admit(SliceParser, Meaning(items[0], SliceParser))
      case Keep(v) => CalmAll(items[1..], acc + [v]);
    }
  }
}
