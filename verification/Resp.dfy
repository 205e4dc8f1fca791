/** RESP2 as the client reads and writes it, told on tapes and plain byte sequences. */
module Resp {
  import opened Bytes
  import opened Streams

  const STAR: byte := 42
  const DOLLAR: byte := 36
  const COLON: byte := 58

  /** What an interface{} holds after a reply has been parsed. */
  datatype GoVal = Str(text: seq<byte>) | Num(n: int) | Nil | List(items: seq<GoVal>)

  /** Redis(text) is the client's redisError; Panic stands for a Go run-time panic; Malformed for
      every plain error made by strconv or fmt.Errorf. */
  datatype Error = IO(e: Err) | ReaderTooSmall | Redis(text: seq<byte>) | Malformed | Panic

  /** The text of the package variable Nil: "redis: nil". */
  const NIL_TEXT: seq<byte> := [114, 101, 100, 105, 115, 58, 32, 110, 105, 108]
  const NIL_ERROR := Redis(NIL_TEXT)

  /** A parse of the head of the tape. Unsettled: the bytes at hand are exactly one buffer without a
      newline, where the answer depends on when the report behind them is noticed. */
  datatype Parsed<+T> =
    | Ok(value: T, rest: Tape)
    | Fail(err: Error, rest: Tape)
    | Unsettled

  function AsParsed<T>(v: T, e: Option<Error>, rest: Tape): Parsed<T> {
    match e
    case None => Ok(v, rest)
    case Some(err) => Fail(err, rest)
  }

  datatype MultiBulkParser = NoParser | SliceParser | StringSliceParser

  // --- Reading ---------------------------------------------------------------------------------

  function ReadLine(t: Tape, cap: nat): (p: Parsed<seq<byte>>)
    requires cap >= MIN_BUFFER
    ensures p.Ok? ==> Size(p.rest) < Size(t)
    ensures p.Fail? ==> Size(p.rest) <= Size(t)
  {
    if Tied(t.now, cap) then Unsettled
    else NextLineShape(t.now, cap, true); match NextLine(t.now, cap, true)
      case End => Fail(IO(EndOf(t)), Past(t))
      case Prefix(text, rest) => Fail(ReaderTooSmall, t.(now := rest))
      case Line(text, rest) => Ok(text, if NL in t.now then t.(now := rest) else Past(t))
  }

  function ReadN(t: Tape, n: int): (p: Parsed<seq<byte>>)
    ensures !p.Unsettled? && Size(p.rest) <= Size(t)
  {
    if n < 0 then Fail(Panic, t)
    else if n <= |t.now| then Ok(t.now[..n], t.(now := t.now[n..]))
    else Fail(IO(EndOf(t)), Past(t))
  }

  /** n + 2 on a 64-bit int. */
  function PlusTwo(n: int): int { if n > MAX_INT64 - 2 then n + 2 - 0x1_0000_0000_0000_0000 else n + 2 }

  /** A bulk body of declared length n and its CRLF, sliced back to n bytes. */
  function ReadBulk(t: Tape, n: int): (p: Parsed<seq<byte>>)
    requires n <= MAX_INT64
    ensures !p.Unsettled? && Size(p.rest) <= Size(t)
  {
    match ReadN(t, PlusTwo(n))
    case Ok(b, rest) => if n < 0 then Fail(Panic, rest) else Ok(b[..n], rest)
    case other => other
  }

  predicate IsNilMark(line: seq<byte>) { |line| == 3 && line[1] == MINUS && line[2] == 49 }

  function ParseReply(t: Tape, cap: nat, p: MultiBulkParser): (out: Parsed<GoVal>)
    requires cap >= MIN_BUFFER
    ensures out.Ok? ==> Size(out.rest) < Size(t)
    ensures out.Fail? ==> Size(out.rest) <= Size(t)
    decreases Size(t), 0, 0
  {
    match ReadLine(t, cap)
    case Unsettled => Unsettled
    case Fail(err, rest) => Fail(err, rest)
    case Ok(line, rest) => ParseBody(line, rest, cap, p)
  }

  function ParseBody(line: seq<byte>, rest: Tape, cap: nat, p: MultiBulkParser): (out: Parsed<GoVal>)
    requires cap >= MIN_BUFFER
    ensures out.Ok? || out.Fail? ==> Size(out.rest) <= Size(rest)
    decreases Size(rest), 2, 0
  {
    if line == [] then Fail(Panic, rest)
    else if line[0] == MINUS then Fail(Redis(line[1..]), rest)
    else if line[0] == PLUS then Ok(Str(line[1..]), rest)
    else if line[0] == COLON then
      match ParseInt(line[1..], MAX_INT64)
      case None => Fail(Malformed, rest)
      case Some(v) => Ok(Num(v), rest)
    else if line[0] == DOLLAR then
      if IsNilMark(line) then Fail(NIL_ERROR, rest)
      else match ParseInt(line[1..], MAX_INT64)
        case None => Fail(Malformed, rest)
        case Some(n) =>
          match ReadBulk(rest, n)
          case Ok(b, after) => Ok(Str(b), after)
          case Fail(err, after) => Fail(err, after)
    else if line[0] == STAR then
      if IsNilMark(line) then Fail(NIL_ERROR, rest)
      else match ParseInt(line[1..], MAX_INT64)
        case None => Fail(Malformed, rest)
        case Some(n) =>
          if p.NoParser? || n < 0 then Fail(Panic, rest)
          else ParseElements(rest, cap, n, p, [])
    else Fail(Malformed, rest)
  }

  datatype Verdict = Good(value: GoVal) | Bad(err: Error)

  datatype Step = Keep(value: GoVal) | Stop(err: Error)

  function ElementParser(p: MultiBulkParser): MultiBulkParser {
    if p.SliceParser? then SliceParser else NoParser
  }

  /** What becomes of one element: parseSlice keeps everything and turns the nil error into a nil
      element; parseStringSlice keeps strings only and lets every error through. */
  function Admit(p: MultiBulkParser, m: Verdict): Step {
    match m
    case Good(v) => if p.SliceParser? || v.Str? then Keep(v) else Stop(Malformed)
    case Bad(err) => if p.SliceParser? && err == NIL_ERROR then Keep(Nil) else Stop(err)
  }

  /** parseSlice and parseStringSlice: n elements, the first one that is not kept ends it. */
  function ParseElements(t: Tape, cap: nat, n: nat, p: MultiBulkParser, acc: seq<GoVal>): (out: Parsed<GoVal>)
    requires cap >= MIN_BUFFER
    ensures out.Ok? || out.Fail? ==> Size(out.rest) <= Size(t)
    decreases Size(t), 1, n
  {
    if n == 0 then Ok(List(acc), t)
    else
      var element := ParseReply(t, cap, ElementParser(p));
      if element == Unsettled then Unsettled
      else match Admit(p, if element.Ok? then Good(element.value) else Bad(element.err))
        case Keep(v) => ParseElements(element.rest, cap, n - 1, p, acc + [v])
        case Stop(err) => Fail(err, element.rest)
  }

  function ParseReq(t: Tape, cap: nat): Parsed<seq<seq<byte>>>
    requires cap >= MIN_BUFFER
  {
    match ReadLine(t, cap)
    case Unsettled => Unsettled
    case Fail(err, rest) => Fail(err, rest)
    case Ok(line, rest) =>
      if line == [] then Fail(Panic, rest)
      else if line[0] != STAR then Ok([line], rest)
      else match ParseInt(line[1..], MAX_INT64)
        case None => Fail(Malformed, rest)
        case Some(n) => if n < 0 then Fail(Panic, rest) else ParseArgs(rest, cap, n, [])
  }

  function ParseArgs(t: Tape, cap: nat, n: nat, acc: seq<seq<byte>>): Parsed<seq<seq<byte>>>
    requires cap >= MIN_BUFFER
    decreases n
  {
    if n == 0 then Ok(acc, t)
    else match ParseArg(t, cap)
      case Ok(arg, rest) => ParseArgs(rest, cap, n - 1, acc + [arg])
      case Fail(err, rest) => Fail(err, rest)
      case Unsettled => Unsettled
  }

  function ParseArg(t: Tape, cap: nat): Parsed<seq<byte>>
    requires cap >= MIN_BUFFER
  {
    match ReadLine(t, cap)
    case Unsettled => Unsettled
    case Fail(err, rest) => Fail(err, rest)
    case Ok(line, rest) =>
      if line == [] then Fail(Panic, rest)
      else if line[0] != DOLLAR then Fail(Malformed, rest)
      else match ParseInt(line[1..], MAX_INT32)
        case None => Fail(Malformed, rest)
        case Some(n) => ReadBulk(rest, n)
  }

  // --- Writing ---------------------------------------------------------------------------------

  function EncodeArg(arg: seq<byte>): seq<byte> {
    [DOLLAR] + Dec(|arg|) + CRLF + arg + CRLF
  }

  function EncodeArgs(args: seq<seq<byte>>): seq<byte> {
    if args == [] then [] else EncodeArg(args[0]) + EncodeArgs(args[1..])
  }

  lemma {:induction false} EncodeArgsSnoc(most: seq<seq<byte>>, last: seq<byte>)
    ensures EncodeArgs(most + [last]) == EncodeArgs(most) + EncodeArg(last)
  {
    hide EncodeArg;
    if most == [] {
      assert most + [last] == [last];
      assert EncodeArgs([last]) == EncodeArg(last) + [];
    } else {
      EncodeArgsSnoc(most[1..], last);
      assert (most + [last])[1..] == most[1..] + [last];
      Assoc(EncodeArg(most[0]), EncodeArgs(most[1..]), EncodeArg(last));
    }
  }

  function EncodeReq(args: seq<seq<byte>>): seq<byte> {
    [STAR] + Dec(|args|) + CRLF + EncodeArgs(args)
  }

  /** A reply as the server means it. */
  datatype Reply =
    | Status(text: seq<byte>)
    | Error(text: seq<byte>)
    | Int(n: int)
    | Bulk(body: seq<byte>)
    | NilBulk
    | Array(items: seq<Reply>)
    | NilArray

  function Encode(v: Reply): seq<byte> {
    match v
    case Status(text) => [PLUS] + text + CRLF
    case Error(text) => [MINUS] + text + CRLF
    case Int(n) => [COLON] + DecInt(n) + CRLF
    case Bulk(body) => [DOLLAR] + Dec(|body|) + CRLF + (body + CRLF)
    case NilBulk => [DOLLAR, MINUS, 49] + CRLF
    case Array(items) => [STAR] + Dec(|items|) + CRLF + EncodeAll(items)
    case NilArray => [STAR, MINUS, 49] + CRLF
  }

  function EncodeAll(items: seq<Reply>): seq<byte> {
    if items == [] then [] else Encode(items[0]) + EncodeAll(items[1..])
  }
}
