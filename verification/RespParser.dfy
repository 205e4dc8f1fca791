/** parser.go: the same protocol, parsed step by step off a buffered reader. */
module RespParser {
  import opened Bytes
  import opened Streams
  import opened Resp
  import opened Bufio

  /** An answer of the parser agrees with the specification unless there is a tie. */
  ghost predicate Agrees<T>(v: T, e: Option<Error>, rest: Tape, spec: Parsed<T>) {
    spec == Unsettled || spec == AsParsed(v, e, rest)
  }

  method AppendArgs(buf: seq<byte>, args: seq<seq<byte>>) returns (out: seq<byte>)
    ensures out == buf + EncodeReq(args)
  {
    out := buf + [STAR];
    out := out + Dec(|args|);
    out := out + CRLF;
    ghost var head := out;
    for i := 0 to |args|
      invariant out == head + EncodeArgs(args[..i])
    {
      var arg := args[i];
      ghost var before := out;
      out := out + [DOLLAR];
      out := out + Dec(|arg|);
      out := out + CRLF;
      out := out + arg;
      out := out + CRLF;
      AppendedArg(head, args, i, before, out);
    }
    assert args[..|args|] == args;
  }

  lemma AppendedArg(head: seq<byte>, args: seq<seq<byte>>, i: nat, before: seq<byte>, out: seq<byte>)
    requires i < |args| && before == head + EncodeArgs(args[..i])
    requires out == before + [DOLLAR] + Dec(|args[i]|) + CRLF + args[i] + CRLF
    ensures out == head + EncodeArgs(args[..i + 1])
  {
    hide EncodeArgs, Dec;
    EncodeArgsSnoc(args[..i], args[i]);
    assert args[..i + 1] == args[..i] + [args[i]];
    assert out == before + EncodeArg(args[i]);
    Assoc(head, EncodeArgs(args[..i]), EncodeArg(args[i]));
  }

  method ReadLine(rd: Reader) returns (line: seq<byte>, e: Option<Error>)
    requires rd.Valid()
    modifies rd, rd.buf, rd.rd
    ensures rd.Valid() && (old(rd.troubled) ==> rd.troubled)
    ensures Size(rd.Tape()) <= Size(old(rd.Tape())) && (e == None ==> Size(rd.Tape()) < Size(old(rd.Tape())))
    ensures !rd.troubled ==> Agrees(line, e, rd.Tape(), Resp.ReadLine(old(rd.Tape()), rd.buf.Length))
  {
    hide Reader.Tape, Reader.TapeWith, NextLine, LineTaken, Resp.ReadLine, Agrees;
    ghost var t := rd.Tape();
    var isPrefix, err;
    line, isPrefix, err := rd.ReadLine();
    if !rd.troubled { LineAgrees(t, rd.buf.Length, line, isPrefix, err, rd.Tape()); }
    if err.Some? {
      return line, Some(IO(err.value));
    }
    if isPrefix {
      return line, Some(ReaderTooSmall);
    }
    return line, None;
  }

  lemma LineAgrees(t: Tape, cap: nat, line: seq<byte>, isPrefix: bool, err: Option<Err>, rest: Tape)
    requires cap >= MIN_BUFFER && Reader.IsLineTaken(t, cap, line, isPrefix, err, rest)
    ensures Agrees(line, if err.Some? then Some(IO(err.value)) else if isPrefix then Some(ReaderTooSmall) else None,
                   rest, Resp.ReadLine(t, cap))
  {
    hide NextLine;
    ChunkingShowsOnlyInTies(t.now, cap);
    NextLineShape(t.now, cap, true);
  }

  method ReadN(rd: Reader, n: int) returns (b: seq<byte>, e: Option<Error>)
    requires rd.Valid()
    modifies rd, rd.buf, rd.rd
    ensures rd.Valid() && (old(rd.troubled) ==> rd.troubled)
    ensures Size(rd.Tape()) <= Size(old(rd.Tape()))
    ensures e == None ==> |b| == n
    ensures !rd.troubled ==> Agrees(b, e, rd.Tape(), Resp.ReadN(old(rd.Tape()), n))
  {
    hide Reader.Tape, Reader.TapeWith, Took;
    ghost var t := rd.Tape();
    if n < 0 {
      return [], Some(Panic);
    }
    var p, err := rd.ReadN(n);
    ReadNOf(t, n, p, err, rd.Tape());
    if err == Some(BufferFull) {
      b, e := ReadRest(rd, n, p, t);
      return;
    } else if err.Some? {
      return [], Some(IO(err.value));
    }
    return p, None;
  }

  /** What has been taken off the tape is what ReadN asks for, or all there is. */
  lemma ReadNOf(t: Tape, n: nat, p: seq<byte>, err: Option<Err>, rest: Tape)
    requires Took(t, p, err, rest)
    ensures |p| == n && (err == None || (err == Some(EOF) && |p| > 0)) ==> Resp.ReadN(t, n) == Ok(p, rest)
    ensures |p| < n && err in {Some(EOF), Some(Fault)} ==> Resp.ReadN(t, n) == Fail(IO(err.value), rest)
    ensures err == Some(BufferFull) ==> t == Ahead(p, rest)
    ensures Size(rest) <= Size(t)
  {
    TookFlat(t, p, err, rest);
    if |p| == n && t.now == p + rest.now { assert t.now[..n] == p && t.now[n..] == rest.now; }
  }

  lemma ArrayGrows(a: array<byte>, r: nat, n: nat)
    requires r + n <= a.Length
    ensures a[..r + n] == a[..r] + a[r..r + n]
    ensures a[..a.Length] == a[..]
  {
  }

  /** A new slice of n bytes that starts with p. */
  method Holding(p: seq<byte>, n: nat) returns (tmp: array<byte>)
    requires |p| <= n
    ensures fresh(tmp) && tmp.Length == n && tmp[..|p|] == p
  {
    tmp := new byte[n](_ => 0);
    forall k | 0 <= k < |p| { tmp[k] := p[k]; }
  }

  /** The value is longer than the buffer: keep reading into an array of its own. */
  method ReadRest(rd: Reader, n: nat, p: seq<byte>, ghost t: Tape) returns (b: seq<byte>, e: Option<Error>)
    requires rd.Valid() && |p| < n && t == Ahead(p, rd.Tape())
    modifies rd, rd.buf, rd.rd
    ensures rd.Valid() && (old(rd.troubled) ==> rd.troubled)
    ensures Size(rd.Tape()) <= Size(t)
    ensures e == None ==> |b| == n
    ensures !rd.troubled ==> Agrees(b, e, rd.Tape(), Resp.ReadN(t, n))
  {
    hide Reader.Tape, Reader.TapeWith, Resp.ReadN, Took;
    var tmp := Holding(p, n);
    var r := |p|;
    while true
      invariant |p| <= r < n && tmp.Length == n
      invariant rd.Valid() && (old(rd.troubled) ==> rd.troubled)
      invariant t == Ahead(tmp[..r], rd.Tape())
      decreases n - r, rd.rd.patience - rd.rd.idle
    {
      ghost var before, mid := tmp[..r], rd.Tape();
      var nn, err := rd.Read(tmp, r);
      ghost var after := rd.Tape();
      TookAfter(t, before, mid, tmp[r..r + nn], err, after);
      ArrayGrows(tmp, r, nn);
      r := r + nn;
      ReadNOf(t, n, tmp[..r], err, after);
      if r >= n {
        return tmp[..], None;
      }
      if err.Some? {
        return [], Some(IO(err.value));
      }
      StillAhead(t, tmp[..r], after);
    }
  }

  lemma StillAhead(t: Tape, x: seq<byte>, t': Tape)
    requires Took(t, x, None, t')
    ensures t == Ahead(x, t')
  {
  }

  method ReadBulk(rd: Reader, n: int) returns (b: seq<byte>, e: Option<Error>)
    requires rd.Valid() && n <= MAX_INT64
    modifies rd, rd.buf, rd.rd
    ensures rd.Valid() && (old(rd.troubled) ==> rd.troubled)
    ensures Size(rd.Tape()) <= Size(old(rd.Tape()))
    ensures !rd.troubled ==> Agrees(b, e, rd.Tape(), Resp.ReadBulk(old(rd.Tape()), n))
  {
    b, e := ReadN(rd, PlusTwo(n));
    if e.Some? { return [], e; }
    if n < 0 { return [], Some(Panic); }
    return b[..n], None;
  }

  method ParseReq(rd: Reader) returns (args: seq<seq<byte>>, e: Option<Error>)
    requires rd.Valid()
    modifies rd, rd.buf, rd.rd
    ensures rd.Valid() && (old(rd.troubled) ==> rd.troubled)
    ensures !rd.troubled ==> Agrees(args, e, rd.Tape(), Resp.ParseReq(old(rd.Tape()), rd.buf.Length))
  {
    var line;
    args := [];
    line, e := ReadLine(rd);
    if e.Some? { return; }
    if line == [] { return [], Some(Panic); }
    if line[0] != STAR { return [line], None; }
    var num := ParseInt(line[1..], MAX_INT64);
    if num == None { return [], Some(Malformed); }
    if num.value < 0 { return [], Some(Panic); }
    args, e := ParseArgs(rd, num.value);
  }

  /** The argument loop of parseReq. */
  method ParseArgs(rd: Reader, num: nat) returns (args: seq<seq<byte>>, e: Option<Error>)
    requires rd.Valid()
    modifies rd, rd.buf, rd.rd
    ensures rd.Valid() && (old(rd.troubled) ==> rd.troubled)
    ensures !rd.troubled ==> Agrees(args, e, rd.Tape(), Resp.ParseArgs(old(rd.Tape()), rd.buf.Length, num, []))
  {
    hide Resp.ParseArg;
    ghost var spec := Resp.ParseArgs(rd.Tape(), rd.buf.Length, num, []);
    args, e := [], None;
    for i := 0 to num
      invariant rd.Valid() && (old(rd.troubled) ==> rd.troubled)
      invariant e == None
      invariant !rd.troubled ==> spec in {Resp.ParseArgs(rd.Tape(), rd.buf.Length, num - i, args), Unsettled}
    {
      var arg;
      arg, e := ParseArg(rd);
      if e.Some? { return [], e; }
      args := args + [arg];
    }
  }

  method ParseArg(rd: Reader) returns (arg: seq<byte>, e: Option<Error>)
    requires rd.Valid()
    modifies rd, rd.buf, rd.rd
    ensures rd.Valid() && (old(rd.troubled) ==> rd.troubled)
    ensures !rd.troubled ==> Agrees(arg, e, rd.Tape(), Resp.ParseArg(old(rd.Tape()), rd.buf.Length))
  {
    var line;
    arg := [];
    line, e := ReadLine(rd);
    if e.Some? { return; }
    if line == [] { return [], Some(Panic); }
    if line[0] != DOLLAR { return [], Some(Malformed); }
    var argLen := ParseInt(line[1..], MAX_INT32);
    if argLen == None { return [], Some(Malformed); }
    arg, e := ReadBulk(rd, argLen.value);
  }

  method ParseReply(rd: Reader, p: MultiBulkParser) returns (v: GoVal, e: Option<Error>)
    requires rd.Valid()
    modifies rd, rd.buf, rd.rd
    ensures rd.Valid() && (old(rd.troubled) ==> rd.troubled)
    ensures Size(rd.Tape()) <= Size(old(rd.Tape()))
    ensures e == None ==> Size(rd.Tape()) < Size(old(rd.Tape()))
    ensures !rd.troubled ==> Agrees(v, e, rd.Tape(), Resp.ParseReply(old(rd.Tape()), rd.buf.Length, p))
    decreases Size(rd.Tape()), 0
  {
    hide Reader.Tape, Reader.TapeWith, Resp.ReadLine, Resp.ReadBulk, ParseElements, Size;
    var line;
    v := Nil;
    line, e := ReadLine(rd);
    if e.Some? { return; }
    if line == [] { return Nil, Some(Panic); }
    if line[0] == MINUS {
      return Nil, Some(Redis(line[1..]));
    } else if line[0] == PLUS {
      return Str(line[1..]), None;
    } else if line[0] == COLON {
      var n := ParseInt(line[1..], MAX_INT64);
      if n == None { return Nil, Some(Malformed); }
      return Num(n.value), None;
    } else if line[0] == DOLLAR {
      if IsNilMark(line) { return Nil, Some(NIL_ERROR); }
      var replyLen := ParseInt(line[1..], MAX_INT64);
      if replyLen == None { return Nil, Some(Malformed); }
      var b;
      b, e := ReadBulk(rd, replyLen.value);
      if e.Some? { return Nil, e; }
      return Str(b), None;
    } else if line[0] == STAR {
      if IsNilMark(line) { return Nil, Some(NIL_ERROR); }
      var repliesNum := ParseInt(line[1..], MAX_INT64);
      if repliesNum == None { return Nil, Some(Malformed); }
      if p.NoParser? || repliesNum.value < 0 { return Nil, Some(Panic); }
      v, e := ParseMultiBulk(rd, repliesNum.value, p);
      return;
    }
    return Nil, Some(Malformed);
  }

  /** parseSlice and parseStringSlice, told apart by `p`. */
  method ParseMultiBulk(rd: Reader, n: nat, p: MultiBulkParser) returns (v: GoVal, e: Option<Error>)
    requires rd.Valid()
    modifies rd, rd.buf, rd.rd
    ensures rd.Valid() && (old(rd.troubled) ==> rd.troubled)
    ensures Size(rd.Tape()) <= Size(old(rd.Tape()))
    ensures !rd.troubled ==> Agrees(v, e, rd.Tape(), ParseElements(old(rd.Tape()), rd.buf.Length, n, p, []))
    decreases Size(rd.Tape()), 1
  {
    hide Resp.ParseReply, Admit;
    var vals := [];
    ghost var spec := ParseElements(rd.Tape(), rd.buf.Length, n, p, []);
    for i := 0 to n
      invariant rd.Valid() && (old(rd.troubled) ==> rd.troubled)
      invariant Size(rd.Tape()) <= Size(old(rd.Tape()))
      invariant !rd.troubled ==> spec in {ParseElements(rd.Tape(), rd.buf.Length, n - i, p, vals), Unsettled}
    {
      var x, err := ParseReply(rd, ElementParser(p));
      match Admit(p, if err.Some? then Bad(err.value) else Good(x))
      case Keep(y) => vals := vals + [y];
      case Stop(why) => return Nil, Some(why);
    }
    return List(vals), None;
  }
}
