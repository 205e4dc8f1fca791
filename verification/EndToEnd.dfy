/** Writers and readers put together, over sources that chop their bytes up as they like. */
module EndToEnd {
  import opened Bytes
  import opened Streams
  import opened Bufio
  import opened Resp
  import opened RespLaws
  import RespParser
  import GrowBuffer

  /** Fewer requests of the same text. */
  lemma {:induction false} FirstRequests(t: Tape, cap: nat, i: nat, k: nat)
    requires cap >= MIN_BUFFER && i <= k && ParseReqs(t, cap, k).Ok?
    ensures ParseReqs(t, cap, i).Ok? && |ParseReqs(t, cap, k).value| == k
    ensures ParseReqs(t, cap, i).value == ParseReqs(t, cap, k).value[..i]
    decreases k
  {
    hide ParseReq;
    if k > 0 {
      FirstRequests(t, cap, if i < k then i else k - 1, k - 1);
    }
  }

  /** Commands written by the client are read back one by one by parseReq, whatever the chunks and the
      buffer size, and what follows them is left. */
  method OverTheWire(cmds: seq<seq<seq<byte>>>, tail: Tape, rd: Source, size: nat)
    returns (got: seq<seq<seq<byte>>>, r: Reader)
    requires rd.Valid() && rd.Orderly() && rd.Tape() == Ahead(EncodeReqs(cmds), tail)
    requires forall c <- cmds :: ReqFits(c, if size < MIN_BUFFER then MIN_BUFFER else size)
    modifies rd
    ensures got == cmds && r.Valid() && r.Tape() == tail
  {
    hide Reader.Tape, Reader.TapeWith, EncodeReqs, Resp.ParseReq, ReqFits;
    ghost var t, cap := rd.Tape(), if size < MIN_BUFFER then MIN_BUFFER else size;
    BatchRoundTrip(cmds, tail, cap);
    r := new Reader(rd, size);
    got := [];
    FirstRequests(t, cap, 0, |cmds|);
    for i := 0 to |cmds|
      invariant r.Valid() && r.rd == rd && fresh(r) && fresh(r.buf) && r.buf.Length == cap
      invariant ParseReqs(t, cap, i) == Ok(got, r.Tape()) && got == cmds[..i]
    {
      FirstRequests(t, cap, i + 1, |cmds|);
      var args, e := RespParser.ParseReq(r);
      got := got + [args];
    }
  }

  /** Reader.ReadBytes on a source agrees with Buffer.ReadBytes on the whole content: the same bytes, the
      same verdict, the same rest. */
  method SameLine(content: seq<byte>, delim: byte, rd: Source, size: nat)
    returns (line: seq<byte>, e: Option<Err>, direct: seq<byte>, found: bool, r: Reader, b: GrowBuffer.Buffer)
    requires rd.Valid() && rd.Steady() && rd.Tape() == Tape(content, [])
    modifies rd
    ensures line == direct && (e == None <==> found) && (e == None || e == Some(EOF))
    ensures r.Valid() && b.Valid() && r.Tape() == Tape(b.Contents(), [])
  {
    hide Reader.Tape, Reader.TapeWith, Through, Ends;
    r := new Reader(rd, size);
    line, e := r.ReadBytes(delim);
    b := new GrowBuffer.Buffer();
    var _ := b.Write(content);
    Units(content);
    direct, found := b.ReadBytes(delim);
    SameRest(content, line, e, r.Tape(), b.Contents());
  }

  lemma SameRest(content: seq<byte>, line: seq<byte>, e: Option<Err>, t: Tape, b: seq<byte>)
    requires Took(Tape(content, []), line, e, t) && content == line + b
    ensures t == Tape(b, [])
  {
    TookFlat(Tape(content, []), line, e, t);
    Units(content);
    Units(t.now);
    assert t.now == content[|line|..] && b == content[|line|..];
  }

  /** Joining what ReadLine returns until it is not a prefix gives the whole line, for every chunking and
      every buffer size, even when CR and NL straddle the end of the buffer. Without a line end in reach the
      pieces are all there is, and the report behind them may show or be lost. */
  method WholeLine(r: Reader) returns (line: seq<byte>, e: Option<Err>)
    requires r.Valid()
    modifies r, r.buf, r.rd
    ensures r.Valid()
    ensures !r.troubled ==>
      var t := old(r.Tape());
      && line == FullLine(t.now).0
      && if NL in t.now then e == None && r.Tape() == t.(now := FullLine(t.now).1)
         else e in {None, Some(EndOf(t))} && r.Tape() == Past(t)
  {
    hide Reader.Tape, Reader.TapeWith, FullLine, LineTaken;
    ghost var t := r.Tape();
    var isPrefix := true;
    line, e := [], None;
    NoPieces(t);
    while isPrefix
      invariant r.Valid()
      invariant !r.troubled && isPrefix ==> Joined(t, line, r.Tape())
      invariant !r.troubled && !isPrefix ==> JoinedAll(t, line, e, r.Tape())
      invariant isPrefix ==> e == None
      decreases isPrefix, Size(r.Tape())
    {
      var piece;
      ghost var before := r.Tape();
      piece, isPrefix, e := r.ReadLine();
      if !r.troubled { OnePiece(t, line, before, r.buf.Length, piece, isPrefix, e, r.Tape()); }
      line := line + piece;
    }
  }

  /** So far the pieces are a beginning of the line. */
  ghost predicate Joined(t: Tape, line: seq<byte>, t': Tape) {
    && t'.later == t.later && (NL in t.now <==> NL in t'.now)
    && FullLine(t.now) == (line + FullLine(t'.now).0, FullLine(t'.now).1)
  }

  ghost predicate JoinedAll(t: Tape, line: seq<byte>, e: Option<Err>, t': Tape) {
    && line == FullLine(t.now).0
    && if NL in t.now then e == None && t' == t.(now := FullLine(t.now).1)
       else e in {None, Some(EndOf(t))} && t' == Past(t)
  }

  lemma NoPieces(t: Tape)
    ensures Joined(t, [], t)
  {
    Units(FullLine(t.now).0);
  }

  lemma OnePiece(t: Tape, line: seq<byte>, mid: Tape, cap: nat, piece: seq<byte>, isPrefix: bool, e: Option<Err>, t': Tape)
    requires cap >= MIN_BUFFER && Joined(t, line, mid) && Reader.IsLineTaken(mid, cap, piece, isPrefix, e, t')
    ensures if isPrefix then Joined(t, line + piece, t') else JoinedAll(t, line + piece, e, t')
  {
    hide FullLine, FirstBuffer, NextLine;
    var early := LineTaken(mid, cap, true, piece, isPrefix, e, t');
    var out := NextLine(mid.now, cap, early);
    NextLineShape(mid.now, cap, early);
    if out.Prefix? {
      FirstBufferShape(mid.now, cap);
      PrefixThenRest(mid.now, out.text, out.rest);
      Assoc(line, piece, FullLine(t'.now).0);
      assert NL in mid.now <==> NL in t'.now by { assert mid.now == piece + t'.now; }
    } else {
      LastPiece(mid, cap, early, piece, e, t');
    }
  }

  lemma LastPiece(mid: Tape, cap: nat, early: bool, piece: seq<byte>, e: Option<Err>, t': Tape)
    requires cap >= MIN_BUFFER && LineTaken(mid, cap, early, piece, false, e, t') && !NextLine(mid.now, cap, early).Prefix?
    ensures JoinedAll(mid, piece, e, t')
  {
    hide FullLine;
    NextLineShape(mid.now, cap, early);
    LineIsWhole(mid.now, cap, early);
    NoLineEnd(mid.now);
  }

  lemma NoLineEnd(s: seq<byte>)
    ensures NL !in s ==> FullLine(s) == (s, [])
  {
    assert IndexOf(s, NL) == -1 <==> NL !in s;
    if NL !in s {
      assert Through(s, NL) == s && s[|s|..] == [];
      assert s != [] ==> s[|s| - 1] in s;
    }
  }

  /** A byte that was read can be given back: the tape is as it was. */
  method ReadThenUnread(r: Reader) returns (e: Option<Err>)
    requires r.Valid()
    modifies r, r.buf, r.rd
    ensures r.Valid() && (e == None ==> r.Tape() == old(r.Tape()))
    ensures e != None ==> Took(old(r.Tape()), [], e, r.Tape())
    ensures Flat(r.Tape()) == Flat(old(r.Tape()))
  {
    hide Reader.Tape, Reader.TapeWith, Took, Flat;
    var c;
    c, e := r.ReadByte();
    if e == None {
      e := r.UnreadByte();
      assert e == None;
    } else {
      TookFlat(old(r.Tape()), [], e, r.Tape());
      Units(Flat(r.Tape()));
    }
  }

  /** So can the last byte of a slice. */
  method SliceThenUnread(r: Reader, delim: byte) returns (line: seq<byte>, e: Option<Err>)
    requires r.Valid()
    modifies r, r.buf, r.rd
    ensures r.Valid() && (line != [] && e in {None, Some(BufferFull)} ==> old(r.Tape()) == Ahead(line[..|line| - 1], r.Tape()))
    ensures line != [] ==> Flat(old(r.Tape())) == line[..|line| - 1] + Flat(r.Tape())
  {
    hide Reader.Tape, Reader.TapeWith, UpTo, Ends, Took, Flat;
    line, e := r.ReadSlice(delim);
    if line != [] {
      ghost var rest := r.Tape();
      var unread := r.UnreadByte();
      assert unread == None;
      GivenBack(old(r.Tape()), line, e, rest);
    }
  }

  lemma GivenBack(t: Tape, line: seq<byte>, e: Option<Err>, rest: Tape)
    requires line != [] && Took(t, line, e, rest)
    ensures e in {None, Some(BufferFull)} ==> t == Ahead(line[..|line| - 1], Ahead([line[|line| - 1]], rest))
    ensures Flat(t) == line[..|line| - 1] + Flat(Ahead([line[|line| - 1]], rest))
  {
    var most, last := line[..|line| - 1], line[|line| - 1];
    assert line == most + [last];
    AheadTwice(most, [last], rest);
    TookFlat(t, line, e, rest);
    Assoc([last], rest.now, Flatten(rest.later));
    Assoc(most, [last], Flat(rest));
  }

  /** But not always the last byte of a line. When a full buffer ends in CR, ReadLine keeps the CR for the next
      call and returns what is before it; UnreadByte then gives back another CR, in place of the last byte
      returned. */
  method LineThenUnread(r: Reader) returns (line: seq<byte>, isPrefix: bool, e: Option<Err>)
    requires r.Valid()
    modifies r, r.buf, r.rd
    ensures r.Valid()
    ensures isPrefix ==>
      && |line| in {r.buf.Length, r.buf.Length - 1}
      && r.Tape() == Ahead([if |line| < r.buf.Length then CR else line[|line| - 1]], Behind(old(r.Tape()), |line|))
      && (old(r.Tape()) == Ahead(line[..|line| - 1], r.Tape()) <==> |line| == r.buf.Length || line[|line| - 1] == CR)
  {
    hide Reader.Tape, Reader.TapeWith, Took, LineTaken;
    line, isPrefix, e := r.ReadLine();
    if e == None {
      ghost var rest := r.Tape();
      var unread := r.UnreadByte();
      if isPrefix {
        assert unread == None;
        WrongByte(old(r.Tape()), line, rest, if |line| < r.buf.Length then CR else line[|line| - 1]);
      }
    }
  }

  /** The tape without its first n bytes. */
  function Behind(t: Tape, n: nat): Tape
  {
    if n <= |t.now| then t.(now := t.now[n..]) else t
  }

  lemma WrongByte(t: Tape, line: seq<byte>, rest: Tape, b: byte)
    requires line != [] && t == Ahead(line, rest)
    ensures Behind(t, |line|) == rest
    ensures t == Ahead(line[..|line| - 1], Ahead([b], rest)) <==> b == line[|line| - 1]
  {
    var most, last := line[..|line| - 1], line[|line| - 1];
    assert line == most + [last];
    AheadTwice(most, [last], rest);
    assert (most + ([b] + rest.now))[|most|] == b && t.now[|most|] == last;
  }

  /** A read that fails in the middle of a line is not reported: the beginning of the line is returned as if it
      were a whole one, and the next call reads on behind the failure. */
  method SwallowedFault(part: seq<byte>, more: seq<byte>) returns (line: seq<byte>, isPrefix: bool, e: Option<Err>, r: Reader)
    requires NL !in part && |part| < 4096
    ensures r.Valid() && line == part && !isPrefix && r.Tape() == Tape(more, [])
    ensures e == if part == [] then Some(Fault) else None
  {
    hide Reader.Tape, Reader.TapeWith, LineTaken;
    var rd := new Source(Tape(part, [more]), 0, true, false);
    r := new Reader(rd, 4096);
    line, isPrefix, e := r.ReadLine();
    ghost var t := Tape(part, [more]);
    assert Past(t) == Tape(more, []) && EndOf(t) == Fault;
    var early := LineTaken(t, 4096, true, line, isPrefix, e, r.Tape());
    ReportShows(t, 4096, early, line, isPrefix, e, r.Tape());
    if part == [] { NothingThere(t, early, line, isPrefix, e, r.Tape()); }
  }

  lemma NothingThere(t: Tape, early: bool, line: seq<byte>, isPrefix: bool, e: Option<Err>, t': Tape)
    requires t.now == [] && LineTaken(t, 4096, early, line, isPrefix, e, t')
    ensures line == [] && !isPrefix && e == Some(EndOf(t)) && t' == Past(t)
  {
  }
}
