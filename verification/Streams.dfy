/** What the buffered reader does, told on plain byte sequences and on tapes: no buffer, no chunks. */
module Streams {
  import opened Bytes

  const MIN_BUFFER: nat := 16

  datatype Err = EOF | NoProgress | Fault | BufferFull | NegativeCount | InvalidUnreadByte

  // --- What is still to come ---------------------------------------------------------------------

  /** The bytes in `now` arrive; then a read fails; then the first segment of `later` arrives, and so on.
      Behind the last segment is the end of input. */
  datatype Tape = Tape(now: seq<byte>, later: seq<seq<byte>>)

  function Ahead(x: seq<byte>, t: Tape): Tape { Tape(x + t.now, t.later) }

  /** What a read reports once the bytes at hand are used up. */
  function EndOf(t: Tape): Err { if t.later == [] then EOF else Fault }

  /** Behind that report. */
  function Past(t: Tape): Tape {
    if t.later == [] then Tape([], []) else Tape(t.later[0], t.later[1..])
  }

  function LaterSize(later: seq<seq<byte>>): nat {
    if later == [] then 0 else |later[0]| + 1 + LaterSize(later[1..])
  }

  function Size(t: Tape): nat { |t.now| + LaterSize(t.later) }

  function Flatten(parts: seq<seq<byte>>): seq<byte> {
    if parts == [] then [] else parts[0] + Flatten(parts[1..])
  }

  lemma {:induction false} FlattenSnoc(parts: seq<seq<byte>>, last: seq<byte>)
    ensures Flatten(parts + [last]) == Flatten(parts) + last
  {
    if parts == [] {
      assert ([] + [last])[1..] == [];
    } else {
      assert (parts + [last])[1..] == parts[1..] + [last];
      FlattenSnoc(parts[1..], last);
      Assoc(parts[0], Flatten(parts[1..]), last);
    }
  }

  /** All bytes, whatever fails in between. */
  function Flat(t: Tape): seq<byte> { t.now + Flatten(t.later) }

  /** x has been taken off the tape, and e reported. */
  predicate Took(t: Tape, x: seq<byte>, e: Option<Err>, t': Tape) {
    if e == Some(EOF) || e == Some(Fault) then x == t.now && e == Some(EndOf(t)) && t' == Past(t)
    else t == Ahead(x, t')
  }

  lemma AheadTwice(a: seq<byte>, b: seq<byte>, t: Tape)
    ensures Ahead(a + b, t) == Ahead(a, Ahead(b, t))
  {
    Assoc(a, b, t.now);
  }

  lemma AheadNone(t: Tape)
    ensures Ahead([], t) == t
  {
  }

  lemma TookAfter(t: Tape, a: seq<byte>, mid: Tape, b: seq<byte>, e: Option<Err>, t': Tape)
    requires t == Ahead(a, mid) && Took(mid, b, e, t')
    ensures Took(t, a + b, e, t')
  {
    Assoc(a, b, t'.now);
  }

  /** Nothing gets lost and nothing comes twice. */
  lemma TookFlat(t: Tape, x: seq<byte>, e: Option<Err>, t': Tape)
    requires Took(t, x, e, t')
    ensures Flat(t) == x + Flat(t')
    ensures Size(t') <= Size(t) && (x != [] ==> Size(t') < Size(t))
  {
    if t.later == [] { Units(t.now); }
    Assoc(x, t'.now, Flatten(t'.later));
  }

  /** The bytes up to and including the first `delim`, or everything when there is none. */
  function Through(s: seq<byte>, delim: byte): (line: seq<byte>)
    ensures line <= s
    ensures s != [] ==> line != [] && line[0] == s[0]
  {
    var i := IndexOf(s, delim);
    if i >= 0 then s[..i + 1] else s
  }

  /** No `delim` before the last byte. */
  predicate UpTo(line: seq<byte>, delim: byte) {
    forall k :: 0 <= k < |line| - 1 ==> line[k] != delim
  }

  predicate Ends(line: seq<byte>, delim: byte) { line != [] && line[|line| - 1] == delim }

  lemma FirstFound(window: seq<byte>, delim: byte)
    ensures IndexOf(window, delim) >= 0 ==>
      var line := window[..IndexOf(window, delim) + 1]; UpTo(line, delim) && Ends(line, delim)
    ensures IndexOf(window, delim) < 0 ==> UpTo(window, delim) && !Ends(window, delim)
  {
  }

  function TrimEol(line: seq<byte>): seq<byte> {
    if line == [] || line[|line| - 1] != NL then line
    else if |line| > 1 && line[|line| - 2] == CR then line[..|line| - 2]
    else line[..|line| - 1]
  }

  /** Line(text, rest): a whole line. Prefix: the buffer filled up first. End: nothing left. */
  datatype LineOutcome =
    | Line(text: seq<byte>, rest: seq<byte>)
    | Prefix(text: seq<byte>, rest: seq<byte>)
    | End

  /** A full buffer without a newline; a CR at its end is kept for the next call. */
  function FirstBuffer(s: seq<byte>, cap: nat): (out: LineOutcome)
    requires MIN_BUFFER <= cap <= |s|
    requires forall k :: 0 <= k < cap ==> s[k] != NL
    ensures out.Prefix? && cap - 1 <= |out.text| <= cap && |out.text| + |out.rest| == |s|
  {
    var k := if s[cap - 1] == CR then cap - 1 else cap;
    Prefix(s[..k], s[k..])
  }

  lemma FirstBufferShape(s: seq<byte>, cap: nat)
    requires MIN_BUFFER <= cap <= |s|
    requires forall k :: 0 <= k < cap ==> s[k] != NL
    ensures var out := FirstBuffer(s, cap);
      && out.text <= s && out.rest == s[|out.text|..]
      && NL !in out.text
      && (out.text[|out.text| - 1] == CR ==> out.rest != [] && out.rest[0] == CR)
  {
  }

  /** One ReadLine with a buffer of `cap` bytes. When the stream is exactly `cap` bytes without a
      newline the answer depends on whether the end of input has been reported yet: `early`. */
  function NextLine(s: seq<byte>, cap: nat, early: bool): LineOutcome
    requires cap >= MIN_BUFFER
  {
    var i := IndexOf(s, NL);
    if 0 <= i < cap then Line(TrimEol(s[..i + 1]), s[i + 1..])
    else if |s| > cap || (|s| == cap && !early) then FirstBuffer(s, cap)
    else if s == [] then End
    else Line(s, [])
  }

  lemma NextLineShape(s: seq<byte>, cap: nat, early: bool)
    requires cap >= MIN_BUFFER
    ensures var out := NextLine(s, cap, early);
      && (out.Prefix? ==> cap <= |s| && (forall k :: 0 <= k < cap ==> s[k] != NL) && out == FirstBuffer(s, cap))
      && (out.Line? ==> s != [] && |out.rest| < |s|)
      && (out == End ==> s == [])
  {
    hide IndexOf, TrimEol;
  }

  /** The one case in which the chunking of the input shows through. */
  predicate Tied(s: seq<byte>, cap: nat) { |s| == cap && NL !in s }

  lemma ChunkingShowsOnlyInTies(s: seq<byte>, cap: nat)
    requires cap >= MIN_BUFFER
    ensures NextLine(s, cap, true) == NextLine(s, cap, false) <==> !Tied(s, cap)
  {
    assert IndexOf(s, NL) == -1 <==> NL !in s;
  }

  /** The line at the head of the stream, however long it is. */
  function FullLine(s: seq<byte>): (seq<byte>, seq<byte>) {
    (TrimEol(Through(s, NL)), s[|Through(s, NL)|..])
  }

  lemma ThroughDrop(s: seq<byte>, k: nat)
    requires k <= |s| && NL !in s[..k]
    ensures Through(s, NL) == s[..k] + Through(s[k..], NL)
  {
    hide IndexOf;
    var a, b := s[..k], s[k..];
    assert s == a + b;
    var j := IndexOf(b, NL);
    if j >= 0 {
      assert s[..k + j] == a + b[..j] && s[k + j] == b[j];
      IndexOfUnique(s, NL, k + j);
      assert s[..k + j + 1] == a + b[..j + 1];
    } else {
      assert NL !in s;
      assert IndexOf(s, NL) == -1;
    }
  }

  lemma TrimEolAppend(a: seq<byte>, b: seq<byte>)
    requires b != [] || (a != [] ==> a[|a| - 1] != NL)
    requires a != [] && a[|a| - 1] == CR ==> b != [NL]
    ensures TrimEol(a + b) == a + TrimEol(b)
  {
    if b != [] {
      assert (a + b)[|a + b| - 1] == b[|b| - 1];
      if |b| > 1 {
        assert (a + b)[|a + b| - 2] == b[|b| - 2];
      }
    } else {
      assert a + b == a;
    }
  }

  lemma PrefixThenRest(s: seq<byte>, text: seq<byte>, rest: seq<byte>)
    requires text <= s && rest == s[|text|..] && text != [] && NL !in text
    requires text[|text| - 1] == CR ==> rest != [] && rest[0] == CR
    ensures FullLine(s) == (text + FullLine(rest).0, FullLine(rest).1)
  {
    assert s[..|text|] == text;
    ThroughDrop(s, |text|);
    var tail := Through(rest, NL);
    assert text[|text| - 1] in text;
    TrimEolAppend(text, tail);
    assert s[|text| + |tail|..] == rest[|tail|..];
  }

  /** What ReadLine returns as a whole line is one. */
  lemma LineIsWhole(s: seq<byte>, cap: nat, early: bool)
    requires cap >= MIN_BUFFER
    ensures match NextLine(s, cap, early)
      case End => FullLine(s) == ([], [])
      case Line(text, rest) => FullLine(s) == (text, rest)
      case Prefix(_, _) => true
  {
    var i := IndexOf(s, NL);
    if i < 0 {
      assert Through(s, NL) == s && s[|s|..] == [];
      assert s != [] ==> s[|s| - 1] in s;
      assert TrimEol(s) == s;
    } else {
      assert Through(s, NL) == s[..i + 1];
    }
  }

  /** A line with its terminator decides NextLine whatever follows it. */
  lemma NextLineTerminated(text: seq<byte>, rest: seq<byte>, cap: nat, early: bool)
    requires cap >= MIN_BUFFER && NL !in text && |text| + 2 <= cap
    ensures NextLine(text + CRLF + rest, cap, early) == Line(text, rest)
  {
    var s := text + CRLF + rest;
    assert forall k :: 0 <= k < |text| ==> s[k] == text[k];
    IndexOfUnique(s, NL, |text| + 1);
    assert s[..|text| + 2] == text + CRLF;
    assert s[|text| + 2..] == rest;
    assert TrimEol(text + CRLF) == text;
  }

  // --- Lines off a tape --------------------------------------------------------------------------

  /** One ReadLine: an unfinished line is taken for a whole one, and the report behind it is lost. */
  predicate LineTaken(t: Tape, cap: nat, early: bool, line: seq<byte>, isPrefix: bool, e: Option<Err>, t': Tape)
    requires cap >= MIN_BUFFER
  {
    match NextLine(t.now, cap, early)
    case End => line == [] && !isPrefix && e == Some(EndOf(t)) && t' == Past(t)
    case Prefix(text, rest) => line == text && isPrefix && e == None && t' == t.(now := rest)
    case Line(text, rest) =>
      line == text && !isPrefix && e == None && t' == if NL in t.now then t.(now := rest) else Past(t)
  }

  /** A report shows exactly when it does not come in the middle of a line. */
  lemma ReportShows(t: Tape, cap: nat, early: bool, line: seq<byte>, isPrefix: bool, e: Option<Err>, t': Tape)
    requires cap >= MIN_BUFFER && LineTaken(t, cap, early, line, isPrefix, e, t')
    ensures e != None <==> t.now == []
    ensures NL !in t.now && 0 < |t.now| < cap ==> line == t.now && !isPrefix && e == None && t' == Past(t)
  {
  }
}
