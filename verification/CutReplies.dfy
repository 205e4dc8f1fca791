/** A reply that is cut off by a read that fails: how much of it is read, and what the caller is told. */
module CutReplies {
  import opened Bytes
  import opened Streams
  import opened Resp
  import opened RespLaws

  // --- Silence ---------------------------------------------------------------------------------------

  /** Nothing arrives: the next m reads fail. */
  predicate Still(t: Tape, m: nat)
    decreases m
  {
    m == 0 || (t.now == [] && t.later != [] && Still(Past(t), m - 1))
  }

  function PastAll(t: Tape, m: nat): Tape
    decreases m
  {
    if m == 0 then t else PastAll(Past(t), m - 1)
  }

  /** x arrives, then a read fails, then it goes on as in `gap`. */
  function Cut(x: seq<byte>, gap: Tape): Tape { Tape(x, [gap.now] + gap.later) }

  lemma CutPast(x: seq<byte>, gap: Tape)
    ensures Past(Cut(x, gap)) == gap && EndOf(Cut(x, gap)) == Fault
  {
  }

  lemma CutAhead(a: seq<byte>, b: seq<byte>, gap: Tape)
    ensures Ahead(a, Cut(b, gap)) == Cut(a + b, gap)
  {
  }

  lemma {:induction false} StillLess(t: Tape, m: nat, k: nat)
    requires Still(t, m) && k <= m
    ensures Still(t, k) && Still(PastAll(t, k), m - k) && Flat(PastAll(t, k)) == Flat(t)
    decreases k
  {
    if k > 0 { StillLess(Past(t), m - 1, k - 1); }
  }

  lemma PastOneMore(t: Tape, m: nat)
    ensures PastAll(t, m + 1) == PastAll(Past(t), m)
    ensures PastAll(t, 1) == Past(t)
  {
    assert PastAll(Past(t), 0) == Past(t);
  }

  const TIMEOUT := IO(Fault)

  lemma StillLine(t: Tape, cap: nat)
    requires cap >= MIN_BUFFER && Still(t, 1)
    ensures ReadLine(t, cap) == Fail(TIMEOUT, Past(t))
  {
  }

  lemma StillReply(t: Tape, cap: nat, p: MultiBulkParser)
    requires cap >= MIN_BUFFER && Still(t, 1)
    ensures ParseReply(t, cap, p) == Fail(TIMEOUT, Past(t))
  {
    StillLine(t, cap);
  }

  // --- A reply that is cut off -------------------------------------------------------------------------

  /** The parse has used up what came of the reply, and gone past the failed read; at most it has met a
      second one. */
  predicate CutOff<T(==)>(out: Parsed<T>, gap: Tape) {
    !out.Unsettled? && (out.rest == gap || out == Fail(TIMEOUT, Past(gap)))
  }

  lemma PrefixOfSum(part: seq<byte>, a: seq<byte>, b: seq<byte>)
    requires part < a + b
    ensures part < a || (a <= part && part[|a|..] < b && part == a + part[|a|..])
  {
    if |part| >= |a| {
      assert part[..|a|] == (a + b)[..|a|] == a;
      assert part[|a|..] == (a + b)[|a|..|part|] == b[..|part| - |a|];
      assert |part| - |a| < |b|;
    } else {
      assert part == (a + b)[..|part|] == a[..|part|];
    }
  }

  /** A line that is cut off is taken for a whole one; only a fault in front of it shows. */
  lemma CutLine(text: seq<byte>, part: seq<byte>, gap: Tape, cap: nat)
    requires cap >= MIN_BUFFER && NL !in text && |text| + 2 <= cap && part < text + CRLF
    ensures ReadLine(Cut(part, gap), cap) == if part == [] then Fail(TIMEOUT, gap) else Ok(part, gap)
  {
    CutPast(part, gap);
    forall b | b in part ensures b != NL {
      var i :| 0 <= i < |part| && part[i] == b;
      assert (text + CRLF)[i] == b;
      if i < |text| { assert text[i] == b; }
    }
  }

  /** Whatever the cut line says, nothing more is read than there is. */
  lemma CutBody(line: seq<byte>, gap: Tape, cap: nat, p: MultiBulkParser)
    requires cap >= MIN_BUFFER && line != [] && Still(gap, 1)
    ensures CutOff(ParseBody(line, gap, cap, p), gap)
  {
    hide ReadLine, ParseReply, ParseElements, ReadBulk, IsNilMark, CutOff;
    CutAny<GoVal>(gap);
    if line[0] == DOLLAR && ParseInt(line[1..], MAX_INT64).Some? {
      StillBulk(gap, ParseInt(line[1..], MAX_INT64).value);
    }
    if line[0] == STAR && ParseInt(line[1..], MAX_INT64).Some? && ParseInt(line[1..], MAX_INT64).value >= 0 && !p.NoParser? {
      StillElements(gap, cap, ParseInt(line[1..], MAX_INT64).value, p);
    }
  }

  lemma CutAny<T>(gap: Tape)
    ensures forall v: T :: CutOff(Ok(v, gap), gap)
    ensures forall err :: CutOff<T>(Fail(err, gap), gap)
    ensures CutOff<T>(Fail(TIMEOUT, Past(gap)), gap)
  {
  }

  lemma StillBulk(gap: Tape, n: int)
    requires n <= MAX_INT64 && Still(gap, 1)
    ensures ReadBulk(gap, n).Ok? ==> ReadBulk(gap, n).rest == gap
    ensures ReadBulk(gap, n).Fail? ==> ReadBulk(gap, n).rest == gap || ReadBulk(gap, n) == Fail(TIMEOUT, Past(gap))
  {
  }

  lemma StillElements(gap: Tape, cap: nat, n: nat, p: MultiBulkParser)
    requires cap >= MIN_BUFFER && Still(gap, 1)
    ensures CutOff(ParseElements(gap, cap, n, p, []), gap)
  {
    hide ParseReply;
    StillReply(gap, cap, ElementParser(p));
  }

  lemma CutHeader(text: seq<byte>, part: seq<byte>, gap: Tape, cap: nat, p: MultiBulkParser)
    requires cap >= MIN_BUFFER && NL !in text && |text| + 2 <= cap && part < text + CRLF && Still(gap, 1)
    ensures CutOff(ParseReply(Cut(part, gap), cap, p), gap)
  {
    hide ReadLine, ParseBody, CutOff;
    CutLine(text, part, gap, cap);
    CutShown(gap);
    if part != [] { CutBody(part, gap, cap, p); }
  }

  lemma CutShown(gap: Tape)
    ensures CutOff<GoVal>(Fail(TIMEOUT, gap), gap)
  {
  }

  /** A reply that suits its reader, cut off anywhere. */
  lemma {:induction false} CutReply(v: Reply, part: seq<byte>, gap: Tape, cap: nat, p: MultiBulkParser)
    requires cap >= MIN_BUFFER && Sendable(v, cap) && EndsWithError(v, p) && part < Encode(v) && Still(gap, 1)
    ensures CutOff(ParseReply(Cut(part, gap), cap, p), gap)
    decreases v, 0
  {
    hide CutOff, ParseReply, ParseElements, EncodeAll, Dec, DecInt;
    match v
    case Status(text) => CutHeader([PLUS] + text, part, gap, cap, p);
    case Error(text) => CutHeader([MINUS] + text, part, gap, cap, p);
    case Int(n) => HeaderText(COLON, n); CutHeader([COLON] + DecInt(n), part, gap, cap, p);
    case NilBulk => CutHeader([DOLLAR, MINUS, 49], part, gap, cap, p);
    case NilArray => CutHeader([STAR, MINUS, 49], part, gap, cap, p);
    case Bulk(body) => CutBulk(body, part, gap, cap, p);
    case Array(items) => CutArray(items, part, gap, cap, p);
  }

  lemma HeaderText(mark: byte, n: int)
    requires mark != NL
    ensures NL !in [mark] + DecInt(n)
  {
    ParseIntDec(n, 0);
  }

  lemma CutBulk(body: seq<byte>, part: seq<byte>, gap: Tape, cap: nat, p: MultiBulkParser)
    requires cap >= MIN_BUFFER && Sendable(Bulk(body), cap) && part < Encode(Bulk(body)) && Still(gap, 1)
    ensures CutOff(ParseReply(Cut(part, gap), cap, p), gap)
  {
    hide ReadLine, Dec, Still;
    var n, text := |body|, [DOLLAR] + DecInt(|body|);
    PrefixOfSum(part, text + CRLF, body + CRLF);
    HeaderText(DOLLAR, n);
    if part < text + CRLF {
      CutHeader(text, part, gap, cap, p);
    } else {
      var more := part[|text + CRLF|..];
      CutAhead(text + CRLF, more, gap);
      NumberLine(DOLLAR, n, Cut(more, gap), cap);
      CutPast(more, gap);
    }
  }

  lemma {:induction false} CutArray(items: seq<Reply>, part: seq<byte>, gap: Tape, cap: nat, p: MultiBulkParser)
    requires cap >= MIN_BUFFER && Sendable(Array(items), cap) && EndsWithError(Array(items), p)
    requires part < Encode(Array(items)) && Still(gap, 1)
    ensures CutOff(ParseReply(Cut(part, gap), cap, p), gap)
    decreases items, 2
  {
    hide ReadLine, ParseElements, EncodeAll, Dec, Still, CutOff, EndsWithErrorAll;
    var n, text := |items|, [STAR] + DecInt(|items|);
    PrefixOfSum(part, text + CRLF, EncodeAll(items));
    HeaderText(STAR, n);
    if part < text + CRLF {
      CutHeader(text, part, gap, cap, p);
    } else {
      var more := part[|text + CRLF|..];
      CutAhead(text + CRLF, more, gap);
      NumberLine(STAR, n, Cut(more, gap), cap);
      EncodeAllEmpty(items);
      CutElements(items, more, gap, cap, p, []);
    }
  }

  lemma {:induction false} CutElements(items: seq<Reply>, part: seq<byte>, gap: Tape, cap: nat, p: MultiBulkParser, acc: seq<GoVal>)
    requires cap >= MIN_BUFFER && (forall i <- items :: Sendable(i, cap)) && EndsWithErrorAll(items, p)
    requires part < EncodeAll(items) && Still(gap, 1)
    ensures CutOff(ParseElements(Cut(part, gap), cap, |items|, p, acc), gap)
    decreases items, 1
  {
    hide CutOff, Encode, ParseReply, Meaning, Unread, Still, Sendable, EndsWithError;
    if items != [] {
      var q, first := ElementParser(p), items[0];
      PrefixOfSum(part, Encode(first), EncodeAll(items[1..]));
      ReadsItself(items, p);
      if part < Encode(first) {
        CutReply(first, part, gap, cap, q);
        CutElement(part, gap, cap, |items|, p, acc);
      } else {
        var more := part[|Encode(first)|..];
        CutAhead(Encode(first), more, gap);
        ReplyDecodes(first, Cut(more, gap), cap, q);
        ConsumedExactly(first, q);
        AheadNone(Cut(more, gap));
        var step := Admit(p, Meaning(first, q));
        if step.Keep? {
          CutElements(items[1..], more, gap, cap, p, acc + [step.value]);
        } else {
          EncodeAllEmpty(items[1..]);
        }
      }
    }
  }

  /** In an array that is read to its end every element is. */
  lemma ReadsItself(items: seq<Reply>, p: MultiBulkParser)
    requires items != [] && EndsWithErrorAll(items, p)
    ensures EndsWithError(items[0], ElementParser(p))
    ensures Admit(p, Meaning(items[0], ElementParser(p))).Keep? ==> EndsWithErrorAll(items[1..], p)
    ensures Admit(p, Meaning(items[0], ElementParser(p))).Stop? ==> |items| == 1
  {
    if Admit(p, Meaning(items[0], ElementParser(p))).Keep? {
      KeptIsRead(items[0], p);
      ConsumedExactly(items[0], ElementParser(p));
    }
  }

  lemma CutElement(part: seq<byte>, gap: Tape, cap: nat, n: nat, p: MultiBulkParser, acc: seq<GoVal>)
    requires cap >= MIN_BUFFER && n > 0 && Still(gap, 1)
    requires CutOff(ParseReply(Cut(part, gap), cap, ElementParser(p)), gap)
    ensures CutOff(ParseElements(Cut(part, gap), cap, n, p, acc), gap)
  {
    hide ParseReply;
    var element := ParseReply(Cut(part, gap), cap, ElementParser(p));
    var step := Admit(p, if element.Ok? then Good(element.value) else Bad(element.err));
    if step.Keep? && n > 1 {
      StillReply(gap, cap, ElementParser(p));
    }
  }

  // --- What a cut reply says -----------------------------------------------------------------------------

  function NumberHeader(mark: byte, n: int): seq<byte> { [mark] + DecInt(n) + CRLF }

  /** Of a header line with a number some digits have come, and the line end has not begun. */
  predicate HasNumeral(part: seq<byte>) { |part| > 1 && part[|part| - 1] != CR }

  /** What the caller is told when only `part` of a reply has come, and nothing follows for a while: a shorter
      text, a shorter error, a smaller number; the nil error once the number of a nil is there but not yet its
      line end; of a bulk and of an array at most a failure, unless the last element of an array is itself taken
      for a whole one. */
  function CutMeaning(v: Reply, part: seq<byte>, p: MultiBulkParser): Verdict
    decreases v, 0
  {
    if part == [] then Bad(TIMEOUT)
    else match v
      case Status(_) => Good(Str(part[1..]))
      case Error(_) => Bad(Redis(part[1..]))
      case Int(_) =>
        (match ParseInt(part[1..], MAX_INT64)
         case None => Bad(Malformed)
         case Some(n) => Good(Num(n)))
      case NilBulk => if |part| == 3 then Bad(NIL_ERROR) else Bad(Malformed)
      case NilArray => if |part| == 3 then Bad(NIL_ERROR) else Bad(Malformed)
      case Bulk(body) =>
        if |part| < |NumberHeader(DOLLAR, |body|)| && !HasNumeral(part) then Bad(Malformed) else Bad(TIMEOUT)
      case Array(items) =>
        var header := NumberHeader(STAR, |items|);
        if |part| < |header| then
          if !HasNumeral(part) then Bad(Malformed)
          else if p.NoParser? then Bad(Panic)
          else if items == [] then Good(List([]))
          else Bad(TIMEOUT)
        else CutMeaningAll(items, part[|header|..], p, [])
  }

  function CutMeaningAll(items: seq<Reply>, part: seq<byte>, p: MultiBulkParser, acc: seq<GoVal>): Verdict
    decreases items, 1
  {
    if items == [] then Good(List(acc))
    else
      var q := ElementParser(p);
      if |part| < |Encode(items[0])| then
        match Admit(p, CutMeaning(items[0], part, q))
        case Keep(x) => if |items| == 1 then Good(List(acc + [x])) else Bad(TIMEOUT)
        case Stop(err) => Bad(err)
      else
        match Admit(p, Meaning(items[0], q))
        case Keep(x) => CutMeaningAll(items[1..], part[|Encode(items[0])|..], p, acc + [x])
        case Stop(err) => Bad(err)
  }

  predicate Tells(out: Parsed<GoVal>, m: Verdict) {
    (out.Ok? && m == Good(out.value)) || (out.Fail? && m == Bad(out.err))
  }

  // Numbers that are cut off.

  lemma {:induction false} DenotesPrefix(s: seq<byte>, i: nat)
    requires AllDigits(s) && i <= |s|
    ensures AllDigits(s[..i]) && Denotes(s[..i]) <= Denotes(s)
    decreases |s|
  {
    if i < |s| {
      DenotesPrefix(s[..|s| - 1], i);
      assert s[..|s| - 1][..i] == s[..i];
    } else {
      assert s[..i] == s;
    }
  }

  lemma {:induction false} DenotesPositive(s: seq<byte>)
    requires AllDigits(s) && s != [] && s[0] != ZERO
    ensures Denotes(s) > 0
  {
    if |s| > 1 { DenotesPositive(s[..|s| - 1]); }
  }

  lemma {:induction false} LeadingDigit(n: nat)
    requires n > 0
    ensures Dec(n)[0] != ZERO
  {
    if n >= 10 { LeadingDigit(n / 10); }
  }

  lemma CutDigits(n: nat, i: nat)
    requires 0 < i <= |Dec(n)|
    ensures AllDigits(Dec(n)[..i]) && Denotes(Dec(n)[..i]) <= n && (Denotes(Dec(n)[..i]) == 0 <==> n == 0)
  {
    DenotesDec(n);
    DenotesPrefix(Dec(n), i);
    if n > 0 {
      LeadingDigit(n);
      DenotesPositive(Dec(n)[..i]);
    }
  }

  lemma NumberCut(mark: byte, n: nat, part: seq<byte>)
    requires part != [] && part < NumberHeader(mark, n) && n <= MAX_INT64
    ensures part[0] == mark && !IsNilMark(part)
    ensures !HasNumeral(part) ==> ParseInt(part[1..], MAX_INT64) == None
    ensures HasNumeral(part) ==>
      var read := ParseInt(part[1..], MAX_INT64);
      read.Some? && 0 <= read.value <= n && (read.value == 0 <==> n == 0)
  {
    hide Dec, Denotes;
    var line, digits, i := NumberHeader(mark, n), Dec(n), |part| - 1;
    assert part == line[..i + 1] && part[0] == line[0];
    if i > |digits| {
      assert part[1..] == digits + [CR];
      assert part[1..][|digits|] == CR && part[1..][0] == digits[0];
    } else if i > 0 {
      assert part[1..] == digits[..i];
      CutDigits(n, i);
      assert part[i] == digits[i - 1] && part[1] == digits[0] && IsDigit(digits[0]) && IsDigit(digits[i - 1]);
    }
  }

  lemma NilCut(mark: byte, part: seq<byte>)
    requires part != [] && part < [mark, MINUS, 49] + CRLF
    ensures part[0] == mark && (IsNilMark(part) <==> |part| == 3)
    ensures |part| != 3 ==> ParseInt(part[1..], MAX_INT64) == None
  {
    var line := [mark, MINUS, 49] + CRLF;
    assert part == line[..|part|];
    if |part| == 2 { assert part[1..] == [MINUS]; }
    if |part| == 4 { assert part[1..] == [MINUS, 49, CR] && [MINUS, 49, CR][1..] == [49, CR] && [49, CR][1] == CR; }
  }

  // Replies that are cut off.

  lemma CutIsBody(text: seq<byte>, part: seq<byte>, gap: Tape, cap: nat, p: MultiBulkParser)
    requires cap >= MIN_BUFFER && NL !in text && |text| + 2 <= cap && part < text + CRLF
    ensures part == [] ==> ParseReply(Cut(part, gap), cap, p) == Fail(TIMEOUT, gap)
    ensures part != [] ==> part[0] == (text + CRLF)[0] && ParseReply(Cut(part, gap), cap, p) == ParseBody(part, gap, cap, p)
  {
    hide ReadLine, ParseBody;
    CutLine(text, part, gap, cap);
  }

  lemma StillValue(gap: Tape, n: nat)
    requires n <= MAX_INT64 - 2 && Still(gap, 1)
    ensures ReadBulk(gap, n) == Fail(TIMEOUT, Past(gap))
  {
  }

  lemma ScalarTells(v: Reply, part: seq<byte>, gap: Tape, cap: nat, p: MultiBulkParser)
    requires cap >= MIN_BUFFER && Sendable(v, cap) && (v.Status? || v.Error? || v.Int? || v.NilBulk? || v.NilArray?) && part < Encode(v)
    ensures Tells(ParseReply(Cut(part, gap), cap, p), CutMeaning(v, part, p))
  {
    hide ParseReply, DecInt, Dec;
    match v
    case Status(text) => CutIsBody([PLUS] + text, part, gap, cap, p);
    case Error(text) => CutIsBody([MINUS] + text, part, gap, cap, p);
    case Int(n) => HeaderText(COLON, n); CutIsBody([COLON] + DecInt(n), part, gap, cap, p);
    case NilBulk =>
      CutIsBody([DOLLAR, MINUS, 49], part, gap, cap, p);
      if part != [] { NilCut(DOLLAR, part); }
    case NilArray =>
      CutIsBody([STAR, MINUS, 49], part, gap, cap, p);
      if part != [] { NilCut(STAR, part); }
  }

  lemma BulkTells(body: seq<byte>, part: seq<byte>, gap: Tape, cap: nat, p: MultiBulkParser)
    requires cap >= MIN_BUFFER && Sendable(Bulk(body), cap) && part < Encode(Bulk(body)) && Still(gap, 1)
    ensures Tells(ParseReply(Cut(part, gap), cap, p), CutMeaning(Bulk(body), part, p))
  {
    hide ParseReply, ReadLine, Dec, Still, ReadBulk, IsNilMark, HasNumeral;
    var n, text := |body|, [DOLLAR] + DecInt(|body|);
    PrefixOfSum(part, text + CRLF, body + CRLF);
    HeaderText(DOLLAR, n);
    if part < text + CRLF {
      CutIsBody(text, part, gap, cap, p);
      if part != [] {
        NumberCut(DOLLAR, n, part);
        if HasNumeral(part) { StillValue(gap, ParseInt(part[1..], MAX_INT64).value); }
      }
    } else {
      BodyCut(body, part[|text + CRLF|..], gap, cap, p);
    }
  }

  /** Once the header of a bulk is there, a cut is a failure, whatever follows it. */
  lemma BodyCut(body: seq<byte>, more: seq<byte>, gap: Tape, cap: nat, p: MultiBulkParser)
    requires cap >= MIN_BUFFER && Sendable(Bulk(body), cap) && more < body + CRLF
    ensures ParseReply(Cut(NumberHeader(DOLLAR, |body|) + more, gap), cap, p) == Fail(TIMEOUT, gap)
  {
    hide ReadLine, Dec;
    var n, text := |body|, [DOLLAR] + DecInt(|body|);
    CutAhead(text + CRLF, more, gap);
    NumberLine(DOLLAR, n, Cut(more, gap), cap);
    CutPast(more, gap);
    assert ReadN(Cut(more, gap), n + 2) == Fail(TIMEOUT, gap);
  }

  lemma {:induction false} ArrayTells(items: seq<Reply>, part: seq<byte>, gap: Tape, cap: nat, p: MultiBulkParser)
    requires cap >= MIN_BUFFER && Sendable(Array(items), cap) && EndsWithError(Array(items), p)
    requires part < Encode(Array(items)) && Still(gap, 1)
    ensures Tells(ParseReply(Cut(part, gap), cap, p), CutMeaning(Array(items), part, p))
    decreases items, 2
  {
    hide ParseReply, ReadLine, ParseElements, EncodeAll, Dec, IsNilMark, HasNumeral, EndsWithErrorAll, CutMeaningAll;
    var n, text := |items|, [STAR] + DecInt(|items|);
    PrefixOfSum(part, text + CRLF, EncodeAll(items));
    HeaderText(STAR, n);
    if part < text + CRLF {
      CutIsBody(text, part, gap, cap, p);
      if part != [] {
        NumberCut(STAR, n, part);
        if HasNumeral(part) { SomeElements(gap, cap, ParseInt(part[1..], MAX_INT64).value, p); }
      }
    } else {
      var more := part[|text + CRLF|..];
      CutAhead(text + CRLF, more, gap);
      NumberLine(STAR, n, Cut(more, gap), cap);
      EncodeAllEmpty(items);
      HeaderRead(text, Cut(more, gap), part, gap, cap, n, p);
      ElementsTell(items, more, gap, cap, p, []);
    }
  }

  lemma SomeElements(gap: Tape, cap: nat, n: nat, p: MultiBulkParser)
    requires cap >= MIN_BUFFER && Still(gap, 1)
    ensures Tells(ParseElements(gap, cap, n, p, []), if n == 0 then Good(List([])) else Bad(TIMEOUT))
  {
    hide ParseReply;
    StillReply(gap, cap, ElementParser(p));
  }

  lemma HeaderRead(text: seq<byte>, t: Tape, part: seq<byte>, gap: Tape, cap: nat, n: nat, p: MultiBulkParser)
    requires cap >= MIN_BUFFER && Cut(part, gap) == Ahead(text + CRLF, t) && text != [] && text[0] == STAR && !p.NoParser?
    requires ReadLine(Ahead(text + CRLF, t), cap) == Ok(text, t) && !IsNilMark(text) && ParseInt(text[1..], MAX_INT64) == Some(n)
    ensures ParseReply(Cut(part, gap), cap, p) == ParseElements(t, cap, n, p, [])
  {
    hide ReadLine, ParseElements;
  }

  lemma {:induction false} ElementsTell(items: seq<Reply>, part: seq<byte>, gap: Tape, cap: nat, p: MultiBulkParser, acc: seq<GoVal>)
    requires cap >= MIN_BUFFER && (forall i <- items :: Sendable(i, cap)) && EndsWithErrorAll(items, p)
    requires part < EncodeAll(items) && Still(gap, 1)
    ensures Tells(ParseElements(Cut(part, gap), cap, |items|, p, acc), CutMeaningAll(items, part, p, acc))
    decreases items, 1
  {
    hide Encode, ParseReply, Meaning, Unread, Still, Sendable, EndsWithError, CutMeaning;
    if items != [] {
      var q, first := ElementParser(p), items[0];
      PrefixOfSum(part, Encode(first), EncodeAll(items[1..]));
      ReadsItself(items, p);
      if part < Encode(first) {
        CutReply(first, part, gap, cap, q);
        CutTells(first, part, gap, cap, q);
        ElementTells(items, part, gap, cap, p, acc);
      } else {
        var more := part[|Encode(first)|..];
        CutAhead(Encode(first), more, gap);
        ReplyDecodes(first, Cut(more, gap), cap, q);
        ConsumedExactly(first, q);
        AheadNone(Cut(more, gap));
        var step := Admit(p, Meaning(first, q));
        if step.Keep? { ElementsTell(items[1..], more, gap, cap, p, acc + [step.value]); }
      }
    }
  }

  /** An array whose first element is the one that is cut off. */
  lemma ElementTells(items: seq<Reply>, part: seq<byte>, gap: Tape, cap: nat, p: MultiBulkParser, acc: seq<GoVal>)
    requires cap >= MIN_BUFFER && items != [] && |part| < |Encode(items[0])| && Still(gap, 1)
    requires var out := ParseReply(Cut(part, gap), cap, ElementParser(p));
      CutOff(out, gap) && Tells(out, CutMeaning(items[0], part, ElementParser(p)))
    ensures Tells(ParseElements(Cut(part, gap), cap, |items|, p, acc), CutMeaningAll(items, part, p, acc))
  {
    hide Encode, ParseReply, CutMeaning, Still;
    StillReply(gap, cap, ElementParser(p));
  }

  /** The caller of a reply that suits it and is cut off anywhere is told its cut meaning. */
  lemma {:induction false} CutTells(v: Reply, part: seq<byte>, gap: Tape, cap: nat, p: MultiBulkParser)
    requires cap >= MIN_BUFFER && Sendable(v, cap) && EndsWithError(v, p) && part < Encode(v) && Still(gap, 1)
    ensures Tells(ParseReply(Cut(part, gap), cap, p), CutMeaning(v, part, p))
    decreases v, 0
  {
    hide ParseReply, CutMeaning, Encode, Sendable, EndsWithError;
    match v
    case Bulk(body) => BulkTells(body, part, gap, cap, p);
    case Array(items) => ArrayTells(items, part, gap, cap, p);
    case _ => ScalarTells(v, part, gap, cap, p);
  }

  /** A cut does not make a reply panic that did not before. */
  lemma {:induction false} CutNoPanic(v: Reply, part: seq<byte>, p: MultiBulkParser)
    requires Meaning(v, p) != Bad(Panic)
    ensures CutMeaning(v, part, p) != Bad(Panic)
    decreases v, 0
  {
    if v.Array? {
      var header := NumberHeader(STAR, |v.items|);
      if |part| >= |header| { CutNoPanicAll(v.items, part[|header|..], p, []); }
    }
  }

  lemma {:induction false} CutNoPanicAll(items: seq<Reply>, part: seq<byte>, p: MultiBulkParser, acc: seq<GoVal>)
    requires MeaningAll(items, p, acc) != Bad(Panic)
    ensures CutMeaningAll(items, part, p, acc) != Bad(Panic)
    decreases items, 1
  {
    hide Encode;
    if items != [] {
      var q := ElementParser(p);
      if |part| < |Encode(items[0])| {
        CutNoPanic(items[0], part, q);
      } else {
        match Admit(p, Meaning(items[0], q))
        case Keep(x) => CutNoPanicAll(items[1..], part[|Encode(items[0])|..], p, acc + [x]);
        case Stop(_) =>
      }
    }
  }

  // --- Cuts that are noticed ---------------------------------------------------------------------------------

  /** The failed read comes in front of a reply, or in the body of a bulk, also of one inside an array. */
  predicate Noticed(v: Reply, part: seq<byte>)
    decreases v, 0
  {
    part == [] || match v
    case Bulk(body) => |part| >= |NumberHeader(DOLLAR, |body|)|
    case Array(items) =>
      var header := NumberHeader(STAR, |items|);
      |part| >= |header| && NoticedAmong(items, part[|header|..])
    case _ => false
  }

  predicate NoticedAmong(items: seq<Reply>, part: seq<byte>)
    decreases items, 1
  {
    items != [] && var first := Encode(items[0]);
    if |part| < |first| then Noticed(items[0], part) else NoticedAmong(items[1..], part[|first|..])
  }

  /** There the caller is told of it, whatever arrives afterwards. */
  lemma {:induction false} NoticedReply(v: Reply, part: seq<byte>, gap: Tape, cap: nat, p: MultiBulkParser)
    requires cap >= MIN_BUFFER && Sendable(v, cap) && EndsWithError(v, p) && part < Encode(v) && Noticed(v, part)
    ensures ParseReply(Cut(part, gap), cap, p) == Fail(TIMEOUT, gap)
    decreases v, 0
  {
    hide ParseReply, Dec, EndsWithErrorAll, EncodeAll;
    if part == [] {
      CutAtFront(gap, cap, p);
    } else {
      match v
      case Bulk(body) =>
        var header := NumberHeader(DOLLAR, |body|);
        PrefixOfSum(part, header, body + CRLF);
        BodyCut(body, part[|header|..], gap, cap, p);
      case Array(items) => NoticedArray(items, part, gap, cap, p);
    }
  }

  lemma CutAtFront(gap: Tape, cap: nat, p: MultiBulkParser)
    requires cap >= MIN_BUFFER
    ensures ParseReply(Cut([], gap), cap, p) == Fail(TIMEOUT, gap)
  {
    CutPast([], gap);
    assert ReadLine(Cut([], gap), cap) == Fail(TIMEOUT, gap);
  }

  lemma {:induction false} NoticedArray(items: seq<Reply>, part: seq<byte>, gap: Tape, cap: nat, p: MultiBulkParser)
    requires cap >= MIN_BUFFER && Sendable(Array(items), cap) && EndsWithError(Array(items), p)
    requires part < Encode(Array(items)) && part != [] && Noticed(Array(items), part)
    ensures ParseReply(Cut(part, gap), cap, p) == Fail(TIMEOUT, gap)
    decreases items, 2
  {
    hide ParseReply, ReadLine, ParseElements, EncodeAll, Dec, IsNilMark, EndsWithErrorAll, NoticedAmong;
    var n, text := |items|, [STAR] + DecInt(|items|);
    PrefixOfSum(part, text + CRLF, EncodeAll(items));
    HeaderText(STAR, n);
    var more := part[|text + CRLF|..];
    CutAhead(text + CRLF, more, gap);
    NumberLine(STAR, n, Cut(more, gap), cap);
    EncodeAllEmpty(items);
    HeaderRead(text, Cut(more, gap), part, gap, cap, n, p);
    NoticedElements(items, more, gap, cap, p, []);
  }

  lemma {:induction false} NoticedElements(items: seq<Reply>, part: seq<byte>, gap: Tape, cap: nat, p: MultiBulkParser, acc: seq<GoVal>)
    requires cap >= MIN_BUFFER && (forall i <- items :: Sendable(i, cap)) && EndsWithErrorAll(items, p)
    requires part < EncodeAll(items) && NoticedAmong(items, part)
    ensures ParseElements(Cut(part, gap), cap, |items|, p, acc) == Fail(TIMEOUT, gap)
    decreases items, 1
  {
    hide Encode, ParseReply, Meaning, Unread, Sendable, EndsWithError, Noticed;
    var q, first := ElementParser(p), items[0];
    PrefixOfSum(part, Encode(first), EncodeAll(items[1..]));
    ReadsItself(items, p);
    if part < Encode(first) {
      NoticedReply(first, part, gap, cap, q);
    } else {
      var more := part[|Encode(first)|..];
      CutAhead(Encode(first), more, gap);
      ReplyDecodes(first, Cut(more, gap), cap, q);
      ConsumedExactly(first, q);
      AheadNone(Cut(more, gap));
      var step := Admit(p, Meaning(first, q));
      if step.Keep? { NoticedElements(items[1..], more, gap, cap, p, acc + [step.value]); }
    }
  }
}
