/** From statements to text and back: the encoder's text, read by the lexer and the parser. */
module TomlRoundTrip {
  import opened Bytes
  import opened TokenGrammar
  import opened StringEscapes
  import opened LexMachine
  import opened TomlTables
  import opened TomlReading
  import opened TomlBuild
  import opened TomlClashes
  import opened TomlParser
  import opened TomlRendering
  import opened TomlLexer
  import opened TomlDocument

  /** The values that come back: no \u in a string, 64-bit integers, arrays of one type. */
  predicate Printable(v: Value) {
    match v
    case StrVal(s) => IndexMark(s) == -1
    case BoolVal(_) => true
    case IntVal(n) => -MAX_INT64 - 1 <= n <= MAX_INT64
    case FloatVal(_) => false
    case DateVal(_) => false
    case ArrayVal(elems) => !Mixed(elems) && forall e <- elems :: Printable(e)
  }

  predicate ValueMayCome(d: Doc, m: Mode) {
    d.fault == None && d.open != [] && (m.WantValue? || (m.InArray? && m.depth > 0))
  }

  lemma PrimitiveReads(v: Value)
    requires Printable(v) && !v.ArrayVal?
    ensures |ToksOf(v)| == 1 && IsPrimitive(ToksOf(v)[0].typ) && ReadPrimitive(ToksOf(v)[0]) == Got(v)
  {
    hide Quote, Dec;
    match v
    case StrVal(s) => QuoteRoundTrip(s);
    case BoolVal(b) =>
    case IntVal(n) => ParseIntDec(n, MAX_INT64);
  }

  /** The tokens of a value are read as that value. */
  lemma {:induction false} ValueReads(d: Doc, m: Mode, v: Value)
    requires ValueMayCome(d, m) && Printable(v)
    ensures FeedAll(d, m, ToksOf(v)) == Settle(d.(open := Push(d.open, v)), PastValue(m))
    ensures AcceptToks(m, ToksOf(v)) == PastValue(m)
    decreases v, 0
  {
    hide Settle, Push, ReadPrimitive, FeedAll, AcceptToks;
    if v.ArrayVal? {
      ArrayReads(d, m, v.elems);
    } else {
      PrimitiveReads(v);
      var t := ToksOf(v)[0];
      FeedOne(d, m, t);
      assert ToksOf(v) == [t];
    }
  }

  lemma {:induction false} ArrayReads(d: Doc, m: Mode, elems: seq<Value>)
    requires ValueMayCome(d, m) && !Mixed(elems) && forall e <- elems :: Printable(e)
    ensures var toks := [Tok(ItemArray, [])] + ToksOfAll(elems) + [Tok(ItemArrayEnd, [])];
      && FeedAll(d, m, toks) == Settle(d.(open := Push(d.open, ArrayVal(elems))), PastValue(m))
      && AcceptToks(m, toks) == PastValue(m)
    decreases elems, 1
  {
    hide Settle, Push, Mixed, FeedAll, AcceptToks, ToksOfAll, Printable;
    var first, last, inner := Tok(ItemArray, []), Tok(ItemArrayEnd, []), ToksOfAll(elems);
    var inside := InArray(if m.WantValue? then 1 else m.depth + 1);
    FeedOne(d, m, first);
    var begun := d.(open := d.open + [[]]);
    FeedConcat(d, m, [first], inner);
    ElemsRead(d, inside, [], elems);
    Units(elems);
    FeedSnoc(d, m, [first] + inner, last);
    var open := d.open + [elems];
    assert open[|open| - 1] == elems && open[..|open| - 1] == d.open;
  }

  /** The tokens of an element add it to the innermost array. */
  lemma {:induction false} ElementReads(d: Doc, m: Mode, read: seq<Value>, v: Value)
    requires d.fault == None && m.InArray? && m.depth > 0 && Printable(v)
    ensures FeedAll(d.(open := d.open + [read]), m, ToksOf(v)) == d.(open := d.open + [read + [v]])
    ensures AcceptToks(m, ToksOf(v)) == m
    decreases v, 1
  {
    hide Printable, ToksOf, FeedAll, AcceptToks;
    var here := d.(open := d.open + [read]);
    ValueReads(here, m, v);
    assert here.open[..|d.open|] == d.open;
  }

  lemma {:induction false} ElemsRead(d: Doc, m: Mode, read: seq<Value>, elems: seq<Value>)
    requires d.fault == None && m.InArray? && m.depth > 0 && forall e <- elems :: Printable(e)
    ensures FeedAll(d.(open := d.open + [read]), m, ToksOfAll(elems)) == d.(open := d.open + [read + elems])
    ensures AcceptToks(m, ToksOfAll(elems)) == m
    decreases elems, 0
  {
    hide Printable, ToksOf, FeedAll, AcceptToks;
    var here := d.(open := d.open + [read]);
    if elems == [] {
      Units(read);
      NothingRead(here, m);
    } else {
      ElementReads(d, m, read, elems[0]);
      FeedConcat(here, m, ToksOf(elems[0]), ToksOfAll(elems[1..]));
      ElemsRead(d, m, read + [elems[0]], elems[1..]);
      assert read + [elems[0]] + elems[1..] == read + elems;
    }
  }

  lemma NothingRead(d: Doc, m: Mode)
    ensures FeedAll(d, m, []) == d && AcceptToks(m, []) == m
  {
  }

  lemma {:induction false} PathReads(d: Doc, ofArray: bool, some: bool, path: Path)
    requires d.fault == None && (some || path != [])
    ensures FeedAll(d, Names(ofArray, some), ToksOfPath(path)) == d.(names := d.names + path)
    ensures AcceptToks(Names(ofArray, some), ToksOfPath(path)) == Names(ofArray, true)
    decreases path
  {
    hide FeedAll, AcceptToks;
    var m := Names(ofArray, some);
    if path == [] {
      Units(d.names);
      NothingRead(d, m);
    } else {
      var t, rest := Tok(ItemText, path[0]), path[1..];
      FeedOne(d, m, t);
      FeedConcat(d, m, [t], ToksOfPath(rest));
      PathReads(d.(names := d.names + [path[0]]), ofArray, true, rest);
      assert d.names + [path[0]] + rest == d.names + path;
    }
  }

  /** The tokens of a statement are read as that statement. */
  lemma StmtReads(d: Doc, s: Stmt)
    requires d.fault == None && (s.Pair? ==> Printable(s.value)) && (s.Header? ==> s.path != [])
    ensures FeedAll(d, AtTop, ToksOfStmt(s)).stmts == d.stmts + [s]
    ensures FeedAll(d, AtTop, ToksOfStmt(s)).fault == None && AcceptToks(AtTop, ToksOfStmt(s)) == AtTop
  {
    match s
    case Pair(key, v) => PairReads(d, key, v);
    case Header(path, ofArray) => HeaderReads(d, path, ofArray);
  }

  lemma PairReads(d: Doc, key: Name, v: Value)
    requires d.fault == None && Printable(v)
    ensures var toks := [Tok(ItemKeyStart, []), Tok(ItemText, key)] + ToksOf(v);
      FeedAll(d, AtTop, toks).stmts == d.stmts + [Pair(key, v)] && FeedAll(d, AtTop, toks).fault == None
        && AcceptToks(AtTop, toks) == AtTop
  {
    hide FeedAll, AcceptToks, ToksOf, Printable;
    var first, name := Tok(ItemKeyStart, []), Tok(ItemText, key);
    FeedOne(d, AtTop, first);
    FeedSnoc(d, AtTop, [first], name);
    assert [first] + [name] == [first, name];
    var named := d.(names := [key], open := [[]]);
    ValueReads(named, WantValue, v);
    FeedConcat(d, AtTop, [first, name], ToksOf(v));
    Units([v]);
    assert named.open[..0] == [] && Push(named.open, v) == [] + [[] + [v]];
  }

  lemma HeaderReads(d: Doc, path: Path, ofArray: bool)
    requires d.fault == None && path != []
    ensures var toks := ToksOfStmt(Header(path, ofArray));
      FeedAll(d, AtTop, toks).stmts == d.stmts + [Header(path, ofArray)] && FeedAll(d, AtTop, toks).fault == None
        && AcceptToks(AtTop, toks) == AtTop
  {
    hide FeedAll, AcceptToks, ToksOfPath;
    var first := if ofArray then Tok(ItemArrayTableStart, [OPEN, OPEN]) else Tok(ItemTableStart, [OPEN]);
    var last := if ofArray then Tok(ItemArrayTableEnd, [CLOSE, CLOSE]) else Tok(ItemTableEnd, [CLOSE]);
    NamesRead(d, path, ofArray, first);
    FeedSnoc(d, AtTop, [first] + ToksOfPath(path), last);
  }

  lemma NamesRead(d: Doc, path: Path, ofArray: bool, first: Tok)
    requires d.fault == None && path != [] && first.typ == if ofArray then ItemArrayTableStart else ItemTableStart
    ensures FeedAll(d, AtTop, [first] + ToksOfPath(path)) == d.(names := path, open := [])
    ensures AcceptToks(AtTop, [first] + ToksOfPath(path)) == Names(ofArray, true)
  {
    hide FeedAll, AcceptToks, ToksOfPath;
    FeedOne(d, AtTop, first);
    PathReads(d.(names := [], open := []), ofArray, false, path);
    Units(path);
    FeedConcat(d, AtTop, [first], ToksOfPath(path));
  }

  function Stmts(lines: seq<Line>): seq<Stmt> {
    seq(|lines|, i requires 0 <= i < |lines| => lines[i].stmt)
  }

  predicate Fits(l: Line) {
    Blank(l.gap) && Writable(l.stmt) && (l.stmt.Pair? ==> Printable(l.stmt.value))
  }

  lemma {:induction false} LinesRead(d: Doc, lines: seq<Line>)
    requires d.fault == None && forall l <- lines :: Fits(l)
    ensures FeedAll(d, AtTop, ToksOfDoc(lines)).stmts == d.stmts + Stmts(lines)
    ensures FeedAll(d, AtTop, ToksOfDoc(lines)).fault == None && AcceptToks(AtTop, ToksOfDoc(lines)) == AtTop
    decreases |lines|
  {
    hide ToksOfStmt, Printable, Feed, Accept, Blank, RenderStmt;
    if lines == [] {
      Units(d.stmts);
    } else {
      var s := lines[0].stmt;
      assert Fits(lines[0]);
      StmtReads(d, s);
      var after := FeedAll(d, AtTop, ToksOfStmt(s));
      FeedConcat(d, AtTop, ToksOfStmt(s), ToksOfDoc(lines[1..]));
      LinesRead(after, lines[1..]);
      assert d.stmts + [s] + Stmts(lines[1..]) == d.stmts + Stmts(lines);
    }
  }

  /** Lexed and read, the encoder's text is the statements it was made from. */
  lemma DocReads(lines: seq<Line>)
    requires forall l <- lines :: Fits(l)
    ensures var toks := ToksOfDoc(lines) + [END];
      Document(toks).stmts == Stmts(lines) && Document(toks).fault == None && AcceptToks(AtTop, toks) == Done
  {
    hide FeedAll, AcceptToks;
    LinesRead(NOTHING, lines);
    Units(Stmts(lines));
    FeedSnoc(NOTHING, AtTop, ToksOfDoc(lines), END);
  }

  // --- The whole way ---------------------------------------------------------------------------------

  /** However far a run has come, what it has emitted begins what it emits in the end; a run that ends is
      never caught spinning. */
  lemma OneRun(input: seq<byte>, steps: nat, n: nat)
    requires Run(input, START, n).to.st.Halt?
    ensures var now, end := Run(input, START, steps), Run(input, START, n);
      |now.out| <= |end.out| && now.out == end.out[..|now.out|] && !Spins(input, now.to)
  {
    hide Run;
    var now, end := Run(input, START, steps), Run(input, START, n);
    if steps <= n {
      RunTwice(input, START, steps, n - steps);
      if Spins(input, now.to) { SpinningStays(input, now.to, n - steps); }
    } else {
      RunTwice(input, START, n, steps - n);
      HaltedStays(input, end.to, steps - n);
      Units(end.out);
    }
  }

  lemma {:induction false} FailedOrDone(m: Mode, toks: seq<Tok>)
    requires m.Failed? || m.Done? || m.Bad?
    ensures m.Failed? || m.Bad? ==> AcceptToks(m, toks) == m
    ensures m.Done? && toks != [] ==> AcceptToks(m, toks) == Bad
    decreases |toks|
  {
    if toks != [] { FailedOrDone(Accept(m, toks[0].typ), toks[1..]); }
  }

  /** The items handed out at any time, whatever the lexer has done so far: they are the first tokens of
      the text, they say the first of its statements, and nothing is wrong with them. */
  lemma NothingElse(lines: seq<Line>, steps: nat, k: nat)
    requires forall l <- lines :: Fits(l)
    requires k <= |Run(RenderDoc(lines) + [NL], START, steps).out|
    ensures var input := RenderDoc(lines) + [NL];
      var now := Run(input, START, steps);
      var seen := now.out[..k];
      && !Spins(input, now.to) && !AcceptToks(AtTop, seen).Failed? && Document(seen).fault == None
      && |Document(seen).stmts| <= |lines| && Document(seen).stmts == Stmts(lines)[..|Document(seen).stmts|]
      && (AcceptToks(AtTop, seen).Done? ==> Document(seen).stmts == Stmts(lines))
  {
    hide Run, RenderDoc, FeedAll, AcceptToks, ToksOfDoc;
    var input, full := RenderDoc(lines) + [NL], ToksOfDoc(lines) + [END];
    forall l | l in lines ensures Blank(l.gap) && Writable(l.stmt) { assert Fits(l); }
    DocLexes(lines);
    var n: nat :| Run(input, START, n).to.st.Halt? && Run(input, START, n).out == full;
    OneRun(input, steps, n);
    var now := Run(input, START, steps);
    var seen, unseen := now.out[..k], full[k..];
    assert seen == full[..k] && full == seen + unseen;
    DocReads(lines);
    ReadingGrows(full, k);
    AcceptConcat(AtTop, seen, unseen);
    var m := AcceptToks(AtTop, seen);
    if m.Failed? || m.Done? { FailedOrDone(m, unseen); }
    if m.Done? { Units(seen); }
  }

  /** Parsing what the encoder writes: the parser reads exactly the statements that were written, so the
      only thing it can object to is a statement that clashes with the ones before it, and it objects to
      exactly those; what it accepts, the tables hold. */
  method ParseRendered(lines: seq<Line>) returns (flow: Outcome, p: Parser)
    requires forall l <- lines :: Fits(l)
    ensures p.lx.input == RenderDoc(lines) + [NL]
    ensures Built(flow, p.doc.Now()) == BuildAll(Stmts(lines))
    ensures flow == OutcomeBy(Stmts(lines)) && flow in {Accepted, Refused, Bug}
    ensures flow == Accepted ==> Agrees(p.doc.Now(), Stmts(lines))
    ensures NoArrays(Stmts(lines)) ==> flow != Bug
  {
    hide Fits, Agrees, OutcomeBy, BuildAll, Run, Document, Toks, AcceptAll, AcceptToks, Lexer.Valid, LosesTable;
    flow, p := ParseText(RenderDoc(lines));
    ghost var lx := p.lx;
    ghost var k := |lx.log| - |lx.items|;
    StatesAgree(lx);
    ToksPrefix(lx.log, k);
    SameMode(lx.Delivered());
    NothingElse(lines, lx.steps, k);
    ghost var read := p.Says().stmts;
    BuildStops(Stmts(lines), |read|);
    Agreement(Stmts(lines));
    LinesSplit(lines);
    if NoArrays(Stmts(lines)) { NoArraysNoBug(Stmts(lines)); }
  }

  lemma LinesSplit(lines: seq<Line>)
    requires forall l <- lines :: Fits(l)
    ensures NamesSplit(Stmts(lines))
  {
    forall s | s in Stmts(lines) && s.Header? ensures DotFree(s.path) {
      var i :| 0 <= i < |lines| && lines[i].stmt == s;
      assert Fits(lines[i]);
    }
  }

  lemma ToksPrefix(items: seq<Item>, k: nat)
    requires k <= |items|
    ensures |Toks(items)| == |items| && Toks(items)[..k] == Toks(items[..k])
  {
  }

  lemma StatesAgree(lx: Lexer)
    requires lx.Valid()
    ensures Toks(lx.log) == Run(lx.input, START, lx.steps).out
    ensures lx.Stuck() ==> Spins(lx.input, Run(lx.input, START, lx.steps).to)
  {
  }

  // --- Two texts -------------------------------------------------------------------------------------

  const A: Name := [97]
  const B: Name := [98]
  const C: Name := [99]
  const T: Name := [116]
  const X: Name := [120]

  function Plain(stmts: seq<Stmt>): seq<Line> {
    seq(|stmts|, i requires 0 <= i < |stmts| => Line([], stmts[i]))
  }

  lemma {:induction false} PlainStmts(stmts: seq<Stmt>)
    ensures Stmts(Plain(stmts)) == stmts
    ensures RenderDoc(Plain(stmts)) == RenderStmts(stmts)
  {
    hide RenderStmt;
    if stmts != [] {
      PlainStmts(stmts[1..]);
      Units(RenderStmt(stmts[0]));
      assert Plain(stmts)[1..] == Plain(stmts[1..]);
    }
  }

  function RenderStmts(stmts: seq<Stmt>): seq<byte> {
    if stmts == [] then [] else RenderStmt(stmts[0]) + RenderStmts(stmts[1..])
  }

  /** The text
        [[a]]
        [a.b.c]
        [[a]]
        b = 5
        [a.b]
        x = 1
      ends in the BUG branch. */
  const LOST_TEXT: seq<byte> :=
    [91, 91, 97, 93, 93, NL] + ([91, 97, DOT, 98, DOT, 99, 93, NL] + ([91, 91, 97, 93, 93, NL] +
    ([98, 32, 61, 32, 53, NL] + ([91, 97, DOT, 98, 93, NL] + ([120, 32, 61, 32, 49, NL] + [])))))

  const FIVE := IntVal(5)
  const ONE := IntVal(1)
  const TWO := IntVal(2)

  lemma Unrolled(s: Stmt, rest: seq<Stmt>)
    ensures RenderStmts([s] + rest) == RenderStmt(s) + RenderStmts(rest)
  {
    hide RenderStmt;
    assert ([s] + rest)[1..] == rest;
  }

  lemma Names3(a: Name, b: Name, c: Name)
    ensures Dotted([a, b, c]) == a + [DOT] + Dotted([b, c]) && Dotted([b, c]) == b + [DOT] + c
  {
    assert [a, b, c][1..] == [b, c] && [b, c][1..] == [c];
  }

  lemma LostRenders()
    ensures RenderStmts(Lost(A, B, C, X, FIVE, ONE)) == LOST_TEXT
  {
    hide RenderStmts, RenderStmt, Dotted;
    var s1, s2, s3 := Header([A], true), Header([A, B, C], false), Pair(B, FIVE);
    var s4, s5 := Header([A, B], false), Pair(X, ONE);
    assert Lost(A, B, C, X, FIVE, ONE) == [s1] + ([s2] + ([s1] + ([s3] + ([s4] + ([s5] + [])))));
    Unrolled(s1, [s2] + ([s1] + ([s3] + ([s4] + ([s5] + [])))));
    Unrolled(s2, [s1] + ([s3] + ([s4] + ([s5] + []))));
    Unrolled(s1, [s3] + ([s4] + ([s5] + [])));
    Unrolled(s3, [s4] + ([s5] + []));
    Unrolled(s4, [s5] + []);
    Unrolled(s5, []);
    NothingRendered();
    LostHeaders();
    LostKeys();
  }

  lemma LostHeaders()
    ensures RenderStmt(Header([A], true)) == [91, 91, 97, 93, 93, NL]
    ensures RenderStmt(Header([A, B, C], false)) == [91, 97, DOT, 98, DOT, 99, 93, NL]
    ensures RenderStmt(Header([A, B], false)) == [91, 97, DOT, 98, 93, NL]
  {
    hide Dotted;
    OneName(A);
    Names3(A, A, B);
    Names3(A, B, C);
  }

  lemma LostKeys()
    ensures RenderStmt(Pair(B, FIVE)) == [98, 32, 61, 32, 53, NL]
    ensures RenderStmt(Pair(X, ONE)) == [120, 32, 61, 32, 49, NL]
  {
  }

  lemma NothingRendered() ensures RenderStmts([]) == [] {}
  lemma OneName(n: Name) ensures Dotted([n]) == n {}

  lemma LostFits(l: Line)
    requires l in Plain(Lost(A, B, C, X, FIVE, ONE))
    ensures Fits(l)
  {
    var s := Lost(A, B, C, X, FIVE, ONE);
    assert s == [Header([A], true), Header([A, B, C], false), Header([A], true), Pair(B, FIVE), Header([A, B], false), Pair(X, ONE)];
  }

  method ParseLost() returns (flow: Outcome, p: Parser)
    ensures p.lx.input == LOST_TEXT + [NL] && flow == Bug
  {
    hide RenderDoc, RenderStmts, Plain, Fits, Lost, BuildAll, OutcomeBy, Agrees, Lexer.Valid;
    LostRenders();
    LostTable(A, B, C, X, FIVE, ONE);
    ghost var lines := Plain(Lost(A, B, C, X, FIVE, ONE));
    PlainStmts(Lost(A, B, C, X, FIVE, ONE));
    forall l | l in lines ensures Fits(l) { LostFits(l); }
    flow, p := ParseRendered(Plain(Lost(A, B, C, X, FIVE, ONE)));
  }

  /** The text
        [t.a.b.c]
        [t]
        a.b = 1
        a.b = 2
      is accepted, and the key a.b of t keeps its first value. */
  const TWICE_TEXT: seq<byte> :=
    [91, 116, DOT, 97, DOT, 98, DOT, 99, 93, NL] + ([91, 116, 93, NL] +
    ([97, DOT, 98, 32, 61, 32, 49, NL] + ([97, DOT, 98, 32, 61, 32, 50, NL] + [])))

  lemma TwiceRenders()
    ensures RenderStmts(Twice(T, A, B, C, ONE, TWO)) == TWICE_TEXT
  {
    hide RenderStmts, RenderStmt, Dotted;
    var key := A + [DOT] + B;
    var s1, s2, s3, s4 := Header([T, A, B, C], false), Header([T], false), Pair(key, ONE), Pair(key, TWO);
    assert Twice(T, A, B, C, ONE, TWO) == [s1] + ([s2] + ([s3] + ([s4] + [])));
    Unrolled(s1, [s2] + ([s3] + ([s4] + [])));
    Unrolled(s2, [s3] + ([s4] + []));
    Unrolled(s3, [s4] + []);
    Unrolled(s4, []);
    NothingRendered();
    TwiceHeaders();
    TwiceKeys();
  }

  lemma TwiceHeaders()
    ensures RenderStmt(Header([T, A, B, C], false)) == [91, 116, DOT, 97, DOT, 98, DOT, 99, 93, NL]
    ensures RenderStmt(Header([T], false)) == [91, 116, 93, NL]
  {
    hide Dotted;
    Names3(A, B, C);
    FourNames(T, A, B, C);
    OneName(T);
  }

  lemma TwiceKeys()
    ensures RenderStmt(Pair(A + [DOT] + B, ONE)) == [97, DOT, 98, 32, 61, 32, 49, NL]
    ensures RenderStmt(Pair(A + [DOT] + B, TWO)) == [97, DOT, 98, 32, 61, 32, 50, NL]
  {
  }

  lemma FourNames(t: Name, a: Name, b: Name, c: Name)
    ensures Dotted([t, a, b, c]) == t + [DOT] + Dotted([a, b, c])
  {
    assert [t, a, b, c][1..] == [a, b, c];
  }

  lemma TwiceFits(l: Line)
    requires l in Plain(Twice(T, A, B, C, ONE, TWO))
    ensures Fits(l)
  {
    var key := A + [DOT] + B;
    assert key == [97, DOT, 98];
    assert Twice(T, A, B, C, ONE, TWO) == [Header([T, A, B, C], false), Header([T], false), Pair(key, ONE), Pair(key, TWO)];
  }

  method ParseTwice() returns (flow: Outcome, p: Parser)
    ensures p.lx.input == TWICE_TEXT + [NL] && flow == Accepted
    ensures KindAt(p.doc.mapping, [T, A + [DOT] + B]) == AValue(ONE)
  {
    hide RenderDoc, RenderStmts, Plain, Fits, Twice, BuildAll, OutcomeBy, KindBy, KindAt, Lexer.Valid;
    TwiceRenders();
    TwiceAccepted(T, A, B, C, ONE, TWO);
    ghost var lines := Plain(Twice(T, A, B, C, ONE, TWO));
    PlainStmts(Twice(T, A, B, C, ONE, TWO));
    forall l | l in lines ensures Fits(l) { TwiceFits(l); }
    flow, p := ParseRendered(Plain(Twice(T, A, B, C, ONE, TWO)));
  }
}
