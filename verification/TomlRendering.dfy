/** encode.go against lex.go: what the encoder writes is read back token by token. */
module TomlRendering {
  import opened Bytes
  import opened TokenGrammar
  import opened StringEscapes
  import opened LexMachine
  import opened TomlTables
  import opened TomlReading

  // --- The text of a document ------------------------------------------------------------------------

  /** eElement and eArrayOrSliceElement. Floats and dates are written as the text they are kept in. */
  function Render(v: Value): seq<byte> {
    match v
    case StrVal(s) => [QUOTE] + Quote(s) + [QUOTE]
    case BoolVal(b) => if b then TRUE else FALSE
    case IntVal(n) => DecInt(n)
    case FloatVal(text) => text
    case DateVal(text) => text
    case ArrayVal(elems) => [OPEN] + RenderElems(elems) + [CLOSE]
  }

  function RenderElems(elems: seq<Value>): seq<byte> {
    if elems == [] then []
    else if |elems| == 1 then Render(elems[0])
    else Render(elems[0]) + [COMMA, SPACE] + RenderElems(elems[1..])
  }

  /** keyEqElement, and the headers of eTable and eArrayOfTables. */
  function RenderStmt(s: Stmt): seq<byte> {
    match s
    case Pair(key, v) => key + [SPACE, EQUALS, SPACE] + Render(v) + [NL]
    case Header(path, false) => [OPEN] + Dotted(path) + [CLOSE, NL]
    case Header(path, true) => [OPEN, OPEN] + Dotted(path) + [CLOSE, CLOSE, NL]
  }

  /** A statement after blank lines and indentation. */
  datatype Line = Line(gap: seq<byte>, stmt: Stmt)

  function RenderDoc(lines: seq<Line>): seq<byte> {
    if lines == [] then [] else lines[0].gap + RenderStmt(lines[0].stmt) + RenderDoc(lines[1..])
  }

  predicate Blank(gap: seq<byte>) { forall b <- gap :: IsWhitespace(b) || IsNL(b) }

  /** The values the lexer is shown to read back. */
  predicate Lexable(v: Value) {
    match v
    case FloatVal(_) => false
    case DateVal(_) => false
    case ArrayVal(elems) => AllLexable(elems)
    case _ => true
  }

  predicate AllLexable(elems: seq<Value>) { forall e <- elems :: Lexable(e) }

  lemma LexableParts(elems: seq<Value>)
    requires AllLexable(elems) && elems != []
    ensures Lexable(elems[0]) && AllLexable(elems[1..])
  {
    hide Lexable;
  }

  /** Key names the lexer takes as they are; the encoder only checks that they are not empty. */
  predicate SafeKey(key: Name) { key != [] && KeyLike(key) && key[0] != OPEN && key[0] != EOF }

  /** isValidTableName, without NUL bytes. */
  predicate SafeName(name: Name) {
    name != [] && forall b <- name :: b != OPEN && b != CLOSE && b != DOT && b != EOF
  }

  predicate Writable(s: Stmt) {
    match s
    case Pair(key, v) => SafeKey(key) && Lexable(v)
    case Header(path, _) => path != [] && forall n <- path :: SafeName(n)
  }

  // --- The tokens of a document ----------------------------------------------------------------------

  function ToksOf(v: Value): seq<Tok> {
    match v
    case StrVal(s) => [Tok(ItemString, Quote(s))]
    case BoolVal(b) => [Tok(ItemBool, if b then TRUE else FALSE)]
    case IntVal(n) => [Tok(ItemInteger, DecInt(n))]
    case FloatVal(text) => [Tok(ItemFloat, text)]
    case DateVal(text) => [Tok(ItemDatetime, text)]
    case ArrayVal(elems) => [Tok(ItemArray, [])] + ToksOfAll(elems) + [Tok(ItemArrayEnd, [])]
  }

  function ToksOfAll(elems: seq<Value>): seq<Tok> {
    if elems == [] then [] else ToksOf(elems[0]) + ToksOfAll(elems[1..])
  }

  function ToksOfPath(path: Path): seq<Tok> {
    if path == [] then [] else [Tok(ItemText, path[0])] + ToksOfPath(path[1..])
  }

  function ToksOfStmt(s: Stmt): seq<Tok> {
    match s
    case Pair(key, v) => [Tok(ItemKeyStart, []), Tok(ItemText, key)] + ToksOf(v)
    case Header(path, false) => [Tok(ItemTableStart, [OPEN])] + ToksOfPath(path) + [Tok(ItemTableEnd, [CLOSE])]
    case Header(path, true) =>
      [Tok(ItemArrayTableStart, [OPEN, OPEN])] + ToksOfPath(path) + [Tok(ItemArrayTableEnd, [CLOSE, CLOSE])]
  }

  function ToksOfDoc(lines: seq<Line>): seq<Tok> {
    if lines == [] then [] else ToksOfStmt(lines[0].stmt) + ToksOfDoc(lines[1..])
  }

  // --- Runs ------------------------------------------------------------------------------------------

  /** Some number of steps leads from m to m', emitting out. */
  ghost predicate Leads(input: seq<byte>, m: Machine, out: seq<Tok>, m': Machine) {
    exists n: nat :: Run(input, m, n) == Move(m', out)
  }

  lemma Stays(input: seq<byte>, m: Machine)
    ensures Leads(input, m, [], m)
  {
    assert Run(input, m, 0) == Move(m, []);
  }

  lemma Takes(input: seq<byte>, m: Machine)
    ensures Leads(input, m, StepOf(input, m).out, StepOf(input, m).to)
  {
    hide StepOf;
    var mv := StepOf(input, m);
    assert Run(input, mv.to, 0) == Move(mv.to, []);
    Units(mv.out);
    assert Run(input, m, 1) == mv;
  }

  lemma Onward(input: seq<byte>, m: Machine, a: seq<Tok>, between: Machine, b: seq<Tok>, m': Machine)
    requires Leads(input, m, a, between) && Leads(input, between, b, m')
    ensures Leads(input, m, a + b, m')
  {
    hide Run;
    var i: nat :| Run(input, m, i) == Move(between, a);
    var j: nat :| Run(input, between, j) == Move(m', b);
    RunTwice(input, m, i, j);
  }

  /** A first step without output, then the rest. */
  lemma Quietly(input: seq<byte>, m: Machine, m': Machine, b: seq<Tok>, end: Machine)
    requires StepOf(input, m) == Move(m', []) && Leads(input, m', b, end)
    ensures Leads(input, m, b, end)
  {
    hide StepOf, Leads;
    Takes(input, m);
    Onward(input, m, [], m', b, end);
    Units(b);
  }

  // --- Text at a position ----------------------------------------------------------------------------

  predicate Reads(input: seq<byte>, at: nat, text: seq<byte>) {
    at + |text| <= |input| && input[at..at + |text|] == text
  }

  lemma ReadsAt(input: seq<byte>, at: nat, text: seq<byte>, k: nat)
    requires Reads(input, at, text) && k < |text|
    ensures at + k < |input| && At(input, at + k) == text[k] == input[at + k]
  {
    assert input[at..at + |text|][k] == input[at + k];
  }

  lemma ReadsSplit(input: seq<byte>, at: nat, a: seq<byte>, b: seq<byte>)
    requires Reads(input, at, a + b)
    ensures Reads(input, at, a) && Reads(input, at + |a|, b)
  {
    var whole := input[at..at + |a + b|];
    assert input[at..at + |a|] == whole[..|a|] == a;
    assert input[at + |a|..at + |a| + |b|] == whole[|a|..] == b;
  }

  lemma ReadsSplit3(input: seq<byte>, at: nat, a: seq<byte>, b: seq<byte>, c: seq<byte>)
    requires Reads(input, at, a + b + c)
    ensures Reads(input, at, a) && Reads(input, at + |a|, b) && Reads(input, at + |a| + |b|, c)
  {
    ReadsSplit(input, at, a + b, c);
    ReadsSplit(input, at, a, b);
  }

  /** What may follow a value. */
  predicate Ender(c: byte) { c == NL || c == COMMA || c == CLOSE }

  /** The machine after the value that was called for. */
  function Back(stack: seq<State>, pos: nat): Machine
    requires stack != []
  {
    Machine(stack[|stack| - 1], stack[..|stack| - 1], pos, pos)
  }

  // --- Strings ---------------------------------------------------------------------------------------

  /** The inside of a string, up to and past its closing quote. */
  lemma {:induction false} StringBody(input: seq<byte>, stack: seq<State>, start: nat, pos: nat, s: seq<byte>)
    requires stack != [] && start <= pos && Reads(input, pos, Quote(s) + [QUOTE])
    ensures var end := pos + |Quote(s)|;
      end < |input| && Leads(input, Machine(Str, stack, start, pos), [Tok(ItemString, input[start..end])], Back(stack, end + 1))
    decreases |s|
  {
    hide Leads, Quote;
    var m := Machine(Str, stack, start, pos);
    if s == [] {
      NothingQuoted();
      Units([QUOTE]);
      ReadsAt(input, pos, [QUOTE], 0);
      Takes(input, m);
    } else {
      var q := QuoteByte(s[0]);
      QuoteFirst(s);
      Assoc(q, Quote(s[1..]), [QUOTE]);
      ReadsSplit(input, pos, q, Quote(s[1..]) + [QUOTE]);
      StringBody(input, stack, start, pos + |q|, s[1..]);
      CharacterStep(input, stack, start, pos, s[0], [Tok(ItemString, input[start..pos + |Quote(s)|])], Back(stack, pos + |Quote(s)| + 1));
    }
  }

  lemma NothingQuoted() ensures Quote([]) == [] {}

  lemma QuoteFirst(s: seq<byte>)
    requires s != []
    ensures Quote(s) == QuoteByte(s[0]) + Quote(s[1..])
  {
  }

  /** One character of a string takes one step, or two when it is escaped. */
  lemma CharacterStep(input: seq<byte>, stack: seq<State>, start: nat, pos: nat, b: byte, out: seq<Tok>, end: Machine)
    requires Reads(input, pos, QuoteByte(b)) && Leads(input, Machine(Str, stack, start, pos + |QuoteByte(b)|), out, end)
    ensures Leads(input, Machine(Str, stack, start, pos), out, end)
  {
    hide Leads, Reads;
    var q, m := QuoteByte(b), Machine(Str, stack, start, pos);
    ReadsAt(input, pos, q, 0);
    if |q| == 2 {
      ReadsAt(input, pos, q, 1);
      var escape := Machine(StrEscape, stack, start, pos + 1);
      Quietly(input, escape, Machine(Str, stack, start, pos + 2), out, end);
      Quietly(input, m, escape, out, end);
    } else {
      Quietly(input, m, Machine(Str, stack, start, pos + 1), out, end);
    }
  }

  lemma StringLexes(input: seq<byte>, stack: seq<State>, pos: nat, s: seq<byte>)
    requires var text := [QUOTE] + Quote(s) + [QUOTE];
      stack != [] && Reads(input, pos, text) && pos + |text| < |input| && Ender(input[pos + |text|])
    ensures Leads(input, Machine(Value, stack, pos, pos), [Tok(ItemString, Quote(s))], Back(stack, pos + |Quote(s)| + 2))
  {
    hide Leads, Quote;
    Assoc([QUOTE], Quote(s), [QUOTE]);
    ReadsSplit(input, pos, [QUOTE], Quote(s) + [QUOTE]);
    ReadsAt(input, pos, [QUOTE], 0);
    NotTriple(input, pos, s);
    StringBody(input, stack, pos + 1, pos + 1, s);
    ReadsSplit(input, pos + 1, Quote(s), [QUOTE]);
    Quietly(input, Machine(Value, stack, pos, pos), Machine(Str, stack, pos + 1, pos + 1),
            [Tok(ItemString, Quote(s))], Back(stack, pos + |Quote(s)| + 2));
  }

  lemma NotTriple(input: seq<byte>, pos: nat, s: seq<byte>)
    requires Reads(input, pos + 1, Quote(s) + [QUOTE]) && pos + |Quote(s)| + 2 < |input| && Ender(input[pos + |Quote(s)| + 2])
    ensures !Triple(input, pos) || input[pos] != QUOTE
  {
    var text := Quote(s) + [QUOTE];
    ReadsAt(input, pos + 1, text, 0);
    if s != [] { assert text[0] == QuoteByte(s[0])[0]; }
  }

  // --- Numbers and constants -------------------------------------------------------------------------

  lemma {:induction false} DigitsLex(input: seq<byte>, st: State, stack: seq<State>, start: nat, pos: nat, end: nat)
    requires (st.NumberOrDate? || st.Number?) && stack != [] && start <= pos <= end < |input| && Ender(input[end])
    requires forall k :: pos <= k < end ==> IsDigit(input[k])
    ensures Leads(input, Machine(st, stack, start, pos), [Tok(ItemInteger, input[start..end])], Back(stack, end))
    decreases end - pos
  {
    hide Leads;
    var m := Machine(st, stack, start, pos);
    if pos == end {
      Takes(input, m);
    } else {
      DigitsLex(input, st, stack, start, pos + 1, end);
      Quietly(input, m, Machine(st, stack, start, pos + 1), [Tok(ItemInteger, input[start..end])], Back(stack, end));
    }
  }

  lemma IntegerLexes(input: seq<byte>, stack: seq<State>, pos: nat, n: int)
    requires var text := DecInt(n);
      stack != [] && Reads(input, pos, text) && pos + |text| < |input| && Ender(input[pos + |text|])
    ensures Leads(input, Machine(Value, stack, pos, pos), [Tok(ItemInteger, DecInt(n))], Back(stack, pos + |DecInt(n)|))
  {
    hide Leads, Dec;
    var text, end := DecInt(n), pos + |DecInt(n)|;
    forall k | pos <= k < end ensures input[k] == text[k - pos] { ReadsAt(input, pos, text, k - pos); }
    var m, out, back := Machine(Value, stack, pos, pos), [Tok(ItemInteger, text)], Back(stack, end);
    if n < 0 {
      assert text[0] == MINUS;
      DigitsLex(input, Number, stack, pos, pos + 2, end);
      var first := Machine(NumberStart, stack, pos, pos + 1);
      assert IsDigit(input[pos + 1]);
      Quietly(input, first, Machine(Number, stack, pos, pos + 2), out, back);
      Quietly(input, m, first, out, back);
    } else {
      DigitsLex(input, NumberOrDate, stack, pos, pos + 1, end);
      var first := Machine(NumberOrDateStart, stack, pos, pos);
      assert IsDigit(input[pos]);
      Quietly(input, first, Machine(NumberOrDate, stack, pos, pos + 1), out, back);
      Quietly(input, m, first, out, back);
    }
  }

  lemma {:induction false} ConstReads(input: seq<byte>, pos: nat, s: seq<byte>, i: nat)
    requires i <= |s| && pos + |s| - i <= |input| && forall k :: i <= k < |s| ==> At(input, pos + k - i) == s[k]
    ensures ConstStop(input, pos, s, i) == pos + |s| - i
    decreases |s| - i
  {
    if i < |s| {
      assert At(input, pos + i - i) == s[i];
      ConstReads(input, pos + 1, s, i + 1);
    }
  }

  lemma ConstLexes(input: seq<byte>, stack: seq<State>, pos: nat, b: bool)
    requires var text := if b then TRUE else FALSE; stack != [] && Reads(input, pos, text)
    ensures var text := if b then TRUE else FALSE;
      Leads(input, Machine(Value, stack, pos, pos), [Tok(ItemBool, text)], Back(stack, pos + |text|))
  {
    hide Leads, OnConst;
    var text := if b then TRUE else FALSE;
    ReadsAt(input, pos, text, 0);
    ConstMove(input, stack, pos, if b then True else False, text);
    var first := Machine(if b then True else False, stack, pos, pos + 1);
    Takes(input, first);
    Quietly(input, Machine(Value, stack, pos, pos), first, [Tok(ItemBool, text)], Back(stack, pos + |text|));
  }

  lemma ConstMove(input: seq<byte>, stack: seq<State>, pos: nat, st: State, text: seq<byte>)
    requires stack != [] && text != [] && Reads(input, pos, text)
    ensures OnConst(input, Machine(st, stack, pos, pos + 1), text) == Move(Back(stack, pos + |text|), [Tok(ItemBool, text)])
  {
    hide ConstStop;
    forall k | 0 <= k < |text| ensures At(input, pos + k) == text[k] { ReadsAt(input, pos, text, k); }
    ConstReads(input, pos + 1, text, 1);
    TextIs(input, pos, text);
    Units([Tok(ItemBool, text)]);
  }

  // --- Arrays ----------------------------------------------------------------------------------------

  lemma FirstChar(v: Value)
    requires Lexable(v)
    ensures Render(v) != []
    ensures var c := Render(v)[0]; !IsWhitespace(c) && !IsNL(c) && c != HASH && c != COMMA && c != CLOSE
  {
    if v.IntVal? {
      assert v.n >= 0 ==> IsDigit(Dec(v.n)[0]);
    }
  }

  lemma {:induction false} ValueLexes(input: seq<byte>, stack: seq<State>, pos: nat, v: Value)
    requires Lexable(v) && stack != [] && Reads(input, pos, Render(v))
    requires pos + |Render(v)| < |input| && Ender(input[pos + |Render(v)|])
    ensures Leads(input, Machine(Value, stack, pos, pos), ToksOf(v), Back(stack, pos + |Render(v)|))
    decreases v, 0
  {
    hide Leads, DecInt, Quote;
    match v
    case StrVal(s) => StringLexes(input, stack, pos, s);
    case BoolVal(b) => ConstLexes(input, stack, pos, b);
    case IntVal(n) => IntegerLexes(input, stack, pos, n);
    case ArrayVal(elems) => ArrayLexes(input, stack, pos, elems);
  }

  lemma {:induction false} ArrayLexes(input: seq<byte>, stack: seq<State>, pos: nat, elems: seq<Value>)
    requires stack != [] && AllLexable(elems) && Reads(input, pos, [OPEN] + RenderElems(elems) + [CLOSE])
    ensures Leads(input, Machine(Value, stack, pos, pos), [Tok(ItemArray, [])] + ToksOfAll(elems) + [Tok(ItemArrayEnd, [])],
                  Back(stack, pos + |RenderElems(elems)| + 2))
    decreases elems, 2
  {
    hide Leads, Render, RenderElems, ToksOfAll;
    var m, inside := Machine(Value, stack, pos, pos), Machine(ArrayValue, stack, pos + 1, pos + 1);
    Assoc([OPEN], RenderElems(elems), [CLOSE]);
    ReadsSplit(input, pos, [OPEN], RenderElems(elems) + [CLOSE]);
    ReadsAt(input, pos, [OPEN], 0);
    ElemsLex(input, stack, pos + 1, elems);
    Takes(input, m);
    var rest := ToksOfAll(elems) + [Tok(ItemArrayEnd, [])];
    Onward(input, m, [Tok(ItemArray, [])], inside, rest, Back(stack, pos + |RenderElems(elems)| + 2));
    Assoc([Tok(ItemArray, [])], ToksOfAll(elems), [Tok(ItemArrayEnd, [])]);
  }

  /** The bracket that ends an array, after an element or right away. */
  lemma Closes(input: seq<byte>, st: State, stack: seq<State>, pos: nat)
    requires (st.ArrayValue? || st.ArrayValueEnd?) && stack != [] && Reads(input, pos, [CLOSE])
    ensures Leads(input, Machine(st, stack, pos, pos), [Tok(ItemArrayEnd, [])], Back(stack, pos + 1))
  {
    hide Leads;
    ReadsAt(input, pos, [CLOSE], 0);
    var ending := Machine(ArrayEnd, stack, pos, pos + 1);
    Takes(input, ending);
    Quietly(input, Machine(st, stack, pos, pos), ending, [Tok(ItemArrayEnd, [])], Back(stack, pos + 1));
  }

  lemma {:induction false} ElemsLex(input: seq<byte>, stack: seq<State>, pos: nat, elems: seq<Value>)
    requires stack != [] && AllLexable(elems) && Reads(input, pos, RenderElems(elems) + [CLOSE])
    ensures Leads(input, Machine(ArrayValue, stack, pos, pos), ToksOfAll(elems) + [Tok(ItemArrayEnd, [])],
                  Back(stack, pos + |RenderElems(elems)| + 1))
    decreases elems, 1
  {
    hide Leads, Render, Reads, Lexable, AllLexable;
    var close := [Tok(ItemArrayEnd, [])];
    if elems == [] {
      Units([CLOSE]);
      Closes(input, ArrayValue, stack, pos);
      Units(close);
    } else if |elems| == 1 {
      LexableParts(elems);
      ReadsSplit(input, pos, Render(elems[0]), [CLOSE]);
      var q := pos + |Render(elems[0])|;
      ReadsAt(input, q, [CLOSE], 0);
      ElementLexes(input, stack, pos, elems[0]);
      Closes(input, ArrayValueEnd, stack, q);
      Onward(input, Machine(ArrayValue, stack, pos, pos), ToksOf(elems[0]), Machine(ArrayValueEnd, stack, q, q), close, Back(stack, q + 1));
      assert elems[1..] == [];
      Units(ToksOf(elems[0]));
    } else {
      MoreElems(input, stack, pos, elems);
    }
  }

  lemma {:induction false} MoreElems(input: seq<byte>, stack: seq<State>, pos: nat, elems: seq<Value>)
    requires stack != [] && AllLexable(elems) && |elems| > 1 && Reads(input, pos, RenderElems(elems) + [CLOSE])
    ensures Leads(input, Machine(ArrayValue, stack, pos, pos), ToksOfAll(elems) + [Tok(ItemArrayEnd, [])],
                  Back(stack, pos + |RenderElems(elems)| + 1))
    decreases elems, 0
  {
    hide Leads, Render, Reads, RenderElems, ToksOfAll, StepOf, ToksOf, Lexable, AllLexable;
    OneAndMore(elems);
    LexableParts(elems);
    var first, rest := Render(elems[0]), RenderElems(elems[1..]);
    Assoc(first + [COMMA, SPACE], rest, [CLOSE]);
    ReadsSplit3(input, pos, first, [COMMA, SPACE], rest + [CLOSE]);
    var q := pos + |first|;
    ReadsAt(input, q, [COMMA, SPACE], 0);
    ElementLexes(input, stack, pos, elems[0]);
    ElemsLex(input, stack, q + 2, elems[1..]);
    NextElems(input, stack, pos, q, ToksOf(elems[0]), ToksOfAll(elems[1..]), Back(stack, pos + |RenderElems(elems)| + 1));
  }

  /** An element, a separator, and the other elements. */
  lemma NextElems(input: seq<byte>, stack: seq<State>, pos: nat, q: nat, first: seq<Tok>, rest: seq<Tok>, end: Machine)
    requires Leads(input, Machine(ArrayValue, stack, pos, pos), first, Machine(ArrayValueEnd, stack, q, q))
    requires Reads(input, q, [COMMA, SPACE])
    requires Leads(input, Machine(ArrayValue, stack, q + 2, q + 2), rest + [Tok(ItemArrayEnd, [])], end)
    ensures Leads(input, Machine(ArrayValue, stack, pos, pos), first + rest + [Tok(ItemArrayEnd, [])], end)
  {
    hide Leads, Reads;
    var close := [Tok(ItemArrayEnd, [])];
    Separates(input, stack, q, rest + close, end);
    Onward(input, Machine(ArrayValue, stack, pos, pos), first, Machine(ArrayValueEnd, stack, q, q), rest + close, end);
    Assoc(first, rest, close);
  }

  lemma OneAndMore(elems: seq<Value>)
    requires |elems| > 1
    ensures RenderElems(elems) == Render(elems[0]) + [COMMA, SPACE] + RenderElems(elems[1..])
    ensures ToksOfAll(elems) == ToksOf(elems[0]) + ToksOfAll(elems[1..])
  {
    hide Render, ToksOf;
  }

  /** Between two elements. */
  lemma Separates(input: seq<byte>, stack: seq<State>, pos: nat, out: seq<Tok>, end: Machine)
    requires Reads(input, pos, [COMMA, SPACE]) && Leads(input, Machine(ArrayValue, stack, pos + 2, pos + 2), out, end)
    ensures Leads(input, Machine(ArrayValueEnd, stack, pos, pos), out, end)
  {
    hide Leads;
    ReadsAt(input, pos, [COMMA, SPACE], 0);
    ReadsAt(input, pos, [COMMA, SPACE], 1);
    var blank := Machine(Skip(ArrayValue), stack, pos + 1, pos + 2);
    var next := Machine(ArrayValue, stack, pos + 1, pos + 1);
    Quietly(input, blank, Machine(ArrayValue, stack, pos + 2, pos + 2), out, end);
    Quietly(input, next, blank, out, end);
    Quietly(input, Machine(ArrayValueEnd, stack, pos, pos), next, out, end);
  }

  lemma {:induction false} ElementLexes(input: seq<byte>, stack: seq<State>, pos: nat, v: Value)
    requires Lexable(v) && stack != [] && Reads(input, pos, Render(v))
    requires pos + |Render(v)| < |input| && Ender(input[pos + |Render(v)|])
    ensures var q := pos + |Render(v)|;
      Leads(input, Machine(ArrayValue, stack, pos, pos), ToksOf(v), Machine(ArrayValueEnd, stack, q, q))
    decreases v, 1
  {
    hide Leads, Render, ToksOf;
    FirstChar(v);
    ReadsAt(input, pos, Render(v), 0);
    var below := stack + [ArrayValueEnd];
    ValueLexes(input, below, pos, v);
    assert below[..|stack|] == stack;
    Quietly(input, Machine(ArrayValue, stack, pos, pos), Machine(Value, below, pos, pos), ToksOf(v), Back(below, pos + |Render(v)|));
  }

  // --- Names, keys and white space -------------------------------------------------------------------

  lemma {:induction false} NameChars(input: seq<byte>, stack: seq<State>, start: nat, pos: nat, end: nat, out: seq<Tok>, m': Machine)
    requires pos <= end <= |input| && Leads(input, Machine(TableName, stack, start, end), out, m')
    requires forall k :: pos <= k < end ==> input[k] != OPEN && input[k] != CLOSE && input[k] != DOT && input[k] != EOF
    ensures Leads(input, Machine(TableName, stack, start, pos), out, m')
    decreases end - pos
  {
    hide Leads;
    if pos < end {
      NameChars(input, stack, start, pos + 1, end, out, m');
      Quietly(input, Machine(TableName, stack, start, pos), Machine(TableName, stack, start, pos + 1), out, m');
    }
  }

  /** One name of a header, up to the character that ends it. */
  lemma NameLexes(input: seq<byte>, stack: seq<State>, pos: nat, name: Name, out: seq<Tok>, m': Machine)
    requires SafeName(name) && Reads(input, pos, name)
    requires Leads(input, Machine(TableName, stack, pos, pos + |name|), out, m')
    ensures Leads(input, Machine(TableNameStart, stack, pos, pos), out, m')
  {
    hide Leads;
    forall k | pos <= k < pos + |name| ensures input[k] != OPEN && input[k] != CLOSE && input[k] != DOT && input[k] != EOF {
      ReadsAt(input, pos, name, k - pos);
      assert name[k - pos] in name;
    }
    NameChars(input, stack, pos, pos + 1, pos + |name|, out, m');
    Quietly(input, Machine(TableNameStart, stack, pos, pos), Machine(TableName, stack, pos, pos + 1), out, m');
  }

  lemma {:induction false} PathLexes(input: seq<byte>, st: State, pos: nat, path: Path)
    requires path != [] && (forall n <- path :: SafeName(n)) && Reads(input, pos, Dotted(path) + [CLOSE])
    ensures var end := pos + |Dotted(path)|;
      Leads(input, Machine(TableNameStart, [st], pos, pos), ToksOfPath(path), Machine(st, [], end, end + 1))
    decreases path
  {
    hide Leads, SafeName, Reads;
    var name, q := path[0], pos + |path[0]|;
    var ended, here := Machine(TableName, [st], pos, q), [Tok(ItemText, name)];
    assert name in path;
    if |path| == 1 {
      ReadsSplit(input, pos, name, [CLOSE]);
      ReadsAt(input, q, [CLOSE], 0);
      TextIs(input, pos, name);
      Takes(input, ended);
      NameLexes(input, [st], pos, name, here, Machine(st, [], q, q + 1));
      assert path[1..] == [];
      Units(here);
    } else {
      var rest := Dotted(path[1..]);
      Assoc(name + [DOT], rest, [CLOSE]);
      ReadsSplit3(input, pos, name, [DOT], rest + [CLOSE]);
      ReadsAt(input, q, [DOT], 0);
      TextIs(input, pos, name);
      PathLexes(input, st, q + 1, path[1..]);
      var end := pos + |Dotted(path)|;
      Takes(input, ended);
      Onward(input, ended, here, Machine(TableNameStart, [st], q + 1, q + 1), ToksOfPath(path[1..]), Machine(st, [], end, end + 1));
      NameLexes(input, [st], pos, name, ToksOfPath(path), Machine(st, [], end, end + 1));
    }
  }

  lemma TextIs(input: seq<byte>, at: nat, text: seq<byte>)
    requires Reads(input, at, text)
    ensures Text(input, at, at + |text|) == text
  {
  }

  lemma {:induction false} KeyChars(input: seq<byte>, stack: seq<State>, start: nat, pos: nat, end: nat, out: seq<Tok>, m': Machine)
    requires pos <= end <= |input| && Leads(input, Machine(Key, stack, start, end), out, m')
    requires forall k :: pos <= k < end ==> input[k] != HASH && input[k] != EQUALS && !IsNL(input[k])
    ensures Leads(input, Machine(Key, stack, start, pos), out, m')
    decreases end - pos
  {
    hide Leads;
    if pos < end {
      KeyChars(input, stack, start, pos + 1, end, out, m');
      Quietly(input, Machine(Key, stack, start, pos), Machine(Key, stack, start, pos + 1), out, m');
    }
  }

  lemma Trims(key: Name)
    requires SafeKey(key)
    ensures TrimSpace(key + [SPACE]) == key
  {
    var s := key + [SPACE];
    assert s[0] == key[0] && s[..|s| - 1] == key;
    assert TrimSpace(key) == key;
  }

  /** What the lexer sees of a key and its equals sign. */
  lemma KeyText(input: seq<byte>, pos: nat, key: Name)
    requires SafeKey(key) && Reads(input, pos, key + [SPACE, EQUALS, SPACE])
    ensures var q := pos + |key| + 1;
      && q + 1 < |input| && input[q] == EQUALS && input[q + 1] == SPACE && input[pos] == key[0]
      && TrimSpace(Text(input, pos, q)) == key
      && forall k :: pos <= k < q ==> input[k] != HASH && input[k] != EQUALS && !IsNL(input[k])
  {
    hide TrimSpace, SafeKey, Reads, Text;
    var q := pos + |key| + 1;
    assert key + [SPACE, EQUALS, SPACE] == (key + [SPACE]) + [EQUALS, SPACE];
    ReadsSplit(input, pos, key + [SPACE], [EQUALS, SPACE]);
    ReadsAt(input, q, [EQUALS, SPACE], 0);
    ReadsAt(input, q, [EQUALS, SPACE], 1);
    TextIs(input, pos, key + [SPACE]);
    Trims(key);
    KeyIsSafe(input, pos, key);
  }

  lemma KeyIsSafe(input: seq<byte>, pos: nat, key: Name)
    requires SafeKey(key) && Reads(input, pos, key + [SPACE])
    ensures pos + |key| < |input| && input[pos] == key[0]
    ensures forall k :: pos <= k <= pos + |key| ==> input[k] != HASH && input[k] != EQUALS && !IsNL(input[k])
  {
    hide Reads;
    ReadsAt(input, pos, key + [SPACE], 0);
    ReadsAt(input, pos, key + [SPACE], |key|);
    forall k | pos <= k <= pos + |key| ensures input[k] != HASH && input[k] != EQUALS && !IsNL(input[k]) {
      var j := k - pos;
      ReadsAt(input, pos, key + [SPACE], j);
      assert j < |key| ==> key[j] in key;
    }
  }

  /** A key and its equals sign, up to where the value begins. */
  lemma KeyLexes(input: seq<byte>, pos: nat, key: Name)
    requires SafeKey(key) && Reads(input, pos, key + [SPACE, EQUALS, SPACE])
    ensures var end := pos + |key| + 3;
      Leads(input, Machine(Top, [], pos, pos), [Tok(ItemKeyStart, []), Tok(ItemText, key)], Machine(Value, [TopEnd], end, end))
  {
    hide Leads, Reads, TrimSpace, Text;
    KeyText(input, pos, key);
    var q := pos + |key| + 1;
    var named, ended := Machine(Key, [TopEnd], pos, q), Machine(KeyEnd, [TopEnd], q, q);
    var value := Machine(Value, [TopEnd], q + 2, q + 2);
    AfterKey(input, q);
    Takes(input, named);
    Onward(input, named, [Tok(ItemText, key)], ended, [], value);
    Units([Tok(ItemText, key)]);
    KeyChars(input, [TopEnd], pos, pos + 1, q, [Tok(ItemText, key)], value);
    KeyBegins(input, pos, key, [Tok(ItemText, key)], value);
    assert [Tok(ItemKeyStart, [])] + [Tok(ItemText, key)] == [Tok(ItemKeyStart, []), Tok(ItemText, key)];
  }

  lemma KeyBegins(input: seq<byte>, pos: nat, key: Name, out: seq<Tok>, end: Machine)
    requires SafeKey(key) && pos < |input| && input[pos] == key[0] && Leads(input, Machine(Key, [TopEnd], pos, pos + 1), out, end)
    ensures Leads(input, Machine(Top, [], pos, pos), [Tok(ItemKeyStart, [])] + out, end)
  {
    hide Leads;
    assert key[0] in key;
    var starting := Machine(KeyStart, [TopEnd], pos, pos);
    Takes(input, starting);
    Onward(input, starting, [Tok(ItemKeyStart, [])], Machine(Key, [TopEnd], pos, pos + 1), out, end);
    Units([TopEnd]);
    Quietly(input, Machine(Top, [], pos, pos), starting, [Tok(ItemKeyStart, [])] + out, end);
  }

  lemma AfterKey(input: seq<byte>, q: nat)
    requires q + 1 < |input| && input[q] == EQUALS && input[q + 1] == SPACE
    ensures Leads(input, Machine(KeyEnd, [TopEnd], q, q), [], Machine(Value, [TopEnd], q + 2, q + 2))
  {
    hide Leads;
    var value := Machine(Value, [TopEnd], q + 2, q + 2);
    Stays(input, value);
    var blank, early := Machine(Skip(Value), [TopEnd], q + 1, q + 2), Machine(Value, [TopEnd], q + 1, q + 1);
    var gap := Machine(Skip(Value), [TopEnd], q, q + 1);
    Quietly(input, blank, value, [], value);
    Quietly(input, early, blank, [], value);
    Quietly(input, gap, early, [], value);
    Quietly(input, Machine(KeyEnd, [TopEnd], q, q), gap, [], value);
  }

  lemma {:induction false} GapLexes(input: seq<byte>, pos: nat, gap: seq<byte>)
    requires Blank(gap) && Reads(input, pos, gap)
    ensures var end := pos + |gap|; Leads(input, Machine(Top, [], pos, pos), [], Machine(Top, [], end, end))
    decreases |gap|
  {
    hide Leads, StepOf, Reads;
    var m, end := Machine(Top, [], pos, pos), pos + |gap|;
    if gap == [] {
      Stays(input, m);
    } else {
      assert gap == [gap[0]] + gap[1..] && gap[0] in gap && forall b <- gap[1..] :: b in gap;
      ReadsAt(input, pos, gap, 0);
      ReadsSplit(input, pos, [gap[0]], gap[1..]);
      GapLexes(input, pos + 1, gap[1..]);
      SkipsBlank(input, pos, [], Machine(Top, [], end, end));
    }
  }

  lemma SkipsBlank(input: seq<byte>, pos: nat, out: seq<Tok>, end: Machine)
    requires pos < |input| && (IsWhitespace(input[pos]) || IsNL(input[pos]))
    requires Leads(input, Machine(Top, [], pos + 1, pos + 1), out, end)
    ensures Leads(input, Machine(Top, [], pos, pos), out, end)
  {
    hide Leads;
    var blank := Machine(Skip(Top), [], pos, pos + 1);
    Quietly(input, blank, Machine(Top, [], pos + 1, pos + 1), out, end);
    Quietly(input, Machine(Top, [], pos, pos), blank, out, end);
  }

  // --- Statements and documents ----------------------------------------------------------------------

  /** The newline after a statement. */
  lemma EndOfLine(input: seq<byte>, pos: nat)
    requires Reads(input, pos, [NL])
    ensures Leads(input, Machine(TopEnd, [], pos, pos), [], Machine(Top, [], pos + 1, pos + 1))
  {
    hide Leads;
    ReadsAt(input, pos, [NL], 0);
    Takes(input, Machine(TopEnd, [], pos, pos));
  }

  /** Three stretches, the last without output. */
  lemma Finally(input: seq<byte>, m: Machine, a: seq<Tok>, m1: Machine, b: seq<Tok>, m2: Machine, end: Machine)
    requires Leads(input, m, a, m1) && Leads(input, m1, b, m2) && Leads(input, m2, [], end)
    ensures Leads(input, m, a + b, end)
  {
    hide Leads;
    Onward(input, m, a, m1, b, m2);
    Onward(input, m, a + b, m2, [], end);
    Units(a + b);
  }

  lemma PairLexes(input: seq<byte>, pos: nat, key: Name, v: Value)
    requires SafeKey(key) && Lexable(v) && Reads(input, pos, RenderStmt(Pair(key, v)))
    ensures var end := pos + |RenderStmt(Pair(key, v))|;
      Leads(input, Machine(Top, [], pos, pos), ToksOfStmt(Pair(key, v)), Machine(Top, [], end, end))
  {
    hide Leads, Render, ToksOf, Reads, StepOf, SafeKey, Lexable;
    var head, text := key + [SPACE, EQUALS, SPACE], Render(v);
    ReadsSplit3(input, pos, head, text, [NL]);
    var p, q := pos + |head|, pos + |head| + |text|;
    ReadsAt(input, q, [NL], 0);
    KeyLexes(input, pos, key);
    LastValue(input, p, v);
    EndOfLine(input, q);
    Finally(input, Machine(Top, [], pos, pos), [Tok(ItemKeyStart, []), Tok(ItemText, key)], Machine(Value, [TopEnd], p, p), ToksOf(v),
            Machine(TopEnd, [], q, q), Machine(Top, [], q + 1, q + 1));
  }

  lemma LastValue(input: seq<byte>, pos: nat, v: Value)
    requires Lexable(v) && Reads(input, pos, Render(v)) && pos + |Render(v)| < |input| && input[pos + |Render(v)|] == NL
    ensures var q := pos + |Render(v)|; Leads(input, Machine(Value, [TopEnd], pos, pos), ToksOf(v), Machine(TopEnd, [], q, q))
  {
    hide Leads, Render, ToksOf, Reads, StepOf, Lexable;
    ValueLexes(input, [TopEnd], pos, v);
    assert [TopEnd][..0] == [];
  }

  lemma HeaderLexes(input: seq<byte>, pos: nat, path: Path)
    requires Writable(Header(path, false)) && Reads(input, pos, RenderStmt(Header(path, false)))
    ensures var end := pos + |RenderStmt(Header(path, false))|;
      Leads(input, Machine(Top, [], pos, pos), ToksOfStmt(Header(path, false)), Machine(Top, [], end, end))
  {
    hide Leads, ToksOfPath, Reads, StepOf, Dotted, SafeName;
    var text := Dotted(path);
    ReadsSplit3(input, pos, [OPEN], text, [CLOSE, NL]);
    var q := pos + 1 + |text|;
    HeaderRest(input, pos + 1, path);
    var end, close := Machine(Top, [], q + 2, q + 2), [Tok(ItemTableEnd, [CLOSE])];
    HeaderBegins(input, pos, ToksOfPath(path) + close, end);
    Assoc([Tok(ItemTableStart, [OPEN])], ToksOfPath(path), close);
  }

  lemma HeaderRest(input: seq<byte>, pos: nat, path: Path)
    requires path != [] && (forall n <- path :: SafeName(n))
    requires Reads(input, pos, Dotted(path)) && Reads(input, pos + |Dotted(path)|, [CLOSE, NL])
    ensures var q := pos + |Dotted(path)|;
      At(input, pos) != OPEN
      && Leads(input, Machine(TableNameStart, [TableEnd], pos, pos), ToksOfPath(path) + [Tok(ItemTableEnd, [CLOSE])], Machine(Top, [], q + 2, q + 2))
  {
    hide Leads, ToksOfPath, Reads, StepOf, Dotted, SafeName;
    var text, q := Dotted(path), pos + |Dotted(path)|;
    assert [CLOSE, NL] == [CLOSE] + [NL];
    Joined(input, pos, text, [CLOSE], [NL]);
    FirstOfPath(path);
    ReadsAt(input, pos, text, 0);
    PathLexes(input, TableEnd, pos, path);
    HeaderEnds(input, q);
    Onward(input, Machine(TableNameStart, [TableEnd], pos, pos), ToksOfPath(path), Machine(TableEnd, [], q, q + 1),
           [Tok(ItemTableEnd, [CLOSE])], Machine(Top, [], q + 2, q + 2));
  }

  lemma HeaderBegins(input: seq<byte>, pos: nat, out: seq<Tok>, end: Machine)
    requires Reads(input, pos, [OPEN]) && At(input, pos + 1) != OPEN
    requires Leads(input, Machine(TableNameStart, [TableEnd], pos + 1, pos + 1), out, end)
    ensures Leads(input, Machine(Top, [], pos, pos), [Tok(ItemTableStart, [OPEN])] + out, end)
  {
    hide Leads;
    ReadsAt(input, pos, [OPEN], 0);
    TextIs(input, pos, [OPEN]);
    Units([TableEnd]);
    var begun := Machine(TableStart, [], pos, pos + 1);
    Takes(input, begun);
    Onward(input, begun, [Tok(ItemTableStart, [OPEN])], Machine(TableNameStart, [TableEnd], pos + 1, pos + 1), out, end);
    Quietly(input, Machine(Top, [], pos, pos), begun, [Tok(ItemTableStart, [OPEN])] + out, end);
  }

  lemma HeaderEnds(input: seq<byte>, pos: nat)
    requires Reads(input, pos, [CLOSE]) && Reads(input, pos + 1, [NL])
    ensures Leads(input, Machine(TableEnd, [], pos, pos + 1), [Tok(ItemTableEnd, [CLOSE])], Machine(Top, [], pos + 2, pos + 2))
  {
    hide Leads;
    TextIs(input, pos, [CLOSE]);
    var ended, close := Machine(TableEnd, [], pos, pos + 1), [Tok(ItemTableEnd, [CLOSE])];
    EndOfLine(input, pos + 1);
    Takes(input, ended);
    Onward(input, ended, close, Machine(TopEnd, [], pos + 1, pos + 1), [], Machine(Top, [], pos + 2, pos + 2));
    Units(close);
  }

  lemma ArrayHeaderLexes(input: seq<byte>, pos: nat, path: Path)
    requires Writable(Header(path, true)) && Reads(input, pos, RenderStmt(Header(path, true)))
    ensures var end := pos + |RenderStmt(Header(path, true))|;
      Leads(input, Machine(Top, [], pos, pos), ToksOfStmt(Header(path, true)), Machine(Top, [], end, end))
  {
    hide Leads, ToksOfPath, Reads, StepOf, Dotted, SafeName;
    var text := Dotted(path);
    ReadsSplit3(input, pos, [OPEN, OPEN], text, [CLOSE, CLOSE, NL]);
    var q := pos + 2 + |text|;
    assert [CLOSE, CLOSE, NL] == [CLOSE] + [CLOSE, NL];
    Joined(input, pos + 2, text, [CLOSE], [CLOSE, NL]);
    PathLexes(input, ArrayTableEnd, pos + 2, path);
    ArrayHeaderEnds(input, q);
    var end, close := Machine(Top, [], q + 3, q + 3), [Tok(ItemArrayTableEnd, [CLOSE, CLOSE])];
    Onward(input, Machine(TableNameStart, [ArrayTableEnd], pos + 2, pos + 2), ToksOfPath(path), Machine(ArrayTableEnd, [], q, q + 1), close, end);
    ArrayHeaderBegins(input, pos, ToksOfPath(path) + close, end);
    Assoc([Tok(ItemArrayTableStart, [OPEN, OPEN])], ToksOfPath(path), close);
  }

  lemma ArrayHeaderBegins(input: seq<byte>, pos: nat, out: seq<Tok>, end: Machine)
    requires Reads(input, pos, [OPEN, OPEN])
    requires Leads(input, Machine(TableNameStart, [ArrayTableEnd], pos + 2, pos + 2), out, end)
    ensures Leads(input, Machine(Top, [], pos, pos), [Tok(ItemArrayTableStart, [OPEN, OPEN])] + out, end)
  {
    hide Leads;
    ReadsAt(input, pos, [OPEN, OPEN], 0);
    ReadsAt(input, pos, [OPEN, OPEN], 1);
    TextIs(input, pos, [OPEN, OPEN]);
    Units([ArrayTableEnd]);
    var begun, open := Machine(TableStart, [], pos, pos + 1), [Tok(ItemArrayTableStart, [OPEN, OPEN])];
    Takes(input, begun);
    Onward(input, begun, open, Machine(TableNameStart, [ArrayTableEnd], pos + 2, pos + 2), out, end);
    Quietly(input, Machine(Top, [], pos, pos), begun, open + out, end);
  }

  lemma ArrayHeaderEnds(input: seq<byte>, pos: nat)
    requires Reads(input, pos, [CLOSE]) && Reads(input, pos + 1, [CLOSE, NL])
    ensures Leads(input, Machine(ArrayTableEnd, [], pos, pos + 1), [Tok(ItemArrayTableEnd, [CLOSE, CLOSE])], Machine(Top, [], pos + 3, pos + 3))
  {
    hide Leads;
    assert [CLOSE, NL] == [CLOSE] + [NL] && [CLOSE] + [CLOSE] == [CLOSE, CLOSE];
    ReadsSplit(input, pos + 1, [CLOSE], [NL]);
    ReadsAt(input, pos + 1, [CLOSE], 0);
    Joins(input, pos, [CLOSE], [CLOSE]);
    TextIs(input, pos, [CLOSE, CLOSE]);
    var ended, close := Machine(ArrayTableEnd, [], pos, pos + 1), [Tok(ItemArrayTableEnd, [CLOSE, CLOSE])];
    EndOfLine(input, pos + 2);
    Takes(input, ended);
    Onward(input, ended, close, Machine(TopEnd, [], pos + 2, pos + 2), [], Machine(Top, [], pos + 3, pos + 3));
    Units(close);
  }

  /** a, then b, with c after them. */
  lemma Joined(input: seq<byte>, at: nat, a: seq<byte>, b: seq<byte>, c: seq<byte>)
    requires Reads(input, at, a) && Reads(input, at + |a|, b + c)
    ensures Reads(input, at, a + b) && Reads(input, at + |a|, b) && Reads(input, at + |a| + |b|, c)
  {
    hide Reads;
    ReadsSplit(input, at + |a|, b, c);
    Joins(input, at, a, b);
  }

  lemma Joins(input: seq<byte>, at: nat, a: seq<byte>, b: seq<byte>)
    requires Reads(input, at, a) && Reads(input, at + |a|, b)
    ensures Reads(input, at, a + b)
  {
    assert input[at..at + |a| + |b|] == input[at..at + |a|] + input[at + |a|..at + |a| + |b|];
  }

  lemma FirstOfPath(path: Path)
    requires path != [] && forall n <- path :: SafeName(n)
    ensures Dotted(path) != [] && Dotted(path)[0] != OPEN
  {
    assert path[0] in path && path[0][0] in path[0];
  }

  lemma StmtLexes(input: seq<byte>, pos: nat, s: Stmt)
    requires Writable(s) && Reads(input, pos, RenderStmt(s))
    ensures var end := pos + |RenderStmt(s)|;
      Leads(input, Machine(Top, [], pos, pos), ToksOfStmt(s), Machine(Top, [], end, end))
  {
    hide Leads, Reads, RenderStmt, ToksOfStmt;
    match s
    case Pair(key, v) => PairLexes(input, pos, key, v);
    case Header(path, false) => HeaderLexes(input, pos, path);
    case Header(path, true) => ArrayHeaderLexes(input, pos, path);
  }

  lemma {:induction false} LinesLex(input: seq<byte>, pos: nat, lines: seq<Line>)
    requires (forall l <- lines :: Blank(l.gap) && Writable(l.stmt)) && Reads(input, pos, RenderDoc(lines))
    ensures var end := pos + |RenderDoc(lines)|;
      Leads(input, Machine(Top, [], pos, pos), ToksOfDoc(lines), Machine(Top, [], end, end))
    decreases |lines|
  {
    hide Leads, Reads, RenderStmt, ToksOfStmt, Writable;
    var m := Machine(Top, [], pos, pos);
    if lines == [] {
      Stays(input, m);
    } else {
      var gap, s, rest := lines[0].gap, lines[0].stmt, lines[1..];
      assert lines[0] in lines;
      ReadsSplit3(input, pos, gap, RenderStmt(s), RenderDoc(rest));
      var p, q, end := pos + |gap|, pos + |gap| + |RenderStmt(s)|, pos + |RenderDoc(lines)|;
      GapLexes(input, pos, gap);
      StmtLexes(input, p, s);
      LinesLex(input, q, rest);
      Onward(input, m, [], Machine(Top, [], p, p), ToksOfStmt(s), Machine(Top, [], q, q));
      Units(ToksOfStmt(s));
      Onward(input, m, ToksOfStmt(s), Machine(Top, [], q, q), ToksOfDoc(rest), Machine(Top, [], end, end));
    }
  }

  const END := Tok(ItemEOF, [])

  /** The text is lexed to the tokens of its statements, no more and no fewer. */
  ghost predicate ComesBack(lines: seq<Line>) {
    exists n: nat ::
      var mv := Run(RenderDoc(lines) + [NL], START, n); mv.to.st.Halt? && mv.out == ToksOfDoc(lines) + [END]
  }

  /** The encoder's text is lexed to exactly its tokens and the end of the input. */
  lemma DocLexes(lines: seq<Line>)
    requires forall l <- lines :: Blank(l.gap) && Writable(l.stmt)
    ensures ComesBack(lines)
  {
    hide Run, RenderDoc, ToksOfDoc, Blank, Writable, StepOf, Leads;
    var text := RenderDoc(lines);
    var input, n := text + [NL], |text|;
    Begins(text, [NL]);
    LinesLex(input, 0, lines);
    LastLine(text);
    Onward(input, START, ToksOfDoc(lines), Machine(Top, [], n, n), [END], Machine(Halt, [], n + 1, n + 1));
    Halts(input, ToksOfDoc(lines) + [END], Machine(Halt, [], n + 1, n + 1));
  }

  lemma Begins(text: seq<byte>, rest: seq<byte>)
    ensures Reads(text + rest, 0, text)
  {
  }

  lemma Halts(input: seq<byte>, out: seq<Tok>, end: Machine)
    requires Leads(input, START, out, end) && end.st.Halt?
    ensures exists n: nat :: Run(input, START, n).to.st.Halt? && Run(input, START, n).out == out
  {
    hide Run;
    var n: nat :| Run(input, START, n) == Move(end, out);
  }

  /** The newline the lexer adds, and the end of the input. */
  lemma LastLine(text: seq<byte>)
    ensures var n := |text|; Leads(text + [NL], Machine(Top, [], n, n), [END], Machine(Halt, [], n + 1, n + 1))
  {
    hide Leads, StepOf;
    EndOfText(text + [NL]);
    SkipsBlank(text + [NL], |text|, [END], Machine(Halt, [], |text| + 1, |text| + 1));
  }

  lemma EndOfText(input: seq<byte>)
    ensures var n := |input|; Leads(input, Machine(Top, [], n, n), [END], Machine(Halt, [], n, n))
  {
    Takes(input, Machine(Top, [], |input|, |input|));
  }

  // --- Keys that do not come back --------------------------------------------------------------------

  lemma FirstToken(input: seq<byte>, n: nat)
    requires input != [] && (input[0] == OPEN || input[0] == EOF)
    ensures Run(input, START, n).out == [] || !Run(input, START, n).out[0].typ.ItemKeyStart?
  {
    if n > 0 {
      var first := StepOf(input, START);
      if input[0] == OPEN && n > 1 {
        var second := StepOf(input, first.to);
        assert Run(input, first.to, n - 1).out[0] == second.out[0];
      }
    }
  }

  /** The key the lexer hands out is never one it could not have read. */
  lemma KeyAsRead(input: seq<byte>, n: nat, key: Name, rest: seq<Tok>)
    requires Terminated(input) && Run(input, START, n).out == [Tok(ItemKeyStart, []), Tok(ItemText, key)] + rest
    ensures KeyLike(key)
  {
    hide Run, Good, KeyLike;
    StartIsGood(input);
    RunKeeps(input, START, AtTop, n);
    var out := Run(input, START, n).out;
    assert out[1..][0] == Tok(ItemText, key) && Sound(KeyName, out[1..]);
  }

  /** The encoder accepts every key that is not empty. What it writes is read back exactly if the key
      neither begins a header, nor contains a character that ends keys, nor has white space around it. */
  lemma KeyComesBack(key: Name, v: Value)
    requires key != [] && Lexable(v)
    ensures ComesBack([Line([], Pair(key, v))]) <==> SafeKey(key)
  {
    hide Run, Render, ToksOf, Lexable;
    var lines := [Line([], Pair(key, v))];
    if SafeKey(key) {
      DocLexes(lines);
    }
    if ComesBack(lines) {
      var input := RenderDoc(lines) + [NL];
      var n: nat :| Run(input, START, n).to.st.Halt? && Run(input, START, n).out == ToksOfDoc(lines) + [END];
      assert lines[1..] == [] && input[0] == key[0];
      var toks := [Tok(ItemKeyStart, []), Tok(ItemText, key)];
      assert ToksOfDoc(lines) + [END] == toks + (ToksOf(v) + [] + [END]);
      KeyAsRead(input, n, key, ToksOf(v) + [] + [END]);
      if key[0] == OPEN || key[0] == EOF { FirstToken(input, n); }
    }
  }
}
