/** lex.go without its fields: the states, what fits them, and one step as a function of the input. */
module LexMachine {
  import opened Bytes
  import opened TokenGrammar
  import opened StringEscapes

  predicate IsHexadecimal(r: byte) { IsDigit(r) || 97 <= r <= 102 || 65 <= r <= 70 }

  /** b t n f r " / \ */
  predicate IsEscapable(r: byte) { r in {98, 116, 110, 102, 114, 34, 47, 92} }

  /** The state functions; Skip(next) is the closure lexSkip returns, Halt is nil. */
  datatype State =
    | Top | TopEnd
    | TableStart | TableEnd | ArrayTableEnd | TableNameStart | TableName
    | KeyStart | Key | KeyEnd
    | Value | ArrayValue | ArrayValueEnd | ArrayEnd
    | Str | StrEscape | StrUnicode
    | MlStr | MlStrEscape | MlStrUnicode
    | RawStr | MlRawStr
    | NumberOrDateStart | NumberOrDate | DateAfterYear | NumberStart | Number | FloatStart | Float
    | True | False
    | CommentStart | Comment
    | Skip(next: State)
    | Halt

  /** States whose token is the value being waited for. */
  predicate InValue(st: State) {
    match st
    case Top => false
    case TopEnd => false
    case TableStart => false
    case TableEnd => false
    case ArrayTableEnd => false
    case TableNameStart => false
    case TableName => false
    case KeyStart => false
    case Key => false
    case KeyEnd => false
    case CommentStart => false
    case Comment => false
    case Skip(_) => false
    case Halt => false
    case _ => !InBrackets(st)
  }

  /** In the middle of a value, or in a comment or white space. */
  predicate InText(st: State) {
    (InValue(st) && !st.Value? && !InQuotes(st)) || st.CommentStart? || st.Comment? || st.Skip?
  }

  predicate InQuotes(st: State) {
    st.Str? || st.StrEscape? || st.StrUnicode? || st.RawStr? || MultiLine(st)
  }

  predicate InHeader(st: State) {
    st.TableStart? || st.TableEnd? || st.ArrayTableEnd? || st.TableNameStart? || st.TableName?
  }

  predicate InBrackets(st: State) { st.ArrayValue? || st.ArrayValueEnd? || st.ArrayEnd? }

  predicate MultiLine(st: State) { st.MlStr? || st.MlStrEscape? || st.MlStrUnicode? || st.MlRawStr? }

  predicate Triple(input: seq<byte>, i: nat) {
    i + 3 <= |input| && input[i] == input[i + 1] == input[i + 2] && (input[i] == QUOTE || input[i] == APOSTROPHE)
  }

  predicate TripleQuote(input: seq<byte>, i: nat) { Triple(input, i) && input[i] == QUOTE }

  predicate HasTriple(input: seq<byte>) { exists i | 0 <= i < |input| :: Triple(input, i) }

  /** The return states below a value: the end of a top-level item, then one array per level. */
  predicate Levels(stack: seq<State>) {
    stack != [] && stack[0] == TopEnd && forall k :: 1 <= k < |stack| ==> stack[k] == ArrayValueEnd
  }

  /** What the parser is waiting for when the lexer is in `st` with this stack. */
  predicate Fits(st: State, stack: seq<State>, m: Mode) {
    if st.Skip? then
      (st.next.Top? || st.next.Value? || st.next.ArrayValue? || st.next.ArrayValueEnd?) && FitsAwake(st.next, stack, m)
    else FitsAwake(st, stack, m)
  }

  predicate FitsAwake(st: State, stack: seq<State>, m: Mode) {
    if st.Halt? then m.Done? || m.Failed?
    else if InValue(st) then Levels(stack) && (m == ValueMode(|stack| - 1) || m.Failed?)
    else if InBrackets(st) then Levels(stack) && (m == InArray(|stack|) || m.Failed?)
    else if st.CommentStart? then CommentAllowed(stack) && (m == CommentBase(stack) || m.Failed?)
    else if st.Comment? then CommentAllowed(stack) && (m == Accept(CommentBase(stack), ItemCommentStart) || m.Failed?)
    else if st.TableNameStart? || st.TableName? then NamePending(stack, m)
    else if st.KeyStart? then stack == [TopEnd] && (m.AtTop? || m.Failed?)
    else if st.Key? then stack == [TopEnd] && (m.KeyName? || m.Failed?)
    else if st.KeyEnd? then stack == [TopEnd] && (m.WantValue? || m.Failed?)
    else if st.TableEnd? then stack == [] && (m == Names(false, true) || m.Failed?)
    else if st.ArrayTableEnd? then stack == [] && (m == Names(true, true) || m.Failed?)
    else stack == [] && (m.AtTop? || m.Failed?)
  }

  predicate NamePending(stack: seq<State>, m: Mode) {
    || (stack == [TableEnd] && (m.Failed? || (m.Names? && !m.ofArray)))
    || (stack == [ArrayTableEnd] && (m.Failed? || (m.Names? && m.ofArray)))
  }

  predicate CommentAllowed(stack: seq<State>) {
    stack == [Top] || (stack != [] && stack[|stack| - 1] in {ArrayValue, ArrayValueEnd} && Levels(stack[..|stack| - 1]))
  }

  function CommentBase(stack: seq<State>): Mode {
    if stack == [Top] then AtTop else InArray(if stack == [] then 0 else |stack| - 1)
  }

  /** How many steps a state can take without consuming input. */
  function Rank(st: State): nat { if st.Skip? then RankAwake(st.next) + 1 else RankAwake(st) }

  function RankAwake(st: State): nat {
    match st
    case Halt => 0
    case KeyEnd => 1
    case NumberOrDateStart => 1
    case TableNameStart => 1
    case KeyStart => 1
    case Value => 2
    case Top => 2
    case Key => 2
    case TableStart => 2
    case ArrayValue => 3
    case TopEnd => 3
    case ArrayValueEnd => 3
    case CommentStart => 5
    case _ => 4
  }

  /** 1 + the number of newlines before position i. */
  function LineAt(input: seq<byte>, i: nat): nat
    requires i <= |input|
  {
    if i == 0 then 1 else LineAt(input, i - 1) + if input[i - 1] == NL then 1 else 0
  }

  predicate EndsNoKey(b: byte) { b != HASH && b != EQUALS && !IsNL(b) }

  /** Facts about the pending text input[start..pos] that some states rely on. */
  predicate Pending(st: State, input: seq<byte>, start: nat, pos: nat)
    requires start <= pos <= |input|
  {
    match st
    case Key => start < pos < |input| && forall k :: start <= k < pos ==> EndsNoKey(input[k])
    case TableNameStart => start == pos
    case TableName => start < pos && forall k :: start <= k < pos ==> EndsNoName(input[k])
    case Str => pos < |input|
    case StrEscape => pos < |input|
    case StrUnicode => pos < |input|
    case RawStr => pos < |input|
    case KeyStart => pos < |input| && !IsNL(input[pos]) && !IsWhitespace(input[pos]) && input[pos] != HASH
    case Value => start == pos
    case ArrayValue => start == pos
    case True => pos == start + 1 && input[start] == LOWER_T
    case False => pos == start + 1 && input[start] == LOWER_F
    case NumberOrDateStart => start == pos
    case NumberOrDate => start < pos && AllDigits(input[start..pos])
    case NumberStart => pos == start + 1 && input[start] == MINUS
    case Number => start < pos && IsInteger(input[start..pos])
    case _ => true
  }

  /** strings.TrimSpace on ASCII. */
  function TrimSpace(s: seq<byte>): seq<byte>
    decreases |s|
  {
    if s == [] then []
    else if IsSpace(s[0]) then TrimSpace(s[1..])
    else if IsSpace(s[|s| - 1]) then TrimSpace(s[..|s| - 1])
    else s
  }

  // --- One step --------------------------------------------------------------------------------------

  datatype Machine = Machine(st: State, stack: seq<State>, start: nat, pos: nat)

  datatype Move = Move(to: Machine, out: seq<Tok>)

  /** The character at i; the end of input reads as NUL. */
  function At(input: seq<byte>, i: nat): byte { if i < |input| then input[i] else EOF }

  function Over(input: seq<byte>, i: nat): nat { if i < |input| then i + 1 else i }

  function Text(input: seq<byte>, a: nat, b: nat): seq<byte> { if a <= b <= |input| then input[a..b] else [] }

  function Broken(m: Machine): Move { Move(m.(st := Halt), [Tok(ItemError, [])]) }

  function Go(m: Machine, st: State, pos: nat): Move { Move(m.(st := st, pos := pos), []) }

  function Call(m: Machine, st: State, pos: nat, back: State): Move {
    Move(Machine(st, m.stack + [back], m.start, pos), [])
  }

  /** Pops the return state. */
  function Return(m: Machine, start: nat, pos: nat, out: seq<Tok>): Move {
    if m.stack == [] then Broken(m)
    else Move(Machine(m.stack[|m.stack| - 1], m.stack[..|m.stack| - 1], start, pos), out)
  }

  /** The text read so far, emitted as a value. */
  function Finish(input: seq<byte>, m: Machine, typ: ItemType, pos: nat): Move {
    Return(m, pos, pos, [Tok(typ, Text(input, m.start, pos))])
  }

  /** A quoted value ends before its `n` closing quotes, which start at m.pos. */
  function Close(input: seq<byte>, m: Machine, typ: ItemType, n: nat): Move {
    Return(m, m.pos + n, m.pos + n, [Tok(typ, Text(input, m.start, m.pos))])
  }

  function OnTop(input: seq<byte>, m: Machine): Move {
    var c, past := At(input, m.pos), Over(input, m.pos);
    if IsWhitespace(c) || IsNL(c) then Go(m, Skip(Top), past)
    else if c == HASH then Call(m, CommentStart, past, Top)
    else if c == OPEN then Go(m, TableStart, past)
    else if c == EOF then
      if past > m.start then Broken(m) else Move(m.(st := Halt), [Tok(ItemEOF, [])])
    else Call(m, KeyStart, m.pos, TopEnd)
  }

  function OnTopEnd(input: seq<byte>, m: Machine): Move {
    var c, past := At(input, m.pos), Over(input, m.pos);
    if c == HASH then Call(m, CommentStart, past, Top)
    else if IsWhitespace(c) then Go(m, TopEnd, past)
    else if IsNL(c) || c == EOF then Move(m.(st := Top, start := past, pos := past), [])
    else Broken(m)
  }

  function OnTableStart(input: seq<byte>, m: Machine): Move {
    var ofArray := At(input, m.pos) == OPEN;
    var pos := if ofArray then m.pos + 1 else m.pos;
    Move(Machine(TableNameStart, m.stack + [if ofArray then ArrayTableEnd else TableEnd], pos, pos),
         [Tok(if ofArray then ItemArrayTableStart else ItemTableStart, Text(input, m.start, pos))])
  }

  function OnTableName(input: seq<byte>, m: Machine): Move {
    var c := At(input, m.pos);
    var name := [Tok(ItemText, Text(input, m.start, m.pos))];
    if c == EOF || c == OPEN then Broken(m)
    else if c == CLOSE then Return(m, m.pos, m.pos + 1, name)
    else if c == DOT then Move(m.(st := TableNameStart, start := m.pos + 1, pos := m.pos + 1), name)
    else Go(m, TableName, m.pos + 1)
  }

  function OnKey(input: seq<byte>, m: Machine): Move {
    var c := At(input, m.pos);
    if c == HASH then Broken(m)
    else if IsNL(c) || c == EQUALS then
      Move(m.(st := KeyEnd, start := m.pos), [Tok(ItemText, TrimSpace(Text(input, m.start, m.pos)))])
    else Go(m, Key, Over(input, m.pos))
  }

  function OnValue(input: seq<byte>, m: Machine): Move {
    var c, past := At(input, m.pos), Over(input, m.pos);
    if IsWhitespace(c) then Go(m, Skip(Value), past)
    else if c == OPEN then Move(m.(st := ArrayValue, start := past, pos := past), [Tok(ItemArray, [])])
    else if c == QUOTE || c == APOSTROPHE then
      var pos := if Triple(input, m.pos) then m.pos + 3 else m.pos + 1;
      var st := if c == QUOTE then (if Triple(input, m.pos) then MlStr else Str)
                else if Triple(input, m.pos) then MlRawStr else RawStr;
      Move(m.(st := st, start := pos, pos := pos), [])
    else if c == LOWER_T then Go(m, True, past)
    else if c == LOWER_F then Go(m, False, past)
    else if c == MINUS then Go(m, NumberStart, past)
    else if IsDigit(c) then Go(m, NumberOrDateStart, m.pos)
    else Broken(m)
  }

  /** Between the values of an array; `again` is the state itself. */
  function OnArray(input: seq<byte>, m: Machine, again: State): Move {
    var c, past := At(input, m.pos), Over(input, m.pos);
    if IsWhitespace(c) || IsNL(c) then Go(m, Skip(again), past)
    else if c == HASH then Call(m, CommentStart, past, again)
    else if c == CLOSE then Go(m, ArrayEnd, past)
    else if again.ArrayValue? then
      (if c == COMMA then Broken(m) else Call(m, Value, m.pos, ArrayValueEnd))
    else if c == COMMA then Move(m.(st := ArrayValue, start := past, pos := past), [])
    else Broken(m)
  }

  function OnString(input: seq<byte>, m: Machine): Move {
    var c := At(input, m.pos);
    if IsNL(c) then Broken(m)
    else if c == BACKSLASH then Go(m, StrEscape, m.pos + 1)
    else if c == QUOTE then Close(input, m, ItemString, 1)
    else Go(m, Str, Over(input, m.pos))
  }

  function OnRawString(input: seq<byte>, m: Machine): Move {
    var c := At(input, m.pos);
    if IsNL(c) then Broken(m)
    else if c == APOSTROPHE then Close(input, m, ItemRawString, 1)
    else Go(m, RawStr, Over(input, m.pos))
  }

  function OnEscape(input: seq<byte>, m: Machine, text: State, unicode: State, pos: nat): Move {
    var c := At(input, pos);
    if IsEscapable(c) then Go(m, text, pos + 1)
    else if c == LOWER_U then Go(m, unicode, pos + 1)
    else Broken(m)
  }

  predicate FourHex(input: seq<byte>, pos: nat) {
    && IsHexadecimal(At(input, pos)) && IsHexadecimal(At(input, pos + 1))
    && IsHexadecimal(At(input, pos + 2)) && IsHexadecimal(At(input, pos + 3))
  }

  function OnMlString(input: seq<byte>, m: Machine): Move {
    if At(input, m.pos) == BACKSLASH then Go(m, MlStrEscape, m.pos + 1)
    else if TripleQuote(input, m.pos) then Close(input, m, ItemMultilineString, 3)
    else Go(m, MlStr, Over(input, m.pos))
  }

  function OnMlRawString(input: seq<byte>, m: Machine): Move {
    if Triple(input, m.pos) && input[m.pos] == APOSTROPHE then Close(input, m, ItemRawMultilineString, 3)
    else Go(m, MlRawStr, Over(input, m.pos))
  }

  function OnMlEscape(input: seq<byte>, m: Machine): Move {
    if IsNL(At(input, m.pos)) then Go(m, MlStr, Over(input, m.pos + 1))
    else OnEscape(input, m, MlStr, MlStrUnicode, m.pos)
  }

  /** Digits of a number; `more` is where a digit leads. */
  function OnDigits(input: seq<byte>, m: Machine, more: State): Move {
    var c := At(input, m.pos);
    if IsDigit(c) then Go(m, more, m.pos + 1)
    else if c == DOT then Go(m, FloatStart, m.pos + 1)
    else Finish(input, m, ItemInteger, m.pos)
  }

  function OneDigit(input: seq<byte>, m: Machine, more: State): Move {
    if IsDigit(At(input, m.pos)) then Go(m, more, m.pos + 1) else Broken(m)
  }

  predicate IsDateTail(input: seq<byte>, pos: nat) {
    forall k :: 0 <= k < |DATE_FORMAT| ==> DateMatches(input, pos, k)
  }

  predicate DateMatches(input: seq<byte>, pos: nat, k: nat)
    requires k < |DATE_FORMAT|
  {
    if DATE_FORMAT[k] == ZERO then IsDigit(At(input, pos + k)) else At(input, pos + k) == DATE_FORMAT[k]
  }

  /** "00-00T00:00:00Z", where '0' stands for any digit. */
  const DATE_FORMAT: seq<byte> := [48, 48, 45, 48, 48, 84, 48, 48, 58, 48, 48, 58, 48, 48, 90]

  /** Where the reading of the rest of a constant stops. */
  function ConstStop(input: seq<byte>, pos: nat, s: seq<byte>, i: nat): nat
    requires i <= |s|
    decreases |s| - i
  {
    if i < |s| && At(input, pos) == s[i] then ConstStop(input, pos + 1, s, i + 1)
    else if i < |s| then Over(input, pos)
    else pos
  }

  /** A constant is emitted whether it matches or not; a mismatch puts an error item before it. */
  function OnConst(input: seq<byte>, m: Machine, s: seq<byte>): Move
    requires s != []
  {
    var stop := ConstStop(input, m.pos, s, 1);
    var text := Text(input, m.start, stop);
    Return(m, stop, stop, (if text == s then [] else [Tok(ItemError, [])]) + [Tok(ItemBool, text)])
  }

  function OnComment(input: seq<byte>, m: Machine): Move {
    var c := At(input, m.pos);
    if IsNL(c) || c == EOF then Return(m, m.pos, m.pos, [Tok(ItemText, Text(input, m.start, m.pos))])
    else Go(m, Comment, m.pos + 1)
  }

  function OnTableEnd(input: seq<byte>, m: Machine): Move {
    Move(m.(st := TopEnd, start := m.pos), [Tok(ItemTableEnd, Text(input, m.start, m.pos))])
  }

  function OnArrayTableEnd(input: seq<byte>, m: Machine): Move {
    var past := Over(input, m.pos);
    if At(input, m.pos) != CLOSE then Broken(m)
    else Move(m.(st := TopEnd, start := past, pos := past), [Tok(ItemArrayTableEnd, Text(input, m.start, past))])
  }

  function OnTableNameStart(input: seq<byte>, m: Machine): Move {
    var c := At(input, m.pos);
    if c == CLOSE || c == EOF || c == DOT then Broken(m) else Go(m, TableName, Over(input, m.pos))
  }

  function OnKeyStart(input: seq<byte>, m: Machine): Move {
    var c := At(input, m.pos);
    if c == EQUALS then Broken(m)
    else if IsWhitespace(c) || IsNL(c) then Go(m, Skip(KeyStart), Over(input, m.pos))
    else Move(m.(st := Key, start := m.pos, pos := Over(input, m.pos)), [Tok(ItemKeyStart, [])])
  }

  function OnKeyEnd(input: seq<byte>, m: Machine): Move {
    if At(input, m.pos) == EQUALS then Go(m, Skip(Value), Over(input, m.pos)) else Broken(m)
  }

  function OnArrayEnd(m: Machine): Move { Return(m, m.pos, m.pos, [Tok(ItemArrayEnd, [])]) }

  function OnUnicode(input: seq<byte>, m: Machine, text: State): Move {
    if FourHex(input, m.pos) then Go(m, text, m.pos + 4) else Broken(m)
  }

  function OnNumberOrDate(input: seq<byte>, m: Machine): Move {
    if At(input, m.pos) != MINUS then OnDigits(input, m, NumberOrDate)
    else if Over(input, m.pos) - m.start != 5 then Broken(m)
    else Go(m, DateAfterYear, Over(input, m.pos))
  }

  function OnDate(input: seq<byte>, m: Machine): Move {
    if IsDateTail(input, m.pos) then Finish(input, m, ItemDatetime, m.pos + |DATE_FORMAT|) else Broken(m)
  }

  function OnFloat(input: seq<byte>, m: Machine): Move {
    if IsDigit(At(input, m.pos)) then Go(m, Float, m.pos + 1) else Finish(input, m, ItemFloat, m.pos)
  }

  function OnCommentStart(m: Machine): Move { Move(m.(st := Comment, start := m.pos), [Tok(ItemCommentStart, [])]) }

  function OnSkip(m: Machine, next: State): Move { Move(m.(st := next, start := m.pos), []) }

  /** One application of the current state function. */
  function StepOf(input: seq<byte>, m: Machine): Move {
    match m.st
    case Top => OnTop(input, m)
    case TopEnd => OnTopEnd(input, m)
    case TableStart => OnTableStart(input, m)
    case TableEnd => OnTableEnd(input, m)
    case ArrayTableEnd => OnArrayTableEnd(input, m)
    case TableNameStart => OnTableNameStart(input, m)
    case TableName => OnTableName(input, m)
    case KeyStart => OnKeyStart(input, m)
    case Key => OnKey(input, m)
    case KeyEnd => OnKeyEnd(input, m)
    case Value => OnValue(input, m)
    case ArrayValue => OnArray(input, m, ArrayValue)
    case ArrayValueEnd => OnArray(input, m, ArrayValueEnd)
    case ArrayEnd => OnArrayEnd(m)
    case Str => OnString(input, m)
    case StrEscape => OnEscape(input, m, Str, StrUnicode, m.pos)
    case StrUnicode => OnUnicode(input, m, Str)
    case MlStr => OnMlString(input, m)
    case MlStrEscape => OnMlEscape(input, m)
    case MlStrUnicode => OnUnicode(input, m, MlStr)
    case RawStr => OnRawString(input, m)
    case MlRawStr => OnMlRawString(input, m)
    case NumberOrDateStart => OneDigit(input, m, NumberOrDate)
    case NumberOrDate => OnNumberOrDate(input, m)
    case DateAfterYear => OnDate(input, m)
    case NumberStart => OneDigit(input, m, Number)
    case Number => OnDigits(input, m, Number)
    case FloatStart => OneDigit(input, m, Float)
    case Float => OnFloat(input, m)
    case True => OnConst(input, m, TRUE)
    case False => OnConst(input, m, FALSE)
    case CommentStart => OnCommentStart(m)
    case Comment => OnComment(input, m)
    case Skip(next) => OnSkip(m, next)
    case Halt => Move(m, [])
  }

  // --- What every step keeps -------------------------------------------------------------------------

  /** The lexer always reads a text that ends in a newline. */
  predicate Terminated(input: seq<byte>) { input != [] && input[|input| - 1] == NL }

  predicate Good(input: seq<byte>, m: Machine, mode: Mode) {
    && m.start <= m.pos <= |input|
    && Fits(m.st, m.stack, mode) && Pending(m.st, input, m.start, m.pos)
    && (MultiLine(m.st) ==> HasTriple(input))
  }

  /** A multi-line string at the end of input: the same state again, nothing done. */
  predicate Spins(input: seq<byte>, m: Machine) {
    (m.st.MlStr? || m.st.MlRawStr?) && m.pos == |input|
  }

  /** The machine fits the items it has emitted, they are sound, and it has moved: input is consumed, or
      the rank drops, or it spins. */
  predicate Keeps(input: seq<byte>, m: Machine, mode: Mode, mv: Move) {
    && Good(input, mv.to, AcceptToks(mode, mv.out)) && |mv.out| <= 2 && Sound(mode, mv.out)
    && m.pos <= mv.to.pos && (m.pos < mv.to.pos || Rank(mv.to.st) < Rank(m.st) || Spins(input, m))
    && (Spins(input, m) ==> mv == Move(m, [])) && (mv.to.st.Halt? ==> mv.out != [])
  }

  function ModeAfter(mode: Mode, out: seq<Tok>): Mode { if out == [] then mode else Accept(mode, out[0].typ) }

  predicate Advances(input: seq<byte>, m: Machine, mv: Move) {
    m.pos <= mv.to.pos && (m.pos < mv.to.pos || Rank(mv.to.st) < Rank(m.st))
  }

  /** A step that emits one token or none. */
  lemma StepSettles(input: seq<byte>, m: Machine, mode: Mode, mv: Move)
    requires Advances(input, m, mv) && !Spins(input, m) && |mv.out| <= 1 && (mv.to.st.Halt? ==> mv.out != [])
    requires Good(input, mv.to, ModeAfter(mode, mv.out))
    requires mv.out != [] ==> ModeAfter(mode, mv.out).Failed? || Proper(mode, mv.out[0])
    ensures Keeps(input, m, mode, mv)
  {
    hide Good, Proper, Accept, Rank;
    if mv.out != [] {
      assert mv.out[1..] == [];
      assert AcceptToks(mode, mv.out) == Accept(mode, mv.out[0].typ);
      assert Sound(mode, mv.out);
    } else {
      assert AcceptToks(mode, mv.out) == mode;
      assert Sound(mode, mv.out);
    }
  }

  lemma TopKeeps(input: seq<byte>, m: Machine, mode: Mode)
    requires Terminated(input) && Good(input, m, mode) && m.st.Top?
    ensures Keeps(input, m, mode, OnTop(input, m))
  {
    hide Keeps;
    StepSettles(input, m, mode, OnTop(input, m));
  }

  lemma TopEndKeeps(input: seq<byte>, m: Machine, mode: Mode)
    requires Terminated(input) && Good(input, m, mode) && m.st.TopEnd?
    ensures Keeps(input, m, mode, OnTopEnd(input, m))
  {
    hide Keeps;
    StepSettles(input, m, mode, OnTopEnd(input, m));
  }

  lemma TableStartKeeps(input: seq<byte>, m: Machine, mode: Mode)
    requires Terminated(input) && Good(input, m, mode) && m.st.TableStart?
    ensures Keeps(input, m, mode, OnTableStart(input, m))
  {
    hide Keeps;
    StepSettles(input, m, mode, OnTableStart(input, m));
  }

  lemma TableNameKeeps(input: seq<byte>, m: Machine, mode: Mode)
    requires Terminated(input) && Good(input, m, mode) && m.st.TableName?
    ensures Keeps(input, m, mode, OnTableName(input, m))
  {
    hide Keeps;
    StepSettles(input, m, mode, OnTableName(input, m));
  }

  lemma KeyKeeps(input: seq<byte>, m: Machine, mode: Mode)
    requires Terminated(input) && Good(input, m, mode) && m.st.Key?
    ensures Keeps(input, m, mode, OnKey(input, m))
  {
    hide Keeps, TrimSpace;
    KeyIsTrimmed(input, m.start, m.pos);
    StepSettles(input, m, mode, OnKey(input, m));
  }

  lemma KeyIsTrimmed(input: seq<byte>, start: nat, pos: nat)
    requires start <= pos <= |input| && forall k :: start <= k < pos ==> EndsNoKey(input[k])
    ensures KeyLike(TrimSpace(input[start..pos]))
  {
    TrimKeeps(input[start..pos]);
  }

  lemma {:induction false} TrimKeeps(s: seq<byte>)
    ensures var t := TrimSpace(s);
      (t != [] ==> !IsSpace(t[0]) && !IsSpace(t[|t| - 1])) && forall b <- t :: b in s
    decreases |s|
  {
    if s != [] {
      if IsSpace(s[0]) { TrimKeeps(s[1..]); } else if IsSpace(s[|s| - 1]) { TrimKeeps(s[..|s| - 1]); }
    }
  }

  lemma ValueKeeps(input: seq<byte>, m: Machine, mode: Mode)
    requires Terminated(input) && Good(input, m, mode) && m.st.Value?
    ensures Keeps(input, m, mode, OnValue(input, m))
  {
    hide Keeps, Levels, HasTriple;
    if Triple(input, m.pos) { TripleAt(input, m.pos); }
    StepSettles(input, m, mode, OnValue(input, m));
  }

  lemma ArrayValueKeeps(input: seq<byte>, m: Machine, mode: Mode)
    requires Terminated(input) && Good(input, m, mode) && m.st.ArrayValue?
    ensures Keeps(input, m, mode, OnArray(input, m, ArrayValue))
  {
    hide Keeps, Levels, CommentAllowed;
    Nested(m.stack, ArrayValue);
    Nested(m.stack, ArrayValueEnd);
    StepSettles(input, m, mode, OnArray(input, m, ArrayValue));
  }

  lemma ArrayValueEndKeeps(input: seq<byte>, m: Machine, mode: Mode)
    requires Terminated(input) && Good(input, m, mode) && m.st.ArrayValueEnd?
    ensures Keeps(input, m, mode, OnArray(input, m, ArrayValueEnd))
  {
    hide Keeps, Levels, CommentAllowed;
    Nested(m.stack, ArrayValueEnd);
    StepSettles(input, m, mode, OnArray(input, m, ArrayValueEnd));
  }

  /** Returning from a value: to the end of the top-level item, or of an array element. */
  lemma ReturnKeeps(input: seq<byte>, m: Machine, mode: Mode, pos: nat, t: Tok)
    requires Levels(m.stack) && (mode == ValueMode(|m.stack| - 1) || mode.Failed?) && m.start <= m.pos <= pos <= |input|
    requires IsPrimitive(t.typ) && (mode.Failed? || WellFormed(t)) && Rank(m.st) == 4 && !Spins(input, m)
    ensures Keeps(input, m, mode, Return(m, pos, pos, [t]))
  {
    hide Keeps;
    StepSettles(input, m, mode, Return(m, pos, pos, [t]));
  }

  lemma ArrayEndKeeps(input: seq<byte>, m: Machine, mode: Mode)
    requires Good(input, m, mode) && m.st.ArrayEnd?
    ensures Keeps(input, m, mode, OnArrayEnd(m))
  {
    hide Keeps;
    StepSettles(input, m, mode, OnArrayEnd(m));
  }

  lemma StringKeeps(input: seq<byte>, m: Machine, mode: Mode)
    requires Terminated(input) && Good(input, m, mode) && m.st.Str?
    ensures Keeps(input, m, mode, OnString(input, m))
  {
    hide Keeps, Levels, HasTriple;
    if input[m.pos] == QUOTE {
      ReturnKeeps(input, m, mode, m.pos + 1, Tok(ItemString, Text(input, m.start, m.pos)));
    } else {
      StepSettles(input, m, mode, OnString(input, m));
    }
  }

  lemma RawStringKeeps(input: seq<byte>, m: Machine, mode: Mode)
    requires Terminated(input) && Good(input, m, mode) && m.st.RawStr?
    ensures Keeps(input, m, mode, OnRawString(input, m))
  {
    hide Keeps, Levels, HasTriple;
    if input[m.pos] == APOSTROPHE {
      ReturnKeeps(input, m, mode, m.pos + 1, Tok(ItemRawString, Text(input, m.start, m.pos)));
    } else {
      StepSettles(input, m, mode, OnRawString(input, m));
    }
  }

  lemma EscapeKeeps(input: seq<byte>, m: Machine, mode: Mode)
    requires Terminated(input) && Good(input, m, mode) && m.st.StrEscape?
    ensures Keeps(input, m, mode, OnEscape(input, m, Str, StrUnicode, m.pos))
  {
    hide Keeps, Levels, HasTriple;
    StepSettles(input, m, mode, OnEscape(input, m, Str, StrUnicode, m.pos));
  }

  lemma MlEscapeKeeps(input: seq<byte>, m: Machine, mode: Mode)
    requires Good(input, m, mode) && m.st.MlStrEscape?
    ensures Keeps(input, m, mode, OnMlEscape(input, m))
  {
    hide Keeps, Levels, HasTriple;
    StepSettles(input, m, mode, OnMlEscape(input, m));
  }

  lemma UnicodeKeeps(input: seq<byte>, m: Machine, mode: Mode, text: State)
    requires Terminated(input) && Good(input, m, mode)
    requires (m.st.StrUnicode? && text.Str?) || (m.st.MlStrUnicode? && text.MlStr?)
    ensures Keeps(input, m, mode, OnUnicode(input, m, text))
  {
    hide Keeps, Levels, HasTriple;
    StepSettles(input, m, mode, OnUnicode(input, m, text));
  }

  lemma MlStringKeeps(input: seq<byte>, m: Machine, mode: Mode)
    requires Good(input, m, mode) && m.st.MlStr?
    ensures Keeps(input, m, mode, OnMlString(input, m))
  {
    hide Keeps, Levels, HasTriple;
    if Spins(input, m) {
      SpinKeeps(input, m, mode);
    } else if TripleQuote(input, m.pos) {
      ReturnKeeps(input, m, mode, m.pos + 3, Tok(ItemMultilineString, Text(input, m.start, m.pos)));
    } else {
      StepSettles(input, m, mode, OnMlString(input, m));
    }
  }

  lemma MlRawStringKeeps(input: seq<byte>, m: Machine, mode: Mode)
    requires Good(input, m, mode) && m.st.MlRawStr?
    ensures Keeps(input, m, mode, OnMlRawString(input, m))
  {
    hide Keeps, Levels, HasTriple;
    if Spins(input, m) {
      SpinKeeps(input, m, mode);
    } else if Triple(input, m.pos) && input[m.pos] == APOSTROPHE {
      ReturnKeeps(input, m, mode, m.pos + 3, Tok(ItemRawMultilineString, Text(input, m.start, m.pos)));
    } else {
      StepSettles(input, m, mode, OnMlRawString(input, m));
    }
  }

  lemma SpinKeeps(input: seq<byte>, m: Machine, mode: Mode)
    requires Good(input, m, mode) && Spins(input, m)
    ensures Keeps(input, m, mode, Move(m, []))
  {
    hide Good;
  }

  /** The states of a number that must see a digit next. */
  predicate WantsDigit(st: State) { st.NumberOrDateStart? || st.NumberStart? || st.FloatStart? }

  lemma FirstDigitKeeps(input: seq<byte>, m: Machine, mode: Mode, more: State)
    requires Good(input, m, mode) && WantsDigit(m.st)
    requires more == if m.st.NumberOrDateStart? then NumberOrDate else if m.st.NumberStart? then Number else Float
    ensures Keeps(input, m, mode, OneDigit(input, m, more))
  {
    hide Keeps, Levels, IsInteger, AllDigits, HasTriple, Proper;
    OneDigitText(input, m.start, m.pos);
    DigitsGrow(input, m.start, m.pos);
    StepSettles(input, m, mode, OneDigit(input, m, more));
  }

  lemma OneDigitText(input: seq<byte>, start: nat, pos: nat)
    requires start <= pos <= |input|
    ensures start == pos ==> AllDigits(input[start..pos])
  {
  }

  lemma DigitsKeep(input: seq<byte>, m: Machine, mode: Mode)
    requires Good(input, m, mode) && (m.st.NumberOrDate? || m.st.Number?)
    ensures Keeps(input, m, mode, OnDigits(input, m, m.st))
  {
    hide Keeps, Levels, IsInteger, AllDigits;
    DigitsGrow(input, m.start, m.pos);
    var c := At(input, m.pos);
    if !IsDigit(c) && c != DOT {
      ReturnKeeps(input, m, mode, m.pos, Tok(ItemInteger, Text(input, m.start, m.pos)));
    } else {
      StepSettles(input, m, mode, OnDigits(input, m, m.st));
    }
  }

  lemma NumberOrDateKeeps(input: seq<byte>, m: Machine, mode: Mode)
    requires Good(input, m, mode) && m.st.NumberOrDate?
    ensures Keeps(input, m, mode, OnNumberOrDate(input, m))
  {
    hide Keeps, Levels, IsInteger, AllDigits, OnDigits;
    if At(input, m.pos) == MINUS {
      StepSettles(input, m, mode, OnNumberOrDate(input, m));
    } else {
      DigitsKeep(input, m, mode);
    }
  }

  lemma FloatKeeps(input: seq<byte>, m: Machine, mode: Mode)
    requires Good(input, m, mode) && m.st.Float?
    ensures Keeps(input, m, mode, OnFloat(input, m))
  {
    hide Keeps, Levels;
    if IsDigit(At(input, m.pos)) {
      StepSettles(input, m, mode, OnFloat(input, m));
    } else {
      ReturnKeeps(input, m, mode, m.pos, Tok(ItemFloat, Text(input, m.start, m.pos)));
    }
  }

  lemma DateKeeps(input: seq<byte>, m: Machine, mode: Mode)
    requires Good(input, m, mode) && m.st.DateAfterYear?
    ensures Keeps(input, m, mode, OnDate(input, m))
  {
    hide Keeps, Levels;
    if IsDateTail(input, m.pos) {
      DateFits(input, m.pos);
      var end := m.pos + |DATE_FORMAT|;
      ReturnKeeps(input, m, mode, end, Tok(ItemDatetime, Text(input, m.start, end)));
    } else {
      StepSettles(input, m, mode, Broken(m));
    }
  }

  lemma DateFits(input: seq<byte>, pos: nat)
    requires pos <= |input| && IsDateTail(input, pos)
    ensures pos + |DATE_FORMAT| <= |input|
  {
    assert DateMatches(input, pos, 14);
  }

  /** A further digit. */
  lemma DigitsGrow(input: seq<byte>, start: nat, pos: nat)
    requires start <= pos <= |input|
    ensures start < pos && AllDigits(input[start..pos]) ==> IsInteger(input[start..pos])
    ensures IsDigit(At(input, pos)) ==>
      && pos < |input|
      && (AllDigits(input[start..pos]) ==> AllDigits(input[start..pos + 1]))
      && (start < pos && (IsInteger(input[start..pos]) || (pos == start + 1 && input[start] == MINUS)) ==>
            IsInteger(input[start..pos + 1]))
  {
    if IsDigit(At(input, pos)) {
      var s, t := input[start..pos], input[start..pos + 1];
      assert t == s + [input[pos]];
      if start < pos && s[0] == MINUS { assert t[1..] == s[1..] + [input[pos]]; }
    }
  }

  lemma {:induction false} ConstStops(input: seq<byte>, pos: nat, s: seq<byte>, i: nat)
    requires pos <= |input| && i <= |s| && EOF !in s
    ensures pos <= ConstStop(input, pos, s, i) <= |input|
    decreases |s| - i
  {
    if i < |s| && At(input, pos) == s[i] { ConstStops(input, pos + 1, s, i + 1); }
  }

  lemma ConstKeeps(input: seq<byte>, m: Machine, mode: Mode, s: seq<byte>)
    requires Good(input, m, mode) && (m.st.True? || m.st.False?) && (s == TRUE || s == FALSE)
    ensures Keeps(input, m, mode, OnConst(input, m, s))
  {
    hide Keeps, Levels, ConstStop;
    ConstStops(input, m.pos, s, 1);
    var stop := ConstStop(input, m.pos, s, 1);
    var t := Tok(ItemBool, Text(input, m.start, stop));
    if t.val == s {
      Units([t]);
      ReturnKeeps(input, m, mode, stop, t);
    } else {
      ReturnKeeps(input, m, Failed, stop, t);
      AfterError(input, m, mode, stop, t);
    }
  }

  /** The item that follows an error is never looked at. */
  lemma AfterError(input: seq<byte>, m: Machine, mode: Mode, stop: nat, t: Tok)
    requires Keeps(input, m, Failed, Return(m, stop, stop, [t])) && !mode.Done? && !mode.Bad? && m.stack != [] && !Spins(input, m)
    ensures Keeps(input, m, mode, Return(m, stop, stop, [Tok(ItemError, [])] + [t]))
  {
    hide Good, Proper, Rank;
    assert ([Tok(ItemError, [])] + [t])[1..] == [t];
  }

  lemma CommentKeeps(input: seq<byte>, m: Machine, mode: Mode)
    requires Terminated(input) && Good(input, m, mode) && m.st.Comment?
    ensures Keeps(input, m, mode, OnComment(input, m))
  {
    hide Keeps, Levels;
    if m.stack[|m.stack| - 1].Top? { assert m.stack == [Top]; }
    StepSettles(input, m, mode, OnComment(input, m));
  }

  lemma TableEndKeeps(input: seq<byte>, m: Machine, mode: Mode)
    requires Good(input, m, mode) && m.st.TableEnd?
    ensures Keeps(input, m, mode, OnTableEnd(input, m))
  {
    hide Keeps;
    StepSettles(input, m, mode, OnTableEnd(input, m));
  }

  lemma ArrayTableEndKeeps(input: seq<byte>, m: Machine, mode: Mode)
    requires Good(input, m, mode) && m.st.ArrayTableEnd?
    ensures Keeps(input, m, mode, OnArrayTableEnd(input, m))
  {
    hide Keeps;
    StepSettles(input, m, mode, OnArrayTableEnd(input, m));
  }

  lemma TableNameStartKeeps(input: seq<byte>, m: Machine, mode: Mode)
    requires Good(input, m, mode) && m.st.TableNameStart?
    ensures Keeps(input, m, mode, OnTableNameStart(input, m))
  {
    hide Keeps;
    StepSettles(input, m, mode, OnTableNameStart(input, m));
  }

  lemma KeyStartKeeps(input: seq<byte>, m: Machine, mode: Mode)
    requires Terminated(input) && Good(input, m, mode) && m.st.KeyStart?
    ensures Keeps(input, m, mode, OnKeyStart(input, m))
  {
    hide Keeps;
    StepSettles(input, m, mode, OnKeyStart(input, m));
  }

  lemma KeyEndKeeps(input: seq<byte>, m: Machine, mode: Mode)
    requires Good(input, m, mode) && m.st.KeyEnd?
    ensures Keeps(input, m, mode, OnKeyEnd(input, m))
  {
    hide Keeps, HasTriple, Proper, AllDigits, IsInteger;
    FirstLevel(mode);
    StepSettles(input, m, mode, OnKeyEnd(input, m));
  }

  lemma CommentStartKeeps(input: seq<byte>, m: Machine, mode: Mode)
    requires Good(input, m, mode) && m.st.CommentStart?
    ensures Keeps(input, m, mode, OnCommentStart(m))
  {
    hide Keeps;
    StepSettles(input, m, mode, OnCommentStart(m));
  }

  lemma SkipKeeps(input: seq<byte>, m: Machine, mode: Mode)
    requires Good(input, m, mode) && m.st.Skip?
    ensures Keeps(input, m, mode, OnSkip(m, m.st.next))
  {
    hide Keeps;
    StepSettles(input, m, mode, OnSkip(m, m.st.next));
  }

  /** Every step of the lexer, whatever it reads. */
  lemma StepKeeps(input: seq<byte>, m: Machine, mode: Mode)
    requires Terminated(input) && Good(input, m, mode) && !m.st.Halt?
    ensures Keeps(input, m, mode, StepOf(input, m))
  {
    hide Good, Keeps;
    match m.st
    case Top => TopKeeps(input, m, mode);
    case TopEnd => TopEndKeeps(input, m, mode);
    case TableStart => TableStartKeeps(input, m, mode);
    case TableEnd => TableEndKeeps(input, m, mode);
    case ArrayTableEnd => ArrayTableEndKeeps(input, m, mode);
    case TableNameStart => TableNameStartKeeps(input, m, mode);
    case TableName => TableNameKeeps(input, m, mode);
    case KeyStart => KeyStartKeeps(input, m, mode);
    case Key => KeyKeeps(input, m, mode);
    case KeyEnd => KeyEndKeeps(input, m, mode);
    case Value => ValueKeeps(input, m, mode);
    case ArrayValue => ArrayValueKeeps(input, m, mode);
    case ArrayValueEnd => ArrayValueEndKeeps(input, m, mode);
    case ArrayEnd => ArrayEndKeeps(input, m, mode);
    case Str => StringKeeps(input, m, mode);
    case StrEscape => EscapeKeeps(input, m, mode);
    case StrUnicode => UnicodeKeeps(input, m, mode, Str);
    case MlStr => MlStringKeeps(input, m, mode);
    case MlStrEscape => MlEscapeKeeps(input, m, mode);
    case MlStrUnicode => UnicodeKeeps(input, m, mode, MlStr);
    case RawStr => RawStringKeeps(input, m, mode);
    case MlRawStr => MlRawStringKeeps(input, m, mode);
    case NumberOrDateStart => FirstDigitKeeps(input, m, mode, NumberOrDate);
    case NumberOrDate => NumberOrDateKeeps(input, m, mode);
    case DateAfterYear => DateKeeps(input, m, mode);
    case NumberStart => FirstDigitKeeps(input, m, mode, Number);
    case Number => DigitsKeep(input, m, mode);
    case FloatStart => FirstDigitKeeps(input, m, mode, Float);
    case Float => FloatKeeps(input, m, mode);
    case True => ConstKeeps(input, m, mode, TRUE);
    case False => ConstKeeps(input, m, mode, FALSE);
    case CommentStart => CommentStartKeeps(input, m, mode);
    case Comment => CommentKeeps(input, m, mode);
    case Skip(_) => SkipKeeps(input, m, mode);
  }

  lemma NeverBad(st: State, stack: seq<State>, m: Mode)
    requires Fits(st, stack, m)
    ensures m != Bad
  {
  }

  lemma FirstLevel(m: Mode)
    ensures Fits(Skip(Value), [TopEnd], m) <==> m.WantValue? || m.Failed?
  {
    assert Levels([TopEnd]);
    assert Fits(Value, [TopEnd], m) <==> m.WantValue? || m.Failed?;
  }

  lemma TripleAt(input: seq<byte>, i: nat)
    requires Triple(input, i)
    ensures HasTriple(input)
  {
  }

  lemma Nested(stack: seq<State>, top: State)
    requires Levels(stack)
    ensures top == ArrayValueEnd ==> Levels(stack + [top])
    ensures top == ArrayValue || top == ArrayValueEnd ==>
      CommentAllowed(stack + [top]) && |stack + [top]| == |stack| + 1 && stack + [top] != [Top]
  {
    assert (stack + [top])[..|stack|] == stack;
  }

  // --- Runs ------------------------------------------------------------------------------------------

  const START := Machine(Top, [], 0, 0)

  /** The machine after n steps, and what it has emitted. */
  function Run(input: seq<byte>, m: Machine, n: nat): Move
    decreases n
  {
    if n == 0 then Move(m, [])
    else
      var first := StepOf(input, m);
      var rest := Run(input, first.to, n - 1);
      Move(rest.to, first.out + rest.out)
  }

  lemma {:induction false} RunTwice(input: seq<byte>, m: Machine, a: nat, b: nat)
    ensures var first := Run(input, m, a);
      var rest := Run(input, first.to, b);
      Run(input, m, a + b) == Move(rest.to, first.out + rest.out)
    decreases a
  {
    hide StepOf;
    if a == 0 {
      Units(Run(input, m, b).out);
    } else {
      var step := StepOf(input, m);
      RunTwice(input, step.to, a - 1, b);
      var first := Run(input, step.to, a - 1);
      Assoc(step.out, first.out, Run(input, first.to, b).out);
    }
  }

  lemma {:induction false} HaltedStays(input: seq<byte>, m: Machine, n: nat)
    requires m.st == Halt
    ensures Run(input, m, n) == Move(m, [])
  {
    if n > 0 { HaltedStays(input, m, n - 1); }
  }

  /** In every state of every run the machine fits what it has emitted, so the parser is never handed an
      item it does not expect, and what it is handed before an error is sound. */
  lemma {:induction false} RunKeeps(input: seq<byte>, m: Machine, mode: Mode, n: nat)
    requires Terminated(input) && Good(input, m, mode)
    ensures var mv := Run(input, m, n);
      Good(input, mv.to, AcceptToks(mode, mv.out)) && AcceptToks(mode, mv.out) != Bad && Sound(mode, mv.out)
    decreases n
  {
    hide Good, Fits, StepOf;
    if n == 0 || m.st.Halt? {
      if m.st.Halt? { HaltedStays(input, m, n); }
      GoodIsNotBad(input, m, mode);
    } else {
      var mv := StepOf(input, m);
      StepKeeps(input, m, mode);
      RunKeeps(input, mv.to, AcceptToks(mode, mv.out), n - 1);
      AcceptConcat(mode, mv.out, Run(input, mv.to, n - 1).out);
    }
  }

  lemma GoodMeans(input: seq<byte>, m: Machine, mode: Mode)
    requires Good(input, m, mode)
    ensures m.pos <= |input| && (m.st.Halt? ==> mode.Done? || mode.Failed?) && (Spins(input, m) ==> HasTriple(input))
  {
  }

  lemma GoodIsNotBad(input: seq<byte>, m: Machine, mode: Mode)
    requires Good(input, m, mode)
    ensures mode != Bad
  {
    NeverBad(m.st, m.stack, mode);
  }

  lemma {:induction false} SpinningStays(input: seq<byte>, m: Machine, n: nat)
    requires Spins(input, m)
    ensures Run(input, m, n) == Move(m, [])
    decreases n
  {
    if n > 0 {
      assert StepOf(input, m) == Move(m, []);
      SpinningStays(input, m, n - 1);
    }
  }

  /** Sooner or later a run comes to an end, with the end of the text or with an error, or it spins. */
  lemma {:induction false} RunSettles(input: seq<byte>, m: Machine, mode: Mode) returns (n: nat)
    requires Terminated(input) && Good(input, m, mode)
    ensures var mv := Run(input, m, n);
      if mv.to.st.Halt? then AcceptToks(mode, mv.out).Done? || AcceptToks(mode, mv.out).Failed? else Spins(input, mv.to)
    decreases |input| - m.pos, Rank(m.st)
  {
    hide StepOf, Rank, Good, Fits;
    GoodMeans(input, m, mode);
    if m.st.Halt? || Spins(input, m) {
      n := 0;
    } else {
      var mv := StepOf(input, m);
      StepKeeps(input, m, mode);
      n := RunSettles(input, mv.to, AcceptToks(mode, mv.out));
      AcceptConcat(mode, mv.out, Run(input, mv.to, n).out);
      n := n + 1;
    }
  }

  /** It can only spin behind three equal quotes in a row: without them the run comes to an end. */
  lemma RunEnds(input: seq<byte>, m: Machine, mode: Mode) returns (n: nat)
    requires Terminated(input) && Good(input, m, mode) && !HasTriple(input)
    ensures var mv := Run(input, m, n);
      mv.to.st.Halt? && (AcceptToks(mode, mv.out).Done? || AcceptToks(mode, mv.out).Failed?)
  {
    hide Run, Good, HasTriple;
    n := RunSettles(input, m, mode);
    RunKeeps(input, m, mode, n);
    GoodMeans(input, Run(input, m, n).to, AcceptToks(mode, Run(input, m, n).out));
  }

  /** Every lexer starts well. */
  lemma StartIsGood(input: seq<byte>)
    ensures Good(input, START, AtTop)
  {
  }
}
