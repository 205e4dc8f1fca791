/** lex.go: the TOML lexer, an object that moves through its input and fills a channel of items. */
module TomlLexer {
  import opened Bytes
  import opened TokenGrammar
  import opened StringEscapes
  import opened LexMachine

  class Lexer {
    const input: seq<byte>
    var start: nat
    var pos: nat
    var width: nat
    var line: nat
    var state: State
    /** The channel of pending items. */
    var items: seq<Item>
    var stack: seq<State>
    /** Every item ever emitted. */
    ghost var log: seq<Item>

    /** How many steps have been taken. */
    ghost var steps: nat

    ghost predicate Base()
      reads `start, `pos, `line
    {
      && Terminated(input)
      && start <= pos <= |input|
      && line == LineAt(input, pos)
    }

    ghost function Mode(): Mode reads `log { AcceptAll(AtTop, log) }

    ghost function Now(st: State): Machine
      reads `stack, `start, `pos
    {
      Machine(st, stack, start, pos)
    }

    ghost predicate In(st: State)
      reads `start, `pos, `line, `log, `stack
    {
      Base() && Good(input, Now(st), Mode())
    }

    /** The lexer is where the machine is after as many steps, and has emitted the same tokens. */
    ghost predicate Traced()
      reads `start, `pos, `state, `stack, `log, `steps
    {
      var mv := Run(input, START, steps);
      state == mv.to.st && (!state.Halt? ==> Now(state) == mv.to) && Toks(log) == mv.out
    }

    ghost predicate Valid()
      reads `start, `pos, `line, `state, `stack, `log, `steps
    {
      In(state) && Trusted(log) && Traced()
    }

    /** lex(input): a newline is appended. */
    constructor (text: seq<byte>)
      ensures Started(text) && log == [] && steps == 0
    {
      input := text + [NL];
      start, pos, width, line := 0, 0, 0, 1;
      state, items, stack, log, steps := Top, [], [], [], 0;
    }

    predicate Started(text: seq<byte>)
      reads `start, `pos, `line, `state, `items, `stack
    {
      && input == text + [NL] && start == pos == 0 && line == 1
      && state == Top && items == [] && stack == []
    }

    /** A new lexer is ready. */
    lemma StartedIsReady(text: seq<byte>)
      requires Started(text) && log == [] && steps == 0
      ensures Ready() && Delivered() == []
    {
    }

    method Push(st: State)
      modifies `stack
      ensures stack == old(stack) + [st]
    {
      stack := stack + [st];
    }

    /** Never called on an empty stack. */
    method Pop() returns (st: State)
      requires stack != []
      modifies `stack
      ensures old(stack) != [] && st == old(stack)[|old(stack)| - 1] && stack == old(stack)[..|old(stack)| - 1]
    {
      st := stack[|stack| - 1];
      stack := stack[..|stack| - 1];
    }

    function Current(): seq<byte>
      requires start <= pos <= |input|
      reads this
    {
      input[start..pos]
    }

    method Send(typ: ItemType, val: seq<byte>)
      modifies `items, `log
      ensures Told([Tok(typ, val)])
    {
      var it := Item(typ, val, line);
      items := items + [it];
      log := log + [it];
    }

    method Emit(typ: ItemType)
      requires Base()
      modifies `items, `log, `start
      ensures Base() && start == pos && Told([Tok(typ, old(Current()))])
    {
      hide LineAt;
      Send(typ, Current());
      start := pos;
    }

    method EmitTrim(typ: ItemType)
      requires Base()
      modifies `items, `log, `start
      ensures Base() && start == pos && Told([Tok(typ, TrimSpace(old(Current())))])
    {
      hide LineAt;
      Send(typ, TrimSpace(Current()));
      start := pos;
    }

    /** Stops the machine: an error item and the nil state. */
    method Errorf() returns (st: State)
      modifies `items, `log
      ensures st == Halt && Told([Tok(ItemError, [])])
    {
      Send(ItemError, []);
      return Halt;
    }

    method Next() returns (r: byte)
      requires Base()
      modifies `pos, `width, `line
      ensures Base()
      ensures old(pos) < |input| ==> pos == old(pos) + 1 && width == 1 && r == input[old(pos)]
      ensures old(pos) == |input| ==> pos == old(pos) && width == 0 && r == EOF
    {
      if pos >= |input| {
        width := 0;
        return EOF;
      }
      if input[pos] == NL {
        line := line + 1;
      }
      r := input[pos];
      width := 1;
      pos := pos + width;
    }

    method Ignore()
      requires Base()
      modifies `start
      ensures Base() && start == pos
    {
      start := pos;
    }

    /** Steps back one character; at the end of input the last Next moved nothing. */
    method Backup()
      requires Base() && ((width == 1 && start < pos) || (width == 0 && pos == |input|))
      modifies `pos, `line
      ensures Base() && pos == old(pos) - width
    {
      pos := pos - width;
      if pos < |input| && input[pos] == NL {
        line := line - 1;
      }
    }

    method Accepts(valid: byte) returns (ok: bool)
      requires Base() && valid != EOF
      modifies `pos, `width, `line
      ensures Base() && ok == (old(pos) < |input| && input[old(pos)] == valid)
      ensures ok ==> pos == old(pos) + 1 && width == 1
      ensures !ok ==> pos == old(pos) && (width == 1 || (width == 0 && pos == |input|))
    {
      var r := Next();
      if r == valid {
        return true;
      }
      Backup();
      return false;
    }

    method Peek() returns (r: byte)
      requires Base()
      modifies `pos, `width, `line
      ensures Base() && pos == old(pos) && r == if pos < |input| then input[pos] else EOF
    {
      r := Next();
      Backup();
    }

    /** The step does what the machine says. */
    twostate predicate Does(mv: Move, new to: State)
      reads `start, `pos, `log, `stack, `items
    {
      old(pos) <= pos && Lands(mv, to)
    }

    twostate predicate Lands(mv: Move, new to: State)
      reads `start, `pos, `log, `stack, `items
    {
      && to == mv.to.st && (to != Halt ==> stack == mv.to.stack && start == mv.to.start && pos == mv.to.pos)
      && Told(mv.out)
    }

    /** At most two items went into the channel and on record: these. */
    twostate predicate Told(out: seq<Tok>)
      reads `log, `items
    {
      && (out == [] ==> log == old(log) && items == old(items))
      && (out != [] ==>
            && |out| <= 2 && |log| == |old(log)| + |out| && log[..|old(log)|] == old(log)
            && items == old(items) + log[|old(log)|..]
            && Bare(log[|old(log)|]) == out[0] && Bare(log[|log| - 1]) == out[|out| - 1])
    }

    method LexTop() returns (st: State)
      requires In(Top)
      modifies `start, `pos, `width, `line, `items, `stack, `log
      ensures Base() && Does(OnTop(input, old(Now(Top))), st)
    {
      hide Good, AcceptAll, LineAt, HasTriple;
      var r := Next();
      if IsWhitespace(r) || IsNL(r) {
        return Skip(Top);
      }
      if r == HASH {
        Push(Top);
        return CommentStart;
      } else if r == OPEN {
        return TableStart;
      } else if r == EOF {
        if pos > start {
          st := Errorf();
          return;
        }
        Emit(ItemEOF);
        return Halt;
      }
      Backup();
      Push(TopEnd);
      return KeyStart;
    }

    method LexTopEnd() returns (st: State)
      requires In(TopEnd)
      modifies `start, `pos, `width, `line, `items, `stack, `log
      ensures Base() && Does(OnTopEnd(input, old(Now(TopEnd))), st)
    {
      hide Good, AcceptAll, LineAt, HasTriple;
      var r := Next();
      if r == HASH {
        Push(Top);
        return CommentStart;
      } else if IsWhitespace(r) {
        return TopEnd;
      } else if IsNL(r) {
        Ignore();
        return Top;
      } else if r == EOF {
        Ignore();
        return Top;
      }
      st := Errorf();
    }

    method LexTableStart() returns (st: State)
      requires In(TableStart)
      modifies `start, `pos, `width, `line, `items, `stack, `log
      ensures Base() && Does(OnTableStart(input, old(Now(TableStart))), st)
    {
      hide Good, AcceptAll, LineAt, HasTriple;
      var r := Peek();
      if r == OPEN {
        var _ := Next();
        Emit(ItemArrayTableStart);
        Push(ArrayTableEnd);
      } else {
        Emit(ItemTableStart);
        Push(TableEnd);
      }
      return TableNameStart;
    }

    method LexTableEnd() returns (st: State)
      requires In(TableEnd)
      modifies `start, `pos, `width, `line, `items, `stack, `log
      ensures Base() && Does(OnTableEnd(input, old(Now(TableEnd))), st)
    {
      hide Good, AcceptAll, LineAt, HasTriple;
      Emit(ItemTableEnd);
      return TopEnd;
    }

    method LexArrayTableEnd() returns (st: State)
      requires In(ArrayTableEnd)
      modifies `start, `pos, `width, `line, `items, `stack, `log
      ensures Base() && Does(OnArrayTableEnd(input, old(Now(ArrayTableEnd))), st)
    {
      hide Good, AcceptAll, LineAt, HasTriple;
      var r := Next();
      if r != CLOSE {
        st := Errorf();
        return;
      }
      Emit(ItemArrayTableEnd);
      return TopEnd;
    }

    method LexTableNameStart() returns (st: State)
      requires In(TableNameStart)
      modifies `start, `pos, `width, `line, `items, `stack, `log
      ensures Base() && Does(OnTableNameStart(input, old(Now(TableNameStart))), st)
    {
      hide Good, AcceptAll, LineAt, HasTriple;
      var r := Next();
      if r == CLOSE || r == EOF || r == DOT {
        st := Errorf();
        return;
      }
      return TableName;
    }

    method LexTableName() returns (st: State)
      requires In(TableName)
      modifies `start, `pos, `width, `line, `items, `stack, `log
      ensures Base() && Does(OnTableName(input, old(Now(TableName))), st)
    {
      hide Good, AcceptAll, LineAt, HasTriple, Pending, Fits, Trusted;
      HasReturn(input, Now(TableName), Mode());
      var r := Peek();
      if r == EOF || r == OPEN {
        st := Errorf();
        return;
      } else if r == CLOSE {
        Emit(ItemText);
        var _ := Next();
        st := Pop();
        return;
      } else if r == DOT {
        Emit(ItemText);
        var _ := Next();
        Ignore();
        return TableNameStart;
      }
      var _ := Next();
      return TableName;
    }

    method LexKeyStart() returns (st: State)
      requires In(KeyStart)
      modifies `start, `pos, `width, `line, `items, `stack, `log
      ensures Base() && Does(OnKeyStart(input, old(Now(KeyStart))), st)
    {
      hide Good, AcceptAll, LineAt, HasTriple;
      AtKey(input, Now(KeyStart), Mode());
      var r := Peek();
      if r == EQUALS {
        st := Errorf();
        return;
      } else if IsWhitespace(r) || IsNL(r) {
        // lexTop only comes here in front of a character that is neither.
        assert false;
      }
      Ignore();
      Emit(ItemKeyStart);
      var _ := Next();
      return Key;
    }

    method LexKey() returns (st: State)
      requires In(Key)
      modifies `start, `pos, `width, `line, `items, `stack, `log
      ensures Base() && Does(OnKey(input, old(Now(Key))), st)
    {
      hide Good, AcceptAll, LineAt, HasTriple, TrimSpace;
      AtText(input, Now(Key), Mode());
      var r := Peek();
      if r == HASH {
        st := Errorf();
        return;
      }
      if IsNL(r) {
        EmitTrim(ItemText);
        return KeyEnd;
      }
      if r == EQUALS {
        EmitTrim(ItemText);
        return KeyEnd;
      }
      var _ := Next();
      return Key;
    }

    method LexKeyEnd() returns (st: State)
      requires In(KeyEnd)
      modifies `start, `pos, `width, `line, `items, `stack, `log
      ensures Base() && Does(OnKeyEnd(input, old(Now(KeyEnd))), st)
    {
      hide Good, AcceptAll, LineAt, HasTriple;
      var r := Next();
      if r == EQUALS {
        return Skip(Value);
      }
      st := Errorf();
    }

    method LexValue() returns (st: State)
      requires In(Value)
      modifies `start, `pos, `width, `line, `items, `stack, `log
      ensures Base() && Does(OnValue(input, old(Now(Value))), st)
    {
      hide Good, AcceptAll, LineAt, HasTriple;
      AtValue(input, Now(Value), Mode());
      var r := Next();
      if IsWhitespace(r) {
        return Skip(Value);
      }
      if r == OPEN {
        Ignore();
        Emit(ItemArray);
        return ArrayValue;
      } else if r == QUOTE || r == APOSTROPHE {
        st := QuotedValue(r);
        return;
      }
      st := PlainValue(r);
    }

    /** One quote has been read. */
    method QuotedValue(r: byte) returns (st: State)
      requires Base() && start + 1 == pos && input[start] == r && (r == QUOTE || r == APOSTROPHE)
      modifies `pos, `width, `line, `start
      ensures Base() && Does(OnValue(input, old(Machine(Value, stack, start, start))), st)
    {
      hide LineAt, HasTriple, Triple;
      if r == QUOTE {
        st := OpenQuote(QUOTE, MlStr, Str);
      } else {
        st := OpenQuote(APOSTROPHE, MlRawStr, RawStr);
      }
    }

    /** The first character of a constant, a number or a date, or of nothing. */
    method PlainValue(r: byte) returns (st: State)
      requires Base() && pos == Over(input, start) && r == At(input, start) && (width == 1 <==> start < pos)
      requires !IsWhitespace(r) && r != OPEN && r != QUOTE && r != APOSTROPHE
      modifies `pos, `line, `items, `log
      ensures Base() && start <= pos && Lands(OnValue(input, old(Machine(Value, stack, start, start))), st)
    {
      hide LineAt, HasTriple;
      if r == LOWER_T {
        return True;
      } else if r == LOWER_F {
        return False;
      } else if r == MINUS {
        return NumberStart;
      } else if IsDigit(r) {
        Backup();
        return NumberOrDateStart;
      }
      st := Errorf();
    }

    /** One quote has been read: an empty string, a string, or the start of a multi-line string. */
    method OpenQuote(quote: byte, multi: State, single: State) returns (st: State)
      requires Base() && start < pos && input[pos - 1] == quote && (quote == QUOTE || quote == APOSTROPHE)
      modifies `pos, `width, `line, `start
      ensures Base() && start == pos && pos == old(pos) + (if Triple(input, old(pos) - 1) then 2 else 0)
      ensures st == if Triple(input, old(pos) - 1) then multi else single
    {
      hide LineAt;
      var second := Accepts(quote);
      if second {
        var third := Accepts(quote);
        if third {
          Ignore();
          return multi;
        }
        Backup();
      }
      Ignore();
      return single;
    }

    method LexArrayValue() returns (st: State)
      requires In(ArrayValue)
      modifies `start, `pos, `width, `line, `items, `stack, `log
      ensures Base() && Does(OnArray(input, old(Now(ArrayValue)), ArrayValue), st)
    {
      hide Good, AcceptAll, LineAt, HasTriple;
      var r := Next();
      if IsWhitespace(r) || IsNL(r) {
        return Skip(ArrayValue);
      } else if r == HASH {
        Push(ArrayValue);
        return CommentStart;
      } else if r == COMMA {
        st := Errorf();
        return;
      } else if r == CLOSE {
        return ArrayEnd;
      }
      Backup();
      Push(ArrayValueEnd);
      return Value;
    }

    method LexArrayValueEnd() returns (st: State)
      requires In(ArrayValueEnd)
      modifies `start, `pos, `width, `line, `items, `stack, `log
      ensures Base() && Does(OnArray(input, old(Now(ArrayValueEnd)), ArrayValueEnd), st)
    {
      hide Good, AcceptAll, LineAt, HasTriple;
      var r := Next();
      if IsWhitespace(r) || IsNL(r) {
        return Skip(ArrayValueEnd);
      } else if r == HASH {
        Push(ArrayValueEnd);
        return CommentStart;
      } else if r == COMMA {
        Ignore();
        return ArrayValue;
      } else if r == CLOSE {
        return ArrayEnd;
      }
      st := Errorf();
    }

    method LexArrayEnd() returns (st: State)
      requires In(ArrayEnd)
      modifies `start, `pos, `width, `line, `items, `stack, `log
      ensures Base() && Does(OnArrayEnd(old(Now(ArrayEnd))), st)
    {
      hide Good, AcceptAll, LineAt, HasTriple;
      HasReturn(input, Now(ArrayEnd), Mode());
      Ignore();
      Emit(ItemArrayEnd);
      st := Pop();
    }

    /** Emits what has been read as a value and returns. */
    method EmitValue(typ: ItemType) returns (st: State)
      requires Base() && stack != []
      modifies `items, `log, `start, `stack
      ensures Base() && Does(Finish(input, old(Now(Halt)), typ, pos), st)
    {
      hide LineAt;
      Emit(typ);
      st := Pop();
    }

    method LexString() returns (st: State)
      requires In(Str)
      modifies `start, `pos, `width, `line, `items, `stack, `log
      ensures Base() && Does(OnString(input, old(Now(Str))), st)
    {
      hide Good, AcceptAll, LineAt, HasTriple;
      HasReturn(input, Now(Str), Mode());
      AtText(input, Now(Str), Mode());
      var r := Next();
      if IsNL(r) {
        st := Errorf();
        return;
      } else if r == BACKSLASH {
        return StrEscape;
      } else if r == QUOTE {
        Backup();
        Emit(ItemString);
        var _ := Next();
        Ignore();
        st := Pop();
        return;
      }
      return Str;
    }

    method LexStringEscape() returns (st: State)
      requires In(StrEscape)
      modifies `start, `pos, `width, `line, `items, `stack, `log
      ensures Base() && Does(OnEscape(input, old(Now(StrEscape)), Str, StrUnicode, old(pos)), st)
    {
      hide Good, AcceptAll, LineAt, HasTriple;
      AtText(input, Now(StrEscape), Mode());
      st := EscapeHandler(Str, StrUnicode);
    }

    method EscapeHandler(stringFn: State, unicodeFn: State) returns (st: State)
      requires Base() && !stringFn.Halt? && !unicodeFn.Halt?
      modifies `pos, `width, `line, `items, `log
      ensures Base() && Does(OnEscape(input, old(Now(Halt)), stringFn, unicodeFn, old(pos)), st)
    {
      hide LineAt;
      var r := Next();
      if IsEscapable(r) {
        return stringFn;
      } else if r == LOWER_U {
        return unicodeFn;
      }
      st := Errorf();
    }

    method LexStringUnicode() returns (st: State)
      requires In(StrUnicode)
      modifies `start, `pos, `width, `line, `items, `stack, `log
      ensures Base() && Does(OnUnicode(input, old(Now(StrUnicode)), Str), st)
    {
      hide Good, AcceptAll, LineAt, HasTriple;
      st := UnicodeHandler(Str);
    }

    method UnicodeHandler(nextFn: State) returns (st: State)
      requires Base() && !nextFn.Halt?
      modifies `pos, `width, `line, `items, `log
      ensures Base()
      ensures Does(OnUnicode(input, old(Now(Halt)), nextFn), st)
    {
      hide LineAt;
      for i := 0 to 4
        invariant Base() && pos == old(pos) + i
        invariant i > 0 ==> IsHexadecimal(At(input, old(pos)))
        invariant i > 1 ==> IsHexadecimal(At(input, old(pos) + 1))
        invariant i > 2 ==> IsHexadecimal(At(input, old(pos) + 2))
        invariant i > 3 ==> IsHexadecimal(At(input, old(pos) + 3))
        invariant log == old(log) && items == old(items)
      {
        var r := Next();
        if !IsHexadecimal(r) {
          st := Errorf();
          return;
        }
      }
      return nextFn;
    }

    method LexMultilineString() returns (st: State)
      requires In(MlStr)
      modifies `start, `pos, `width, `line, `items, `stack, `log
      ensures Base() && Does(OnMlString(input, old(Now(MlStr))), st)
    {
      hide Good, AcceptAll, LineAt, HasTriple;
      HasReturn(input, Now(MlStr), Mode());
      var r := Next();
      if r == BACKSLASH {
        return MlStrEscape;
      } else if r == QUOTE {
        st := CloseTriple(QUOTE, ItemMultilineString, MlStr);
        return;
      }
      return MlStr;
    }

    /** One quote of a multi-line string has been read: two more of them end it. */
    method CloseTriple(quote: byte, typ: ItemType, again: State) returns (st: State)
      requires Base() && start < pos && input[pos - 1] == quote && (quote == QUOTE || quote == APOSTROPHE)
      requires stack != [] && !again.Halt?
      modifies `start, `pos, `width, `line, `items, `stack, `log
      ensures Base()
      ensures Triple(input, old(pos) - 1) ==> Does(Close(input, old(Machine(Halt, stack, start, pos - 1)), typ, 3), st)
      ensures !Triple(input, old(pos) - 1) ==> Does(Go(old(Now(Halt)), again, old(pos)), st)
    {
      hide LineAt, Close, HasTriple;
      var second := Accepts(quote);
      if second {
        var third := Accepts(quote);
        if third {
          st := FinishTriple(typ);
          return;
        }
        Backup();
      }
      return again;
    }

    method FinishTriple(typ: ItemType) returns (st: State)
      requires Base() && start + 3 <= pos && width == 1 && stack != []
      modifies `start, `pos, `width, `line, `items, `stack, `log
      ensures Base() && Does(Close(input, old(Machine(Halt, stack, start, pos - 3)), typ, 3), st)
    {
      hide LineAt;
      Backup();
      Backup();
      Backup();
      Emit(typ);
      SkipThree();
      st := Pop();
    }

    method SkipThree()
      requires Base() && pos + 3 <= |input|
      modifies `pos, `width, `line, `start
      ensures Base() && pos == start == old(pos) + 3
    {
      hide LineAt;
      var _ := Next();
      var _ := Next();
      var _ := Next();
      Ignore();
    }

    method LexMultilineStringEscape() returns (st: State)
      requires In(MlStrEscape)
      modifies `start, `pos, `width, `line, `items, `stack, `log
      ensures Base() && Does(OnMlEscape(input, old(Now(MlStrEscape))), st)
    {
      hide Good, AcceptAll, LineAt, HasTriple;
      var r := Next();
      if IsNL(r) {
        var _ := Next();
        return MlStr;
      }
      Backup();
      st := EscapeHandler(MlStr, MlStrUnicode);
    }

    method LexMultilineStringUnicode() returns (st: State)
      requires In(MlStrUnicode)
      modifies `start, `pos, `width, `line, `items, `stack, `log
      ensures Base() && Does(OnUnicode(input, old(Now(MlStrUnicode)), MlStr), st)
    {
      hide Good, AcceptAll, LineAt, HasTriple;
      st := UnicodeHandler(MlStr);
    }

    method LexRawString() returns (st: State)
      requires In(RawStr)
      modifies `start, `pos, `width, `line, `items, `stack, `log
      ensures Base() && Does(OnRawString(input, old(Now(RawStr))), st)
    {
      hide Good, AcceptAll, LineAt, HasTriple;
      HasReturn(input, Now(RawStr), Mode());
      AtText(input, Now(RawStr), Mode());
      var r := Next();
      if IsNL(r) {
        st := Errorf();
        return;
      } else if r == APOSTROPHE {
        Backup();
        Emit(ItemRawString);
        var _ := Next();
        Ignore();
        st := Pop();
        return;
      }
      return RawStr;
    }

    method LexMultilineRawString() returns (st: State)
      requires In(MlRawStr)
      modifies `start, `pos, `width, `line, `items, `stack, `log
      ensures Base() && Does(OnMlRawString(input, old(Now(MlRawStr))), st)
    {
      hide Good, AcceptAll, LineAt, HasTriple;
      HasReturn(input, Now(MlRawStr), Mode());
      var r := Next();
      if r == APOSTROPHE {
        st := CloseTriple(APOSTROPHE, ItemRawMultilineString, MlRawStr);
        return;
      }
      return MlRawStr;
    }

    method LexNumberOrDateStart() returns (st: State)
      requires In(NumberOrDateStart)
      modifies `start, `pos, `width, `line, `items, `stack, `log
      ensures Base() && Does(OneDigit(input, old(Now(NumberOrDateStart)), NumberOrDate), st)
    {
      hide Good, AcceptAll, LineAt, HasTriple;
      var r := Next();
      if !IsDigit(r) {
        st := Errorf();
        return;
      }
      return NumberOrDate;
    }

    method LexNumberOrDate() returns (st: State)
      requires In(NumberOrDate)
      modifies `start, `pos, `width, `line, `items, `stack, `log
      ensures Base() && Does(OnNumberOrDate(input, old(Now(NumberOrDate))), st)
    {
      hide Good, AcceptAll, LineAt, HasTriple;
      HasReturn(input, Now(NumberOrDate), Mode());
      var r := Next();
      if r == MINUS {
        if pos - start != 5 {
          st := Errorf();
          return;
        }
        return DateAfterYear;
      } else if IsDigit(r) {
        return NumberOrDate;
      } else if r == DOT {
        return FloatStart;
      }
      Backup();
      st := EmitValue(ItemInteger);
    }

    method LexDateAfterYear() returns (st: State)
      requires In(DateAfterYear)
      modifies `start, `pos, `width, `line, `items, `stack, `log
      ensures Base() && Does(OnDate(input, old(Now(DateAfterYear))), st)
    {
      hide Good, AcceptAll, LineAt, HasTriple, IsDateTail, Terminated;
      HasReturn(input, Now(DateAfterYear), Mode());
      var ok := ReadDateTail();
      if !ok {
        st := Errorf();
        return;
      }
      st := EmitValue(ItemDatetime);
    }

    /** The loop over the format. */
    method ReadDateTail() returns (ok: bool)
      requires Base()
      modifies `pos, `width, `line
      ensures Base() && old(pos) <= pos && ok == IsDateTail(input, old(pos))
      ensures ok ==> pos == old(pos) + |DATE_FORMAT|
    {
      hide LineAt, IsDateTail, Terminated;
      for i := 0 to |DATE_FORMAT|
        invariant Base() && pos == old(pos) + i
        invariant forall k :: 0 <= k < i ==> DateMatches(input, old(pos), k)
      {
        var f := DATE_FORMAT[i];
        var r := Next();
        if f == ZERO {
          if !IsDigit(r) {
            DateBreaks(input, old(pos), i);
            return false;
          }
        } else if f != r {
          DateBreaks(input, old(pos), i);
          return false;
        }
      }
      DateHolds(input, old(pos));
      return true;
    }

    method LexNumberStart() returns (st: State)
      requires In(NumberStart)
      modifies `start, `pos, `width, `line, `items, `stack, `log
      ensures Base() && Does(OneDigit(input, old(Now(NumberStart)), Number), st)
    {
      hide Good, AcceptAll, LineAt, HasTriple;
      var r := Next();
      if !IsDigit(r) {
        st := Errorf();
        return;
      }
      return Number;
    }

    method LexNumber() returns (st: State)
      requires In(Number)
      modifies `start, `pos, `width, `line, `items, `stack, `log
      ensures Base() && Does(OnDigits(input, old(Now(Number)), Number), st)
    {
      hide Good, AcceptAll, LineAt, HasTriple;
      HasReturn(input, Now(Number), Mode());
      var r := Next();
      if IsDigit(r) {
        return Number;
      } else if r == DOT {
        return FloatStart;
      }
      Backup();
      st := EmitValue(ItemInteger);
    }

    method LexFloatStart() returns (st: State)
      requires In(FloatStart)
      modifies `start, `pos, `width, `line, `items, `stack, `log
      ensures Base() && Does(OneDigit(input, old(Now(FloatStart)), Float), st)
    {
      hide Good, AcceptAll, LineAt, HasTriple;
      var r := Next();
      if !IsDigit(r) {
        st := Errorf();
        return;
      }
      return Float;
    }

    method LexFloat() returns (st: State)
      requires In(Float)
      modifies `start, `pos, `width, `line, `items, `stack, `log
      ensures Base() && Does(OnFloat(input, old(Now(Float))), st)
    {
      hide Good, AcceptAll, LineAt, HasTriple;
      HasReturn(input, Now(Float), Mode());
      var r := Next();
      if IsDigit(r) {
        return Float;
      }
      Backup();
      st := EmitValue(ItemFloat);
    }

    /** Reads the rest of a constant. On a mismatch it emits an error item but returns nil, which the
        caller takes for success. */
    method LexConst(s: seq<byte>) returns (mismatch: bool)
      requires Base() && s != [] && EOF !in s && pos == start + 1 && input[start] == s[0]
      modifies `pos, `width, `line, `items, `log
      ensures Base() && old(pos) <= pos == ConstStop(input, old(pos), s, 1) && (mismatch <==> Text(input, start, pos) != s)
      ensures Told(if mismatch then [Tok(ItemError, [])] else [])
    {
      hide LineAt, ConstStop, Terminated;
      assert input[start..pos] == s[..1];
      for i := 1 to |s|
        invariant Base() && start + i == pos && log == old(log) && items == old(items)
        invariant input[start..pos] == s[..i] && ConstStop(input, old(pos), s, 1) == ConstStop(input, pos, s, i)
      {
        ghost var before := pos;
        ConstStep(input, pos, s, i);
        var r := Next();
        if r != s[i] {
          Mismatch(input, start, before, pos, s, i);
          var _ := Errorf();
          return true;
        }
        GrowText(input, start, before, s, i);
      }
      assert s[..|s|] == s;
      ConstEnd(input, pos, s);
      return false;
    }

    method LexTrue() returns (st: State)
      requires In(True)
      modifies `start, `pos, `width, `line, `items, `stack, `log
      ensures Base() && Does(OnConst(input, old(Now(True)), TRUE), st)
    {
      hide Good, AcceptAll, LineAt, HasTriple, OnConst;
      HasReturn(input, Now(True), Mode());
      AtConst(input, Now(True), Mode());
      SameMove(input, Now(True), Now(Halt), TRUE);
      st := LexBool(TRUE);
    }

    method LexFalse() returns (st: State)
      requires In(False)
      modifies `start, `pos, `width, `line, `items, `stack, `log
      ensures Base() && Does(OnConst(input, old(Now(False)), FALSE), st)
    {
      hide Good, AcceptAll, LineAt, HasTriple, OnConst;
      HasReturn(input, Now(False), Mode());
      AtConst(input, Now(False), Mode());
      SameMove(input, Now(False), Now(Halt), FALSE);
      st := LexBool(FALSE);
    }

    /** The rest of a constant, then the item. */
    method LexBool(s: seq<byte>) returns (st: State)
      requires Base() && stack != [] && s != [] && EOF !in s && pos == start + 1 && input[start] == s[0]
      modifies `start, `pos, `width, `line, `items, `stack, `log
      ensures Base() && Does(OnConst(input, old(Now(Halt)), s), st)
    {
      hide LineAt, ConstStop, OnConst, Terminated;
      ConstMove(input, Now(Halt), s);
      ghost var emitted, sent := log, items;
      var mismatch := LexConst(s);
      ghost var between, onTheWay := log, items;
      st := EmitValue(ItemBool);
      if mismatch { TwoTold(emitted, between, log, sent, onTheWay, items); }
    }

    method LexCommentStart() returns (st: State)
      requires In(CommentStart)
      modifies `start, `pos, `width, `line, `items, `stack, `log
      ensures Base() && Does(OnCommentStart(old(Now(CommentStart))), st)
    {
      hide Good, AcceptAll, LineAt, HasTriple;
      Ignore();
      Emit(ItemCommentStart);
      return Comment;
    }

    method LexComment() returns (st: State)
      requires In(Comment)
      modifies `start, `pos, `width, `line, `items, `stack, `log
      ensures Base() && Does(OnComment(input, old(Now(Comment))), st)
    {
      hide Good, AcceptAll, LineAt, HasTriple;
      HasReturn(input, Now(Comment), Mode());
      var r := Peek();
      if IsNL(r) || r == EOF {
        Emit(ItemText);
        st := Pop();
        return;
      }
      var _ := Next();
      return Comment;
    }

    /** The closure lexSkip returns. */
    method LexSkip(next: State) returns (st: State)
      requires In(Skip(next))
      modifies `start, `pos, `width, `line, `items, `stack, `log
      ensures Base() && Does(OnSkip(old(Now(Skip(next))), next), st)
    {
      hide Good, AcceptAll, LineAt, HasTriple;
      Ignore();
      return next;
    }

    /** lx.state = lx.state(lx) */
    method Apply()
      requires In(state) && !state.Halt?
      modifies `start, `pos, `width, `line, `items, `stack, `log, `state
      ensures Base() && Does(StepOf(input, old(Now(state))), state)
    {
      hide In, Base, Does;
      if InHeader(state) {
        ApplyInHeader();
        return;
      }
      if InQuotes(state) {
        ApplyInQuotes();
        return;
      }
      if InText(state) {
        ApplyInText();
        return;
      }
      match state
      case Top => state := LexTop();
      case TopEnd => state := LexTopEnd();
      case KeyStart => state := LexKeyStart();
      case Key => state := LexKey();
      case KeyEnd => state := LexKeyEnd();
      case Value => state := LexValue();
      case ArrayValue => state := LexArrayValue();
      case ArrayValueEnd => state := LexArrayValueEnd();
      case ArrayEnd => state := LexArrayEnd();
    }

    /** The states of a table header. */
    method ApplyInHeader()
      requires In(state) && InHeader(state)
      modifies `start, `pos, `width, `line, `items, `stack, `log, `state
      ensures Base() && Does(StepOf(input, old(Now(state))), state)
    {
      hide In, Base, Does;
      match state
      case TableStart => state := LexTableStart();
      case TableEnd => state := LexTableEnd();
      case ArrayTableEnd => state := LexArrayTableEnd();
      case TableNameStart => state := LexTableNameStart();
      case TableName => state := LexTableName();
    }

    /** The states inside a string. */
    method ApplyInQuotes()
      requires In(state) && InQuotes(state)
      modifies `start, `pos, `width, `line, `items, `stack, `log, `state
      ensures Base() && Does(StepOf(input, old(Now(state))), state)
    {
      hide In, Base, Does;
      match state
      case Str => state := LexString();
      case StrEscape => state := LexStringEscape();
      case StrUnicode => state := LexStringUnicode();
      case MlStr => state := LexMultilineString();
      case MlStrEscape => state := LexMultilineStringEscape();
      case MlStrUnicode => state := LexMultilineStringUnicode();
      case RawStr => state := LexRawString();
      case MlRawStr => state := LexMultilineRawString();
    }

    /** The states inside other values, comments and white space. */
    method ApplyInText()
      requires In(state) && InText(state)
      modifies `start, `pos, `width, `line, `items, `stack, `log, `state
      ensures Base() && Does(StepOf(input, old(Now(state))), state)
    {
      hide In, Base, Does;
      match state
      case NumberOrDateStart => state := LexNumberOrDateStart();
      case NumberOrDate => state := LexNumberOrDate();
      case DateAfterYear => state := LexDateAfterYear();
      case NumberStart => state := LexNumberStart();
      case Number => state := LexNumber();
      case FloatStart => state := LexFloatStart();
      case Float => state := LexFloat();
      case True => state := LexTrue();
      case False => state := LexFalse();
      case CommentStart => state := LexCommentStart();
      case Comment => state := LexComment();
      case Skip(next) => state := LexSkip(next);
    }

    /** One step, with what it keeps. */
    method Step()
      requires Valid() && !state.Halt?
      modifies this
      ensures Valid() && Does(StepOf(input, old(Now(state))), state)
      ensures old(Stuck()) ==> Stuck() && log == old(log) && items == old(items) && stack == old(stack) && state == old(state)
      ensures !old(Stuck()) ==> Closer()
      ensures state.Halt? ==> |old(log)| < |log|
    {
      hide StepOf, Fits, Pending, Trusted, AcceptAll, LineAt, HasTriple, Rank, Accept, Proper;
      ghost var m, mv := Now(state), StepOf(input, Now(state));
      RankPositive(state);
      StepKeeps(input, m, Mode());
      Apply();
      Recorded(old(log), log, mv.out);
      StateGood(input, mv.to, Now(state), Mode());
      Traces(input, steps, mv, old(log), log);
      steps := steps + 1;
    }

    /** In a multi-line string with no input left. */
    predicate Stuck()
      reads this
    {
      (state.MlStr? || state.MlRawStr?) && pos == |input|
    }

    /** The items handed out so far. */
    ghost function Delivered(): seq<Item>
      requires |items| <= |log|
      reads this
    {
      log[..|log| - |items|]
    }

    ghost predicate Ready()
      reads this
    {
      Valid() && |items| <= |log| && items == log[|log| - |items|..] && |items| <= 2
    }

    /** The parser may ask for another item: it has seen neither the end nor an error. */
    ghost predicate Open()
      requires |items| <= |log|
      reads this
    {
      var m := AcceptAll(AtTop, Delivered()); !m.Done? && !m.Failed?
    }

    /** Progress towards the end of input. */
    twostate predicate Closer()
      reads `pos, `state
    {
      old(pos) < pos || (old(pos) == pos && Rank(state) < Rank(old(state)))
    }

    /** One turn of nextItem's loop with an empty channel. */
    method Advance()
      requires Ready() && Open() && items == [] && !Stuck()
      modifies this
      ensures Ready() && Delivered() == old(Delivered()) && Closer()
    {
      hide Fits, Pending, Trusted, AcceptAll, LineAt, HasTriple, Rank;
      NotHalted();
      Step();
      Delivers(log, old(log), items);
    }

    /** nextItem's loop: false where the source spins forever. */
    method Await() returns (ok: bool)
      requires Ready() && Open()
      modifies this
      ensures Ready() && Delivered() == old(Delivered()) && (if ok then items != [] else Stuck() && HasTriple(input))
      ensures Closer() || (pos == old(pos) && state == old(state) && items == old(items))
    {
      hide Valid, AcceptAll, HasTriple, Rank;
      InBounds();
      while items == []
        invariant Ready() && Delivered() == old(Delivered()) && Open() && pos <= |input|
        invariant (pos == old(pos) && state == old(state) && items == old(items)) || Closer()
        decreases |input| - pos, Rank(state)
      {
        if Stuck() {
          StuckHasTriple();
          return false;
        }
        Advance();
        InBounds();
      }
      return true;
    }

    /** None where the source spins forever. The channel never holds more than two items. */
    method NextItem() returns (it: Option<Item>)
      requires Ready() && Open()
      modifies this
      ensures Ready() && (it == None ==> Stuck() && HasTriple(input) && Delivered() == old(Delivered()))
      ensures it.Some? ==>
        && Delivered() == old(Delivered()) + [it.value]
        && var m := Accept(AcceptAll(AtTop, old(Delivered())), it.value.typ);
           m != Bad && (m.Failed? || Proper(AcceptAll(AtTop, old(Delivered())), Bare(it.value)))
      ensures it.Some? ==> Closer() || (pos == old(pos) && state == old(state) && |items| < |old(items)|)
    {
      hide Valid, AcceptAll, HasTriple, Rank, WellFormed, Accept;
      ghost var delivered := Delivered();
      var ok := Await();
      if !ok { return None; }
      it := Some(items[0]);
      InBounds();
      Handed(log, delivered, items);
      items := items[1..];
      Delivers(log, delivered + [it.value], items);
    }

    lemma InBounds()
      requires Valid()
      ensures pos <= |input| && Mode() != Bad && Trusted(log)
    {
      NeverBad(state, stack, Mode());
    }

    lemma DeliveredTrusted()
      requires Valid() && |items| <= |log|
      ensures Trusted(Delivered()) && AcceptAll(AtTop, Delivered()) != Bad
    {
      hide Trusted, AcceptAll;
      InBounds();
      var k := |log| - |items|;
      TrustedPrefix(log, k);
      BadIsForGood(AtTop, log, k);
    }

    lemma StuckHasTriple()
      requires Valid() && Stuck()
      ensures HasTriple(input)
    {
    }

    lemma NotHalted()
      requires Ready() && Open() && items == []
      ensures !state.Halt?
    {
      assert Delivered() == log;
    }
  }

  /** A value is returned from. */
  lemma HasReturn(input: seq<byte>, m: Machine, mode: Mode)
    requires Good(input, m, mode) && (InValue(m.st) || m.st.ArrayEnd? || m.st.TableName? || m.st.Comment?)
    ensures m.stack != []
  {
  }

  lemma DateHolds(input: seq<byte>, pos: nat)
    requires forall k :: 0 <= k < |DATE_FORMAT| ==> DateMatches(input, pos, k)
    ensures IsDateTail(input, pos)
  {
  }

  lemma DateBreaks(input: seq<byte>, pos: nat, i: nat)
    requires i < |DATE_FORMAT| && !DateMatches(input, pos, i)
    ensures !IsDateTail(input, pos)
  {
  }

  lemma ConstMove(input: seq<byte>, m: Machine, s: seq<byte>)
    requires m.stack != [] && s != []
    ensures var stop := ConstStop(input, m.pos, s, 1);
      var text := Text(input, m.start, stop);
      var out := if text == s then [Tok(ItemBool, text)] else [Tok(ItemError, []), Tok(ItemBool, text)];
      OnConst(input, m, s) == Move(Machine(m.stack[|m.stack| - 1], m.stack[..|m.stack| - 1], stop, stop), out)
  {
    hide ConstStop;
    var stop := ConstStop(input, m.pos, s, 1);
    var t := Tok(ItemBool, Text(input, m.start, stop));
    assert [Tok(ItemError, [])] + [t] == [Tok(ItemError, []), t];
    Units([t]);
  }

  /** Where a constant leads does not depend on the state that reads it. */
  lemma SameMove(input: seq<byte>, a: Machine, b: Machine, s: seq<byte>)
    requires a.stack == b.stack != [] && a.start == b.start && a.pos == b.pos && s != []
    ensures OnConst(input, a, s) == OnConst(input, b, s)
  {
    hide ConstStop;
  }

  lemma ConstStep(input: seq<byte>, pos: nat, s: seq<byte>, i: nat)
    requires i < |s| && EOF !in s
    ensures At(input, pos) == s[i] ==> pos < |input| && ConstStop(input, pos, s, i) == ConstStop(input, pos + 1, s, i + 1)
    ensures At(input, pos) != s[i] ==> ConstStop(input, pos, s, i) == Over(input, pos)
  {
  }

  lemma ConstEnd(input: seq<byte>, pos: nat, s: seq<byte>)
    ensures ConstStop(input, pos, s, |s|) == pos
  {
  }

  lemma Mismatch(input: seq<byte>, start: nat, before: nat, pos: nat, s: seq<byte>, i: nat)
    requires start <= before <= pos == Over(input, before) && pos <= |input| && i < |s| && before == start + i
    requires At(input, before) != s[i]
    ensures input[start..pos] != s
  {
    if before < pos { assert input[start..pos][i] == input[before]; }
  }

  lemma RankPositive(st: State)
    ensures Rank(Halt) == 0 && (!st.Halt? ==> Rank(st) > 0)
  {
  }

  lemma TwoTold<T>(a: seq<T>, b: seq<T>, c: seq<T>, x: seq<T>, y: seq<T>, z: seq<T>)
    requires |b| == |a| + 1 && b[..|a|] == a && y == x + b[|a|..]
    requires |c| == |b| + 1 && c[..|b|] == b && z == y + c[|b|..]
    ensures c[..|a|] == a && z == x + c[|a|..] && c[|a|] == b[|a|]
  {
    assert c == b + [c[|b|]] && b == a + [b[|a|]];
  }

  lemma GrowText(input: seq<byte>, start: nat, pos: nat, s: seq<byte>, i: nat)
    requires start <= pos < |input| && i < |s| && input[start..pos] == s[..i] && input[pos] == s[i]
    ensures input[start..pos + 1] == s[..i + 1]
  {
    assert input[start..pos + 1] == input[start..pos] + [input[pos]];
    assert s[..i + 1] == s[..i] + [s[i]];
  }

  lemma AtConst(input: seq<byte>, m: Machine, mode: Mode)
    requires Good(input, m, mode) && (m.st.True? || m.st.False?)
    ensures m.start < m.pos == m.start + 1 <= |input| && input[m.start] == if m.st.True? then TRUE[0] else FALSE[0]
  {
  }

  lemma AtText(input: seq<byte>, m: Machine, mode: Mode)
    requires Good(input, m, mode) && (m.st.Str? || m.st.RawStr? || m.st.StrEscape? || m.st.Key?)
    ensures m.pos < |input|
  {
  }

  lemma AtValue(input: seq<byte>, m: Machine, mode: Mode)
    requires Good(input, m, mode) && m.st.Value?
    ensures m.start == m.pos
  {
  }

  lemma AtKey(input: seq<byte>, m: Machine, mode: Mode)
    requires Good(input, m, mode) && m.st.KeyStart?
    ensures m.pos < |input| && !IsNL(input[m.pos]) && !IsWhitespace(input[m.pos])
  {
  }

  /** What a step that kept everything leaves on record. */
  lemma Recorded(before: seq<Item>, log: seq<Item>, out: seq<Tok>)
    requires Trusted(before) && Sound(AcceptAll(AtTop, before), out) && |out| <= 2
    requires out == [] ==> log == before
    requires out != [] ==> |log| == |before| + |out| && log[..|before|] == before
    requires out != [] ==> Bare(log[|before|]) == out[0] && Bare(log[|log| - 1]) == out[|out| - 1]
    ensures Trusted(log) && AcceptAll(AtTop, log) == AcceptToks(AcceptAll(AtTop, before), out)
    ensures Toks(log) == Toks(before) + out
  {
    hide Trusted, Sound, AcceptAll, Toks, AcceptToks;
    if out == [] {
      TrustNothing(before, out);
      Units(Toks(before));
    } else {
      var more := log[|before|..];
      Split(log, |before|);
      Same(more, out);
      RecordedMore(before, more, out);
    }
  }

  lemma Same(more: seq<Item>, out: seq<Tok>)
    requires 0 < |out| == |more| <= 2 && Bare(more[0]) == out[0] && Bare(more[|more| - 1]) == out[|out| - 1]
    ensures Toks(more) == out
  {
  }

  lemma RecordedMore(before: seq<Item>, more: seq<Item>, out: seq<Tok>)
    requires Trusted(before) && Sound(AcceptAll(AtTop, before), out) && Toks(more) == out
    ensures Trusted(before + more) && AcceptAll(AtTop, before + more) == AcceptToks(AcceptAll(AtTop, before), out)
    ensures Toks(before + more) == Toks(before) + out
  {
    hide Trusted, Sound, AcceptAll, AcceptToks;
    assert forall k :: 0 <= k < |out| ==> Bare(more[k]) == out[k];
    TrustGrows(before, more, out);
  }

  lemma Split<T>(s: seq<T>, n: nat)
    requires n <= |s|
    ensures s == s[..n] + s[n..]
  {
  }

  lemma TrustNothing(before: seq<Item>, out: seq<Tok>)
    requires out == []
    ensures AcceptToks(AcceptAll(AtTop, before), out) == AcceptAll(AtTop, before)
  {
    hide AcceptAll;
  }

  /** After the last step only what has been emitted matters. */
  lemma StateGood(input: seq<byte>, m: Machine, now: Machine, mode: Mode)
    requires Good(input, m, mode) && m.st == now.st && (m.st.Halt? || m == now) && now.start <= now.pos <= |input|
    ensures Good(input, now, mode)
  {
  }

  /** One more step of the run. */
  lemma Traces(input: seq<byte>, steps: nat, mv: Move, before: seq<Item>, log: seq<Item>)
    requires Run(input, START, steps).out == Toks(before) && Toks(log) == Toks(before) + mv.out
    requires mv == StepOf(input, Run(input, START, steps).to)
    ensures Run(input, START, steps + 1) == Move(mv.to, Toks(log))
  {
    hide StepOf;
    RunTwice(input, START, steps, 1);
    OneStep(input, Run(input, START, steps).to);
  }

  lemma OneStep(input: seq<byte>, m: Machine)
    ensures Run(input, m, 1) == StepOf(input, m)
  {
    hide StepOf;
    var mv := StepOf(input, m);
    assert Run(input, mv.to, 0) == Move(mv.to, []);
    Units(mv.out);
  }

  lemma Delivers(log: seq<Item>, delivered: seq<Item>, items: seq<Item>)
    requires |items| <= |log| && items == log[|log| - |items|..] && |delivered| == |log| - |items| && log[..|delivered|] == delivered
    ensures log[..|log| - |items|] == delivered
  {
  }

  /** What is known about the item at the head of the channel. */
  lemma Handed(log: seq<Item>, delivered: seq<Item>, items: seq<Item>)
    requires items != [] && log == delivered + items && Trusted(log) && AcceptAll(AtTop, log) != Bad
    ensures var m := Accept(AcceptAll(AtTop, delivered), items[0].typ);
      m != Bad && (m.Failed? || Proper(AcceptAll(AtTop, delivered), Bare(items[0])))
  {
    var k := |delivered| + 1;
    BadIsForGood(AtTop, log, k);
    assert log[..k] == delivered + [items[0]];
    AcceptSnoc(AtTop, delivered, items[0]);
    TrustedAt(log, k);
  }

  lemma {:induction false} TrustedPrefix(log: seq<Item>, k: nat)
    requires k <= |log| && Trusted(log)
    ensures Trusted(log[..k])
  {
    if k < |log| {
      TrustedPrefix(log[..|log| - 1], k);
      assert log[..|log| - 1][..k] == log[..k];
    } else {
      assert log[..k] == log;
    }
  }

  lemma {:induction false} TrustedAt(log: seq<Item>, k: nat)
    requires 0 < k <= |log| && Trusted(log)
    ensures AcceptAll(AtTop, log[..k]).Failed? || Proper(AcceptAll(AtTop, log[..k - 1]), Bare(log[k - 1]))
  {
    if k < |log| {
      TrustedAt(log[..|log| - 1], k);
      assert log[..|log| - 1][..k] == log[..k] && log[..|log| - 1][..k - 1] == log[..k - 1];
    } else {
      assert log[..k] == log;
    }
  }
}
