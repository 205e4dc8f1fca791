/** parse.go from items to document: every item the lexer hands out is one the parser expects, so its
    structural BUG branches are dead code, and the tables hold what the items say. */
module TomlDocument {
  import opened Bytes
  import opened TokenGrammar
  import opened LexMachine
  import opened TomlLexer
  import opened TomlTables
  import opened TomlReading
  import opened TomlBuild
  import opened TomlClashes
  import opened TomlParser
  import StringEscapes

  class Parser {
    const lx: Lexer
    const doc: Builder
    var currentKey: Name

    constructor (text: seq<byte>)
      ensures lx.Started(text) && lx.log == [] && lx.steps == 0 && fresh(lx) && fresh(doc)
      ensures doc.Now() == BLANK
    {
      lx := new Lexer(text);
      doc := new Builder();
      currentKey := [];
    }

    ghost predicate Ready()
      reads lx
    {
      lx.Ready() && lx.pos <= |lx.input|
    }

    /** What may come next, going by the items read so far. */
    ghost function Expecting(): Mode
      requires |lx.items| <= |lx.log|
      reads lx
    {
      AcceptAll(AtTop, lx.Delivered())
    }

    /** What the items read so far say. */
    ghost function Says(): Doc
      requires |lx.items| <= |lx.log|
      reads lx
    {
      Document(Toks(lx.Delivered()))
    }

    ghost predicate Open()
      requires |lx.items| <= |lx.log|
      reads lx
    {
      !Expecting().Done? && !Expecting().Failed?
    }

    /** Reading on gets closer to the end of the document. */
    twostate predicate Nearer()
      reads lx
    {
      lx.Closer() || (lx.pos == old(lx.pos) && lx.state == old(lx.state) && |lx.items| < |old(lx.items)|)
    }

    twostate predicate NoFarther()
      reads lx
    {
      Nearer() || (lx.pos == old(lx.pos) && lx.state == old(lx.state) && lx.items == old(lx.items))
    }

    /** Why a parse stopped, going by the items. */
    ghost predicate Explains(flow: Outcome)
      requires |lx.items| <= |lx.log|
      reads lx
    {
      && (flow == SyntaxError ==> Expecting().Failed?)
      && (flow == Spinning ==> HasTriple(lx.input) && lx.Stuck())
      && (flow == Crashed ==> Says().fault == Some(BadEscape))
      && (flow == BadValue ==> Says().fault == Some(OutOfRange) || Says().fault == Some(MixedArray))
    }

    /** The next item; an error item ends the parse. */
    method Next() returns (it: Item, flow: Outcome)
      requires Ready() && Open()
      modifies lx
      ensures Ready() && flow in {Accepted, SyntaxError, Spinning} && Explains(flow)
      ensures flow == Accepted ==>
        && Expecting() == Accept(old(Expecting()), it.typ) && !Expecting().Bad? && !Expecting().Failed?
        && WellFormed(Bare(it)) && Nearer()
        && Says() == Feed(old(Says()), old(Expecting()), Bare(it))
    {
      hide HasTriple, WellFormed, Feed;
      var next := lx.NextItem();
      if next == None {
        return Item(ItemError, [], 0), Spinning;
      }
      it := next.value;
      AcceptSnoc(AtTop, old(lx.Delivered()), it);
      ReadItem(old(lx.Delivered()), it);
      if it.typ == ItemError {
        Fails(old(Expecting()));
        return it, SyntaxError;
      }
      NoFailure(old(Expecting()), it.typ);
      return it, Accepted;
    }

    lemma Fails(m: Mode)
      requires !m.Done? && Accept(m, ItemError) != Bad
      ensures Accept(m, ItemError).Failed?
    {
    }

    lemma NoFailure(m: Mode, t: ItemType)
      requires !m.Done? && !m.Failed? && t != ItemError
      ensures !Accept(m, t).Failed?
    {
    }

    /** expect(itemText), where nothing else can come. */
    method ExpectText() returns (it: Item, flow: Outcome)
      requires Ready()
      requires Expecting() in {TopComment, KeyName, Names(false, false), Names(true, false)} || Expecting().ArrayComment?
      modifies lx
      ensures Ready() && flow in {Accepted, SyntaxError, Spinning} && Explains(flow)
      ensures flow == Accepted ==>
        && Expecting() == Accept(old(Expecting()), ItemText) && Nearer()
        && Says() == Feed(old(Says()), old(Expecting()), Tok(ItemText, it.val))
    {
      hide HasTriple, WellFormed, Feed, Lexer.Valid, Lexer.Delivered, Document, Toks, AcceptAll;
      it, flow := Next();
      if flow == Accepted && it.typ != ItemText {
        assert false;
      }
    }

    /** A value that begins with `it`, which was read in mode m when the items so far said d. */
    method ParseValue(it: Item, ghost d: Doc, ghost m: Mode) returns (v: Value, flow: Outcome)
      requires Ready() && WellFormed(Bare(it)) && (IsPrimitive(it.typ) || it.typ == ItemArray)
      requires (m.WantValue? || (m.InArray? && m.depth > 0)) && Expecting() == Accept(m, it.typ)
      requires d.fault == None && d.open != [] && Says() == Feed(d, m, Bare(it))
      modifies lx
      ensures Ready() && flow in {Accepted, SyntaxError, BadValue, Spinning, Crashed} && Explains(flow)
      ensures flow == Accepted ==> Expecting() == PastValue(m) && NoFarther()
      ensures flow == Accepted ==> Says() == Settle(d.(open := Push(d.open, v)), PastValue(m))
      decreases |lx.input| - lx.pos, Rank(lx.state), |lx.items|, 1
    {
      hide HasTriple, Rank, Push, Settle, Mixed, ReadPrimitive, Lexer.Valid, Lexer.Delivered, Document, Toks, AcceptAll;
      if it.typ == ItemArray {
        v, flow := ParseArray(d, m);
        return;
      }
      v, flow := Primitive(it);
      PrimitiveRead(d, m, Bare(it));
    }

    /** What a value of one item does to what has been read. */
    lemma PrimitiveRead(d: Doc, m: Mode, t: Tok)
      requires IsPrimitive(t.typ) && (m.WantValue? || (m.InArray? && m.depth > 0)) && d.fault == None && d.open != []
      ensures Accept(m, t.typ) == PastValue(m)
      ensures Feed(d, m, t) == match ReadPrimitive(t)
        case Faulty(fault) => d.(fault := Some(fault))
        case Got(v) => Settle(d.(open := Push(d.open, v)), PastValue(m))
    {
      hide Settle, Push, ReadPrimitive;
    }

    /** value, for the values of one item. */
    static method Primitive(it: Item) returns (v: Value, flow: Outcome)
      requires WellFormed(Bare(it)) && IsPrimitive(it.typ)
      ensures flow in {Accepted, BadValue, Crashed}
      ensures ReadPrimitive(Bare(it)) ==
        if flow == Accepted then Got(v) else Faulty(if flow == Crashed then BadEscape else OutOfRange)
    {
      hide ReadText, ParseInt, IsInteger, StringEscapes.StripFirstNewline, StringEscapes.StripEscapedWhitespace;
      match it.typ
      case ItemString =>
        v, flow := TextValue(it.val);
      case ItemMultilineString =>
        v, flow := TextValue(StringEscapes.StripFirstNewline(StringEscapes.StripEscapedWhitespace(it.val)));
      case ItemRawString => return StrVal(it.val), Accepted;
      case ItemRawMultilineString => return StrVal(StringEscapes.StripFirstNewline(it.val)), Accepted;
      case ItemBool =>
        if it.val == TRUE { return BoolVal(true), Accepted; }
        if it.val == FALSE { return BoolVal(false), Accepted; }
        assert false;
      case ItemInteger =>
        v, flow := IntegerValue(it.val);
      case ItemFloat => return FloatVal(it.val), Accepted;
      case ItemDatetime => return DateVal(it.val), Accepted;
    }

    /** strconv.ParseInt, which can only fail on the range. */
    static method IntegerValue(text: seq<byte>) returns (v: Value, flow: Outcome)
      requires IsInteger(text)
      ensures flow == Accepted || flow == BadValue
      ensures ParseInt(text, MAX_INT64) == if flow == Accepted && v.IntVal? then Some(v.n) else None
      ensures flow == Accepted ==> v.IntVal?
    {
      hide ParseInt;
      var num := ParseInt(text, MAX_INT64);
      if num == None {
        // Not a syntax error: the number is out of range.
        if !IsInteger(text) { assert false; }
        return ArrayVal([]), BadValue;
      }
      return IntVal(num.value), Accepted;
    }

    /** replaceUnicode(replaceEscapes(raw)) */
    static method TextValue(raw: seq<byte>) returns (v: Value, flow: Outcome)
      ensures ReadText(raw) == if flow == Accepted then Got(v) else Faulty(BadEscape)
      ensures flow == Accepted || flow == Crashed
    {
      var text := StringEscapes.Unquote(raw);
      if text == None { return StrVal([]), Crashed; }
      return StrVal(text.value), Accepted;
    }

    /** The elements of an array, up to its end. */
    method ParseArray(ghost d: Doc, ghost m: Mode) returns (v: Value, flow: Outcome)
      requires Ready() && (m.WantValue? || (m.InArray? && m.depth > 0)) && Expecting() == Accept(m, ItemArray)
      requires d.fault == None && d.open != [] && Says() == d.(open := d.open + [[]])
      modifies lx
      ensures Ready() && flow in {Accepted, SyntaxError, BadValue, Spinning, Crashed} && Explains(flow)
      ensures flow == Accepted ==> Expecting() == PastValue(m) && Nearer()
      ensures flow == Accepted ==> Says() == Settle(d.(open := Push(d.open, v)), PastValue(m))
      decreases |lx.input| - lx.pos, Rank(lx.state), |lx.items|, 0
    {
      hide WellFormed, HasTriple, Rank, Accept, Feed, Push, Settle, Mixed, Lexer.Valid, Lexer.Delivered, Document, Toks, AcceptAll;
      v := ArrayVal([]);
      ghost var inside := Expecting();
      InsideArray(m);
      var elems: seq<Value> := [];
      var it;
      it, flow := Next();
      while flow == Accepted && it.typ != ItemArrayEnd
        invariant Ready() && flow in {Accepted, SyntaxError, Spinning} && Explains(flow)
        invariant flow == Accepted ==>
          && Nearer() && WellFormed(Bare(it))
          && Expecting() == Accept(inside, it.typ) && !Expecting().Bad? && !Expecting().Failed?
          && Says() == Feed(d.(open := d.open + [elems]), inside, Bare(it))
        decreases flow == Accepted, |lx.input| - lx.pos, Rank(lx.state), |lx.items|
      {
        elems, flow := ParseElement(it, d, inside, elems);
        if flow != Accepted { return; }
        it, flow := Next();
      }
      if flow != Accepted { return; }
      ArrayEnds(d, m, elems, it);
      var mixed := MixedTypes(elems);
      if mixed { return v, BadValue; }
      v := ArrayVal(elems);
    }

    lemma InsideArray(m: Mode)
      requires m.WantValue? || (m.InArray? && m.depth > 0)
      ensures Accept(m, ItemArray) == InArray(if m.WantValue? then 1 else m.depth + 1)
      ensures Accept(Accept(m, ItemArray), ItemArrayEnd) == PastValue(m)
    {
    }

    /** What the item that ends an array does to what has been read. */
    lemma ArrayEnds(d: Doc, m: Mode, elems: seq<Value>, it: Item)
      requires it.typ == ItemArrayEnd && d.fault == None && d.open != []
      requires m.WantValue? || (m.InArray? && m.depth > 0)
      ensures var after := Feed(d.(open := d.open + [elems]), Accept(m, ItemArray), Bare(it));
        after == if Mixed(elems) then d.(open := d.open + [elems], fault := Some(MixedArray))
                 else Settle(d.(open := Push(d.open, ArrayVal(elems))), PastValue(m))
    {
      hide Settle, Push, Mixed;
      InsideArray(m);
      var open := d.open + [elems];
      assert open[|open| - 1] == elems && open[..|open| - 1] == d.open;
    }

    /** typeOfArray */
    static method MixedTypes(elems: seq<Value>) returns (mixed: bool)
      ensures mixed == Mixed(elems)
    {
      if |elems| == 0 { return false; }
      var theType := TypeOf(elems[0]);
      for i := 1 to |elems|
        invariant forall k :: 0 <= k < i ==> TypeOf(elems[k]) == theType
      {
        if TypeOf(elems[i]) != theType { return true; }
      }
      return false;
    }

    /** One item inside an array that does not end it: a comment or an element. */
    method ParseElement(it: Item, ghost d: Doc, ghost m: Mode, elems: seq<Value>) returns (more: seq<Value>, flow: Outcome)
      requires Ready() && WellFormed(Bare(it)) && m.InArray? && m.depth > 0 && it.typ != ItemArrayEnd
      requires Expecting() == Accept(m, it.typ) && !Expecting().Bad? && !Expecting().Failed?
      requires d.fault == None && Says() == Feed(d.(open := d.open + [elems]), m, Bare(it))
      modifies lx
      ensures Ready() && flow in {Accepted, SyntaxError, BadValue, Spinning, Crashed} && Explains(flow)
      ensures flow == Accepted ==> Expecting() == m && NoFarther()
      ensures flow == Accepted ==> Says() == d.(open := d.open + [more])
      decreases |lx.input| - lx.pos, Rank(lx.state), |lx.items|, 2
    {
      hide WellFormed, HasTriple, Rank, Mixed, Lexer.Valid, Lexer.Delivered, Document, Toks, AcceptAll;
      more := elems;
      ghost var here := d.(open := d.open + [elems]);
      if it.typ == ItemCommentStart {
        var text;
        text, flow := ExpectText();
        return;
      }
      var x;
      x, flow := ParseValue(it, here, m);
      more := elems + [x];
      assert here.open[..|d.open|] == d.open;
    }

    /** The rest of a table header: names until the closing item. */
    method ParseNames(ofArray: bool) returns (key: Path, flow: Outcome)
      requires Ready() && Expecting() == Names(ofArray, false) && Says().fault == None && Says().names == []
      modifies lx
      ensures Ready() && flow in {Accepted, SyntaxError, Spinning} && Explains(flow)
      ensures flow == Accepted ==> key != [] && Expecting() == AtTop && Nearer()
      ensures flow == Accepted ==> Says().fault == None && Says().stmts == old(Says()).stmts + [Header(key, ofArray)]
    {
      hide WellFormed, HasTriple, Rank, Lexer.Valid, Lexer.Delivered, Document, Toks, AcceptAll;
      var kg;
      key := [];
      ghost var d := Says();
      kg, flow := ExpectText();
      if flow != Accepted { return; }
      key := [kg.val];
      Units(key);
      kg, flow := Next();
      while flow == Accepted && kg.typ == ItemText
        invariant Ready() && flow in {Accepted, SyntaxError, Spinning} && Explains(flow) && key != []
        invariant flow == Accepted ==>
          && Nearer() && Expecting() == Accept(Names(ofArray, true), kg.typ) && !Expecting().Bad? && !Expecting().Failed?
          && Says() == Feed(d.(names := key), Names(ofArray, true), Bare(kg))
        decreases flow == Accepted, |lx.input| - lx.pos, Rank(lx.state), |lx.items|
      {
        key := key + [kg.val];
        kg, flow := Next();
      }
      if flow == Accepted && kg.typ != (if ofArray then ItemArrayTableEnd else ItemTableEnd) {
        assert false;
      }
    }

    /** The tables are what the statements read so far build, and all were accepted. */
    ghost predicate InStep()
      requires |lx.items| <= |lx.log|
      reads lx, doc
    {
      Says().fault == None && BuildAll(Says().stmts) == Built(Accepted, doc.Now())
    }

    /** What a top-level item leaves behind: everything in step, or a reason to stop. */
    ghost predicate Left(flow: Outcome)
      requires |lx.items| <= |lx.log|
      reads lx, doc
    {
      && Explains(flow)
      && (flow in {Accepted, Refused, Bug} ==> Says().fault == None && BuildAll(Says().stmts) == Built(flow, doc.Now()))
    }

    /** One top-level item of the document. */
    method TopLevel(item: Item) returns (flow: Outcome)
      requires Ready() && item.typ != ItemEOF && InStep() && Says().names == []
      requires Expecting() == Accept(AtTop, item.typ) && !Expecting().Bad? && !Expecting().Failed?
      modifies this, lx, doc
      ensures Ready() && (flow == Accepted ==> Expecting() == AtTop && Nearer())
      ensures Left(flow)
    {
      hide WellFormed, HasTriple, Rank, BuildAll, Apply, Lexer.Valid, Lexer.Delivered, Document, Toks, AcceptAll;
      if item.typ == ItemCommentStart {
        var text;
        text, flow := ExpectText();
      } else if item.typ == ItemTableStart {
        flow := TableHeader(false);
      } else if item.typ == ItemArrayTableStart {
        flow := TableHeader(true);
      } else if item.typ == ItemKeyStart {
        flow := KeyValue();
      } else {
        assert false;
      }
    }

    method TableHeader(ofArray: bool) returns (flow: Outcome)
      requires Ready() && Expecting() == Names(ofArray, false) && InStep() && Says().names == []
      modifies lx, doc
      ensures Ready() && (flow == Accepted ==> Expecting() == AtTop && Nearer())
      ensures Left(flow)
    {
      hide WellFormed, HasTriple, Rank, BuildAll, Apply, Lexer.Valid, Lexer.Delivered, Document, Toks, AcceptAll;
      var key;
      key, flow := ParseNames(ofArray);
      if flow == Accepted {
        flow := doc.DefineTable(key, ofArray);
        Snoc(old(Says()).stmts, Header(key, ofArray));
      }
    }

    method KeyValue() returns (flow: Outcome)
      requires Ready() && Expecting() == KeyName && InStep()
      modifies this, lx, doc
      ensures Ready() && (flow == Accepted ==> Expecting() == AtTop && Nearer())
      ensures Left(flow)
    {
      hide WellFormed, HasTriple, Rank, BuildAll, Apply, Lexer.Valid, Lexer.Delivered, Document, Toks, AcceptAll;
      var v;
      currentKey, v, flow := ReadPair();
      if flow != Accepted { return; }
      flow := doc.DefineKey(currentKey, v);
      Snoc(old(Says()).stmts, Pair(currentKey, v));
      currentKey := [];
    }

    /** A key's name and its value. */
    method ReadPair() returns (key: Name, v: Value, flow: Outcome)
      requires Ready() && Expecting() == KeyName && Says().fault == None
      modifies lx
      ensures Ready() && flow in {Accepted, SyntaxError, BadValue, Spinning, Crashed} && Explains(flow)
      ensures flow == Accepted ==> Expecting() == AtTop && Nearer()
      ensures flow == Accepted ==> Says().fault == None && Says().stmts == old(Says()).stmts + [Pair(key, v)]
    {
      hide WellFormed, HasTriple, Rank, Lexer.Valid, Lexer.Delivered, Document, Toks, AcceptAll;
      v := ArrayVal([]);
      ghost var d := Says();
      var it;
      it, flow := ExpectText();
      key := it.val;
      if flow != Accepted { return; }
      ghost var named := Says();
      it, flow := Next();
      if flow != Accepted { return; }
      v, flow := ParseValue(it, named, WantValue);
    }

    /** A new parser can start. */
    lemma StartedIsReady(text: seq<byte>)
      requires lx.Started(text) && lx.log == [] && lx.steps == 0 && doc.Now() == BLANK
      ensures Ready() && Expecting() == AtTop && InStep()
    {
      lx.StartedIsReady(text);
    }

    /** parse: whatever the document, the parse ends in one of the ways the source intends, unless the
        lexer spins on a triple quote, the string decoder crashes, or a table of an array got lost. What
        it accepts it has read to the end. */
    method Parse() returns (flow: Outcome)
      requires Ready() && Expecting() == AtTop && InStep()
      modifies this, lx, doc
      ensures Ready() && Left(flow)
      ensures flow == Accepted ==> Expecting() == Done
    {
      hide WellFormed, HasTriple, Rank, BuildAll, Apply, Lexer.Valid, Lexer.Delivered, Document, Toks, AcceptAll;
      while true
        invariant Ready() && Expecting() == AtTop && InStep()
        decreases |lx.input| - lx.pos, Rank(lx.state), |lx.items|
      {
        var item;
        item, flow := Next();
        if flow != Accepted { return; }
        if item.typ == ItemEOF { return; }
        flow := TopLevel(item);
        if flow != Accepted { return; }
      }
    }
  }

  /** Parsing a whole document, from the text to the outcome: once its items have been read without error,
      acceptance is decided by its statements, and the tables hold what they say. */
  method ParseText(text: seq<byte>) returns (flow: Outcome, p: Parser)
    ensures p.lx.input == text + [NL] && p.Ready() && p.Left(flow)
    ensures flow == Accepted ==> p.Expecting() == Done
    ensures NamesSplit(p.Says().stmts)
    ensures flow in {Accepted, Refused, Bug} ==> flow == OutcomeBy(p.Says().stmts)
    ensures flow == Accepted ==> Agrees(p.doc.Now(), p.Says().stmts)
    ensures flow == Bug ==> !NoArrays(p.Says().stmts) && exists i: nat :: LosesTable(p.Says().stmts, i)
  {
    hide BuildAll, OutcomeBy, Agrees, LosesTable, Document, Toks, AcceptAll, Lexer.Delivered;
    p := new Parser(text);
    p.StartedIsReady(text);
    flow := p.Parse();
    ghost var stmts := p.Says().stmts;
    p.lx.DeliveredTrusted();
    HeadersSplit(p.lx.Delivered());
    Agreement(stmts);
    if flow == Bug {
      BugExactly(stmts);
      if NoArrays(stmts) { NoArraysNoBug(stmts); }
    }
  }
}
