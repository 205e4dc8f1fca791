/** What a sequence of TOML items says: a left-to-right reading with a stack of open arrays, against which
    the recursive parser is proved. */
module TomlReading {
  import opened Bytes
  import opened TokenGrammar
  import opened TomlTables
  import StringEscapes

  datatype Stmt = Header(path: Path, ofArray: bool) | Pair(key: Name, value: Value)

  /** BadEscape: the string decoder crashes. OutOfRange: an integer beyond 64 bits. MixedArray: an array
      with elements of different types. */
  datatype Fault = BadEscape | OutOfRange | MixedArray

  /** The statements read so far; the names of the statement being read, the elements of its open arrays,
      outermost first; what went wrong. */
  datatype Doc = Doc(stmts: seq<Stmt>, names: Path, open: seq<seq<Value>>, fault: Option<Fault>)

  const NOTHING := Doc([], [], [], None)

  datatype TomlType = TString | TBool | TInteger | TFloat | TDatetime | TArray

  function TypeOf(v: Value): TomlType {
    match v
    case StrVal(_) => TString
    case BoolVal(_) => TBool
    case IntVal(_) => TInteger
    case FloatVal(_) => TFloat
    case DateVal(_) => TDatetime
    case ArrayVal(_) => TArray
  }

  predicate Mixed(elems: seq<Value>) { exists i | 0 <= i < |elems| :: TypeOf(elems[i]) != TypeOf(elems[0]) }

  /** Every array in v, at every depth, holds values of one type. */
  predicate Uniform(v: Value) {
    v.ArrayVal? ==> !Mixed(v.elems) && forall e <- v.elems :: Uniform(e)
  }

  datatype Reading = Got(value: Value) | Faulty(fault: Fault)

  function ReadText(raw: seq<byte>): Reading {
    match StringEscapes.Unquote(raw)
    case None => Faulty(BadEscape)
    case Some(text) => Got(StrVal(text))
  }

  function ReadPrimitive(t: Tok): Reading {
    match t.typ
    case ItemString => ReadText(t.val)
    case ItemMultilineString =>
      ReadText(StringEscapes.StripFirstNewline(StringEscapes.StripEscapedWhitespace(t.val)))
    case ItemRawString => Got(StrVal(t.val))
    case ItemRawMultilineString => Got(StrVal(StringEscapes.StripFirstNewline(t.val)))
    case ItemBool => Got(BoolVal(t.val == TRUE))
    case ItemInteger =>
      (match ParseInt(t.val, MAX_INT64)
       case None => Faulty(OutOfRange)
       case Some(n) => Got(IntVal(n)))
    case ItemFloat => Got(FloatVal(t.val))
    case _ => Got(DateVal(t.val))
  }

  /** One more element for the innermost open array. */
  function Push(open: seq<seq<Value>>, v: Value): seq<seq<Value>>
    requires open != []
  {
    open[..|open| - 1] + [open[|open| - 1] + [v]]
  }

  /** A value at the outermost level completes a key/value statement. */
  function Settle(d: Doc, next: Mode): Doc {
    if next.AtTop? && d.names != [] && d.open != [] && d.open[0] != [] then
      d.(stmts := d.stmts + [Pair(d.names[0], d.open[0][0])])
    else d
  }

  /** The mode after a value that came in mode m. */
  function PastValue(m: Mode): Mode { if m.WantValue? then AtTop else m }

  function FeedValue(d: Doc, next: Mode, t: Tok): Doc {
    if t.typ.ItemArray? then d.(open := d.open + [[]])
    else if t.typ.ItemArrayEnd? then
      if |d.open| < 2 then d
      else
        var elems, outer := d.open[|d.open| - 1], d.open[..|d.open| - 1];
        if Mixed(elems) then d.(fault := Some(MixedArray))
        else Settle(d.(open := Push(outer, ArrayVal(elems))), next)
    else if IsPrimitive(t.typ) && d.open != [] then
      match ReadPrimitive(t)
      case Faulty(fault) => d.(fault := Some(fault))
      case Got(v) => Settle(d.(open := Push(d.open, v)), next)
    else d
  }

  /** One more token, read in mode m. An error says nothing. */
  function Feed(d: Doc, m: Mode, t: Tok): Doc {
    if d.fault.Some? || t.typ.ItemError? then d
    else match m
      case AtTop => d.(names := [], open := [])
      case Names(ofArray, _) =>
        if t.typ.ItemText? then d.(names := d.names + [t.val])
        else d.(stmts := d.stmts + [Header(d.names, ofArray)])
      case KeyName => d.(names := [t.val], open := [[]])
      case WantValue => FeedValue(d, Accept(m, t.typ), t)
      case InArray(_) => FeedValue(d, Accept(m, t.typ), t)
      case _ => d
  }

  /** What some tokens add to what was read before them. */
  function FeedAll(d: Doc, m: Mode, toks: seq<Tok>): Doc {
    if toks == [] then d
    else
      var most := toks[..|toks| - 1];
      Feed(FeedAll(d, m, most), AcceptToks(m, most), toks[|toks| - 1])
  }

  function Document(toks: seq<Tok>): Doc { FeedAll(NOTHING, AtTop, toks) }

  lemma FeedSnoc(d: Doc, m: Mode, toks: seq<Tok>, t: Tok)
    ensures FeedAll(d, m, toks + [t]) == Feed(FeedAll(d, m, toks), AcceptToks(m, toks), t)
    ensures AcceptToks(m, toks + [t]) == Accept(AcceptToks(m, toks), t.typ)
  {
    hide Feed, Accept;
    assert (toks + [t])[..|toks|] == toks;
    AcceptConcat(m, toks, [t]);
    assert [t][1..] == [];
    assert AcceptToks(AcceptToks(m, toks), [t]) == Accept(AcceptToks(m, toks), t.typ);
  }

  lemma {:induction false} FeedConcat(d: Doc, m: Mode, a: seq<Tok>, b: seq<Tok>)
    ensures FeedAll(d, m, a + b) == FeedAll(FeedAll(d, m, a), AcceptToks(m, a), b)
    ensures AcceptToks(m, a + b) == AcceptToks(AcceptToks(m, a), b)
    decreases |b|
  {
    hide Feed, Accept;
    AcceptConcat(m, a, b);
    if b == [] {
      assert a + b == a;
    } else {
      var most, last := b[..|b| - 1], b[|b| - 1];
      assert a + b == (a + most) + [last] && b == most + [last];
      FeedConcat(d, m, a, most);
      FeedSnoc(d, m, a + most, last);
      FeedSnoc(FeedAll(d, m, a), AcceptToks(m, a), most, last);
    }
  }

  lemma FeedOne(d: Doc, m: Mode, t: Tok)
    ensures FeedAll(d, m, [t]) == Feed(d, m, t) && AcceptToks(m, [t]) == Accept(m, t.typ)
  {
    hide Feed, Accept;
    FeedSnoc(d, m, [], t);
    assert [] + [t] == [t];
  }

  /** The same for the items of the lexer. */
  lemma {:induction false} SameMode(items: seq<Item>)
    ensures AcceptAll(AtTop, items) == AcceptToks(AtTop, Toks(items))
  {
    if items != [] {
      var most, last := items[..|items| - 1], items[|items| - 1];
      SameMode(most);
      assert Toks(items) == Toks(most) + [Bare(last)];
      FeedSnoc(NOTHING, AtTop, Toks(most), Bare(last));
    }
  }

  lemma ReadItem(items: seq<Item>, it: Item)
    ensures Document(Toks(items + [it])) == Feed(Document(Toks(items)), AcceptAll(AtTop, items), Bare(it))
  {
    hide Feed;
    SameMode(items);
    assert Toks(items + [it]) == Toks(items) + [Bare(it)];
    FeedSnoc(NOTHING, AtTop, Toks(items), Bare(it));
  }

  /** Statements are only ever added, and a fault stays. */
  lemma {:induction false} ReadingGrows(toks: seq<Tok>, k: nat)
    requires k <= |toks|
    ensures |Document(toks[..k]).stmts| <= |Document(toks).stmts|
    ensures Document(toks[..k]).stmts == Document(toks).stmts[..|Document(toks[..k]).stmts|]
    ensures Document(toks[..k]).fault.Some? ==> Document(toks).fault == Document(toks[..k]).fault
  {
    if k < |toks| {
      var most := toks[..|toks| - 1];
      ReadingGrows(most, k);
      assert most[..k] == toks[..k];
    } else {
      assert toks[..k] == toks;
    }
  }

  // --- Arrays hold values of one type ----------------------------------------------------------------

  predicate AllUniform(elems: seq<Value>) { forall e <- elems :: Uniform(e) }

  predicate UniformDoc(d: Doc) {
    && (forall s <- d.stmts :: s.Pair? ==> Uniform(s.value))
    && (forall elems <- d.open :: AllUniform(elems))
  }

  lemma PushUniform(open: seq<seq<Value>>, v: Value)
    requires open != [] && Uniform(v) && forall elems <- open :: AllUniform(elems)
    ensures forall elems <- Push(open, v) :: AllUniform(elems)
  {
    hide Uniform;
    assert AllUniform(open[|open| - 1]);
    forall elems | elems in Push(open, v) ensures AllUniform(elems) {
      assert elems in open || elems == open[|open| - 1] + [v];
    }
  }

  lemma SettleUniform(d: Doc, next: Mode)
    requires UniformDoc(d)
    ensures UniformDoc(Settle(d, next))
  {
    hide Uniform;
    if d.open != [] && d.open[0] != [] { assert d.open[0] in d.open && d.open[0][0] in d.open[0]; }
  }

  lemma PrimitiveUniform(t: Tok)
    ensures ReadPrimitive(t).Got? ==> Uniform(ReadPrimitive(t).value)
  {
  }

  lemma FeedUniform(d: Doc, m: Mode, t: Tok)
    requires UniformDoc(d)
    ensures UniformDoc(Feed(d, m, t))
  {
    hide ReadPrimitive, Settle, Push, Mixed;
    PrimitiveUniform(t);
    var next := Accept(m, t.typ);
    if d.open != [] && ReadPrimitive(t).Got? {
      PushUniform(d.open, ReadPrimitive(t).value);
      SettleUniform(d.(open := Push(d.open, ReadPrimitive(t).value)), next);
    }
    if |d.open| >= 2 && !Mixed(d.open[|d.open| - 1]) {
      var elems, outer := d.open[|d.open| - 1], d.open[..|d.open| - 1];
      assert elems in d.open && forall e <- outer :: e in d.open;
      assert AllUniform(elems);
      PushUniform(outer, ArrayVal(elems));
      SettleUniform(d.(open := Push(outer, ArrayVal(elems))), next);
    }
    assert AllUniform([]);
  }

  /** Every array of every statement that is read holds values of one type, at every depth. */
  lemma {:induction false} DocumentUniform(toks: seq<Tok>)
    ensures UniformDoc(Document(toks))
  {
    hide Feed, UniformDoc;
    if toks == [] {
      assert UniformDoc(NOTHING) by { NothingUniform(); }
    } else {
      var most := toks[..|toks| - 1];
      DocumentUniform(most);
      FeedUniform(Document(most), AcceptToks(AtTop, most), toks[|toks| - 1]);
    }
  }

  lemma NothingUniform() ensures UniformDoc(NOTHING) {}
}
