/** The token language the TOML parser assumes: a pushdown acceptor over item types. */
module TokenGrammar {
  import opened Bytes

  const EOF: byte := 0
  const TAB: byte := 9
  const SPACE: byte := 32
  const HASH: byte := 35
  const APOSTROPHE: byte := 39
  const COMMA: byte := 44
  const EQUALS: byte := 61
  const OPEN: byte := 91
  const CLOSE: byte := 93
  const LOWER_F: byte := 102
  const LOWER_T: byte := 116

  predicate IsWhitespace(r: byte) { r == TAB || r == SPACE }

  predicate IsNL(r: byte) { r == NL || r == CR }

  datatype ItemType =
    | ItemError | ItemEOF | ItemText
    | ItemString | ItemRawString | ItemMultilineString | ItemRawMultilineString
    | ItemBool | ItemInteger | ItemFloat | ItemDatetime
    | ItemArray | ItemArrayEnd
    | ItemTableStart | ItemTableEnd | ItemArrayTableStart | ItemArrayTableEnd
    | ItemKeyStart | ItemCommentStart

  datatype Item = Item(typ: ItemType, val: seq<byte>, line: nat)

  /** An item without its line number. */
  datatype Tok = Tok(typ: ItemType, val: seq<byte>)

  function Bare(it: Item): Tok { Tok(it.typ, it.val) }

  function Toks(items: seq<Item>): seq<Tok> { seq(|items|, i requires 0 <= i < |items| => Bare(items[i])) }

  predicate IsPrimitive(t: ItemType) {
    t in {ItemString, ItemRawString, ItemMultilineString, ItemRawMultilineString,
          ItemBool, ItemInteger, ItemFloat, ItemDatetime}
  }

  /** What the parser is waiting for. Bad is a BUG branch of the parser; Failed is what follows the
      first error item, after which the parser reads no more. */
  datatype Mode =
    | AtTop
    | TopComment
    | Names(ofArray: bool, some: bool)
    | KeyName
    | WantValue
    | InArray(depth: nat)
    | ArrayComment(depth: nat)
    | Done
    | Failed
    | Bad

  /** The mode inside `depth` open arrays when a value may come. */
  function ValueMode(depth: nat): Mode { if depth == 0 then WantValue else InArray(depth) }

  function Accept(m: Mode, t: ItemType): Mode {
    if m.Failed? || m.Bad? then m
    else if t.ItemError? && !m.Done? then Failed
    else match m
      case AtTop =>
        if t.ItemCommentStart? then TopComment
        else if t.ItemTableStart? then Names(false, false)
        else if t.ItemArrayTableStart? then Names(true, false)
        else if t.ItemKeyStart? then KeyName
        else if t.ItemEOF? then Done
        else Bad
      case TopComment => if t.ItemText? then AtTop else Bad
      case Names(ofArray, some) =>
        if t.ItemText? then Names(ofArray, true)
        else if some && t == (if ofArray then ItemArrayTableEnd else ItemTableEnd) then AtTop
        else Bad
      case KeyName => if t.ItemText? then WantValue else Bad
      case WantValue => if IsPrimitive(t) then AtTop else if t.ItemArray? then InArray(1) else Bad
      case InArray(d) =>
        if IsPrimitive(t) then m
        else if t.ItemArray? then InArray(d + 1)
        else if t.ItemCommentStart? then ArrayComment(d)
        else if t.ItemArrayEnd? then (if d <= 1 then AtTop else InArray(d - 1))
        else Bad
      case ArrayComment(d) => if t.ItemText? then InArray(d) else Bad
      case Done => Bad
  }

  function AcceptAll(m: Mode, items: seq<Item>): Mode {
    if items == [] then m else Accept(AcceptAll(m, items[..|items| - 1]), items[|items| - 1].typ)
  }

  /** What the lexer guarantees about the text of an item. */
  predicate WellFormed(t: Tok) {
    && (t.typ.ItemBool? ==> t.val == TRUE || t.val == FALSE)
    && (t.typ.ItemInteger? ==> IsInteger(t.val))
  }

  /** Nothing in it ends a key, and white space around it is gone. */
  predicate KeyLike(name: seq<byte>) {
    && (name != [] ==> !IsSpace(name[0]) && !IsSpace(name[|name| - 1]))
    && forall b <- name :: b != HASH && b != EQUALS && !IsNL(b)
  }

  predicate EndsNoName(b: byte) { b != DOT && b != CLOSE && b != EOF }

  /** Nothing in it ends a name in a header. */
  predicate NameLike(name: seq<byte>) { name != [] && forall b <- name :: EndsNoName(b) }

  /** The same with what depends on the place: a key is trimmed, a name in a header ends at a dot. */
  predicate Proper(m: Mode, t: Tok) {
    && WellFormed(t)
    && (m.KeyName? && t.typ.ItemText? ==> KeyLike(t.val))
    && (m.Names? && t.typ.ItemText? ==> NameLike(t.val))
  }

  const TRUE: seq<byte> := [116, 114, 117, 101]
  const FALSE: seq<byte> := [102, 97, 108, 115, 101]

  predicate IsInteger(s: seq<byte>) {
    var digits := if s != [] && s[0] == MINUS then s[1..] else s;
    digits != [] && AllDigits(digits)
  }

  /** Every item before the first error is well formed. */
  predicate Trusted(log: seq<Item>) {
    log == [] ||
    var before, last := log[..|log| - 1], log[|log| - 1];
    Trusted(before) && (AcceptAll(AtTop, log).Failed? || Proper(AcceptAll(AtTop, before), Bare(last)))
  }

  /** The same for a few tokens, from the front. */
  function AcceptToks(m: Mode, out: seq<Tok>): Mode
    decreases |out|
  {
    if out == [] then m else AcceptToks(Accept(m, out[0].typ), out[1..])
  }

  /** Every token before the first error is well formed. */
  predicate Sound(m: Mode, out: seq<Tok>)
    decreases |out|
  {
    out == [] ||
    ((Accept(m, out[0].typ).Failed? || Proper(m, out[0])) && Sound(Accept(m, out[0].typ), out[1..]))
  }

  lemma {:induction false} AcceptConcat(m: Mode, a: seq<Tok>, b: seq<Tok>)
    ensures AcceptToks(m, a + b) == AcceptToks(AcceptToks(m, a), b)
    ensures Sound(m, a + b) <==> Sound(m, a) && Sound(AcceptToks(m, a), b)
    decreases |a|
  {
    hide Accept, Proper;
    if a == [] {
      assert a + b == b;
    } else {
      assert (a + b)[1..] == a[1..] + b;
      AcceptConcat(Accept(m, a[0].typ), a[1..], b);
    }
  }

  /** Recording sound tokens. */
  lemma {:induction false} TrustGrows(log: seq<Item>, more: seq<Item>, out: seq<Tok>)
    requires Trusted(log) && Sound(AcceptAll(AtTop, log), out) && |more| == |out|
    requires forall k :: 0 <= k < |out| ==> Bare(more[k]) == out[k]
    ensures Trusted(log + more) && AcceptAll(AtTop, log + more) == AcceptToks(AcceptAll(AtTop, log), out)
    decreases |more|
  {
    hide Accept, Proper;
    if more == [] {
      assert log + more == log;
    } else {
      TrustOne(log, more[0], out[0]);
      TrustGrows(log + [more[0]], more[1..], out[1..]);
      assert log + [more[0]] + more[1..] == log + more;
    }
  }

  lemma TrustOne(log: seq<Item>, it: Item, t: Tok)
    requires Trusted(log) && Bare(it) == t
    requires Accept(AcceptAll(AtTop, log), t.typ).Failed? || Proper(AcceptAll(AtTop, log), t)
    ensures Trusted(log + [it]) && AcceptAll(AtTop, log + [it]) == Accept(AcceptAll(AtTop, log), t.typ)
  {
    AcceptSnoc(AtTop, log, it);
    assert (log + [it])[..|log|] == log;
  }

  lemma {:induction false} BadIsForGood(m: Mode, items: seq<Item>, k: nat)
    requires k <= |items| && AcceptAll(m, items) != Bad
    ensures AcceptAll(m, items[..k]) != Bad
  {
    if k < |items| {
      BadIsForGood(m, items[..|items| - 1], k);
      assert items[..|items| - 1][..k] == items[..k];
    } else {
      assert items[..k] == items;
    }
  }

  lemma AcceptSnoc(m: Mode, items: seq<Item>, it: Item)
    ensures AcceptAll(m, items + [it]) == Accept(AcceptAll(m, items), it.typ)
  {
    assert (items + [it])[..|items|] == items;
  }
}
