/** The two halves of a TOML basic string: quotedReplacer on the way out (encode.go), replaceEscapes
    and replaceUnicode on the way in (parse.go). */
module StringEscapes {
  import opened Bytes

  const QUOTE: byte := 34
  const BACKSLASH: byte := 92
  const LOWER_U: byte := 117

  /** What quotedReplacer makes of one byte. */
  function QuoteByte(b: byte): (q: seq<byte>)
    ensures q == [b] || (|q| == 2 && q[0] == BACKSLASH)
  {
    if b == 9 then [BACKSLASH, 116]
    else if b == 10 then [BACKSLASH, 110]
    else if b == 13 then [BACKSLASH, 114]
    else if b == QUOTE then [BACKSLASH, QUOTE]
    else if b == BACKSLASH then [BACKSLASH, BACKSLASH]
    else [b]
  }

  function Quote(s: seq<byte>): seq<byte> {
    if s == [] then [] else QuoteByte(s[0]) + Quote(s[1..])
  }

  /** The byte an escape character stands for. */
  function Escaped(b: byte): Option<byte> {
    if b == 98 then Some(8)
    else if b == 116 then Some(9)
    else if b == 110 then Some(10)
    else if b == 102 then Some(12)
    else if b == 114 then Some(13)
    else if b == QUOTE then Some(QUOTE)
    else if b == 47 then Some(47)
    else if b == BACKSLASH then Some(BACKSLASH)
    else None
  }

  /** replaceEscapes: left to right, without overlaps. */
  function ReplaceEscapes(s: seq<byte>): seq<byte>
    decreases |s|
  {
    if |s| < 2 then s
    else if s[0] == BACKSLASH && Escaped(s[1]).Some? then [Escaped(s[1]).value] + ReplaceEscapes(s[2..])
    else [s[0]] + ReplaceEscapes(s[1..])
  }

  predicate UnicodeMark(s: seq<byte>, i: nat) { i + 1 < |s| && s[i] == BACKSLASH && s[i + 1] == LOWER_U }

  /** Position of the first \u, or -1. */
  function IndexMark(s: seq<byte>): (i: int)
    ensures -1 <= i < |s|
    ensures i >= 0 ==> UnicodeMark(s, i)
    ensures i == -1 <==> forall k: nat :: !UnicodeMark(s, k)
  {
    if UnicodeMark(s, 0) then 0
    else if s == [] then -1
    else
      var j := IndexMark(s[1..]);
      assert forall k: nat :: UnicodeMark(s[1..], k) <==> UnicodeMark(s, k + 1);
      assert forall k: nat :: k > 0 && UnicodeMark(s, k) ==> UnicodeMark(s[1..], k - 1);
      if j == -1 then -1 else j + 1
  }

  function HexDigit(b: byte): Option<nat> {
    if 48 <= b <= 57 then Some(b as nat - 48)
    else if 97 <= b <= 102 then Some(b as nat - 87)
    else if 65 <= b <= 70 then Some(b as nat - 55)
    else None
  }

  function HexValue(s: seq<byte>): Option<nat> {
    if s == [] then Some(0)
    else match (HexValue(s[..|s| - 1]), HexDigit(s[|s| - 1]))
      case (Some(v), Some(d)) => Some(16 * v + d)
      case _ => None
  }

  /** string(rune(r)) for r below 0x10000: surrogates become U+FFFD. */
  function Utf8(r: nat): (s: seq<byte>)
    ensures r < 0x10000 ==> 1 <= |s| <= 3
  {
    var c := if 0xD800 <= r <= 0xDFFF || r >= 0x10000 then 0xFFFD else r;
    if c < 0x80 then [c as byte]
    else if c < 0x800 then [(0xC0 + c / 64) as byte, (0x80 + c % 64) as byte]
    else [(0xE0 + c / 4096) as byte, (0x80 + c / 64 % 64) as byte, (0x80 + c % 64) as byte]
  }

  /** strings.Replace(s, old, by, -1) for a six-byte old. */
  function ReplaceAll(s: seq<byte>, what: seq<byte>, put: seq<byte>): seq<byte>
    requires |what| == 6
    decreases |s|
  {
    if |s| < 6 then s
    else if s[..6] == what then put + ReplaceAll(s[6..], what, put)
    else [s[0]] + ReplaceAll(s[1..], what, put)
  }

  /** Replacing by something shorter never lengthens, and shortens when `what` occurs, at `at`. */
  lemma {:induction false} ReplaceAllShrinks(s: seq<byte>, what: seq<byte>, put: seq<byte>, at: int)
    requires |what| == 6 && |put| < 6
    requires at >= 0 ==> at + 6 <= |s| && s[at..at + 6] == what
    ensures |ReplaceAll(s, what, put)| <= |s|
    ensures at >= 0 ==> |ReplaceAll(s, what, put)| < |s|
    decreases |s|
  {
    if |s| >= 6 {
      if s[..6] == what {
        ReplaceAllShrinks(s[6..], what, put, -1);
      } else {
        assert at > 0 ==> s[1..][at - 1..at - 1 + 6] == s[at..at + 6];
        ReplaceAllShrinks(s[1..], what, put, at - 1);
      }
    }
  }

  /** None: the source crashes, on a slice out of range or in its BUG branch. */
  function ReplaceUnicode(s: seq<byte>): Option<seq<byte>>
    decreases |s|
  {
    var i := IndexMark(s);
    if i == -1 then Some(s)
    else if i + 6 > |s| then None
    else match HexValue(s[i + 2..i + 6])
      case None => None
      case Some(code) =>
        HexBound(s[i + 2..i + 6]);
        ReplaceAllShrinks(s, s[i..i + 6], Utf8(code), i);
        ReplaceUnicode(ReplaceAll(s, s[i..i + 6], Utf8(code)))
  }

  lemma HexBound(s: seq<byte>)
    requires |s| == 4
    ensures HexValue(s).Some? ==> HexValue(s).value < 0x10000
  {
    assert HexValue(s[..0]) == Some(0);
    assert s[..1][..0] == s[..0] && s[..2][..1] == s[..1] && s[..3][..2] == s[..2];
    assert HexValue(s[..1]).Some? ==> HexValue(s[..1]).value < 16;
    assert HexValue(s[..2]).Some? ==> HexValue(s[..2]).value < 256;
    assert HexValue(s[..3]).Some? ==> HexValue(s[..3]).value < 4096;
  }

  lemma {:induction false} UnicodeNeverGrows(s: seq<byte>)
    ensures ReplaceUnicode(s).Some? ==> |ReplaceUnicode(s).value| <= |s|
    ensures ReplaceUnicode(s).Some? && IndexMark(s) != -1 ==> |ReplaceUnicode(s).value| < |s|
    decreases |s|
  {
    var i := IndexMark(s);
    if i != -1 && i + 6 <= |s| && HexValue(s[i + 2..i + 6]).Some? {
      var what, put := s[i..i + 6], Utf8(HexValue(s[i + 2..i + 6]).value);
      HexBound(s[i + 2..i + 6]);
      ReplaceAllShrinks(s, what, put, i);
      UnicodeNeverGrows(ReplaceAll(s, what, put));
    }
  }

  /** Whatever follows it, a quoted byte is read back as that byte. */
  lemma QuotedByteBack(b: byte, rest: seq<byte>)
    ensures ReplaceEscapes(QuoteByte(b) + rest) == [b] + ReplaceEscapes(rest)
  {
    var q := QuoteByte(b);
    var s := q + rest;
    if |q| == 2 {
      assert s[2..] == rest;
    } else if rest == [] {
      assert s == [b] && ReplaceEscapes(rest) == [];
    } else {
      assert s[1..] == rest;
    }
  }

  /** Escapes undo quoting on every byte string. */
  lemma {:induction false} EscapesUndoQuote(s: seq<byte>)
    ensures ReplaceEscapes(Quote(s)) == s
  {
    hide ReplaceEscapes, QuoteByte;
    if s == [] {
      NothingEscaped();
    } else {
      QuotedByteBack(s[0], Quote(s[1..]));
      EscapesUndoQuote(s[1..]);
      assert s == [s[0]] + s[1..];
    }
  }

  lemma NothingEscaped() ensures ReplaceEscapes([]) == [] {}

  /** stripFirstNewline and stripEscapedWhitespace, which tidy multi-line strings. */
  function StripFirstNewline(s: seq<byte>): seq<byte> { if s != [] && s[0] == NL then s[1..] else s }

  function TrimLeft(s: seq<byte>): (t: seq<byte>)
    ensures |t| <= |s| && (t != [] ==> !IsSpace(t[0]))
  {
    if s != [] && IsSpace(s[0]) then TrimLeft(s[1..]) else s
  }

  /** A backslash at the end of a line, that line end, and the white space after it go. */
  function StripEscapedWhitespace(s: seq<byte>): (t: seq<byte>)
    ensures t != [] && t[0] == NL ==> s != [] && s[0] == NL
    ensures forall k :: 0 <= k < |t| - 1 ==> !(t[k] == BACKSLASH && t[k + 1] == NL)
    decreases |s|
  {
    if |s| < 2 then s
    else if s[0] == BACKSLASH && s[1] == NL then StripEscapedWhitespace(TrimLeft(s[2..]))
    else [s[0]] + StripEscapedWhitespace(s[1..])
  }

  predicate EscapesNoLineEnd(s: seq<byte>) { forall k :: 0 <= k < |s| - 1 ==> !(s[k] == BACKSLASH && s[k + 1] == NL) }

  lemma NorItsTail(s: seq<byte>)
    requires EscapesNoLineEnd(s) && s != []
    ensures EscapesNoLineEnd(s[1..])
  {
    forall k | 0 <= k < |s[1..]| - 1 ensures !(s[1..][k] == BACKSLASH && s[1..][k + 1] == NL) {
      assert !(s[k + 1] == BACKSLASH && s[k + 1 + 1] == NL);
    }
  }

  /** Text without an escaped line end is kept as it is. */
  lemma {:induction false} StripKeeps(s: seq<byte>)
    requires EscapesNoLineEnd(s)
    ensures StripEscapedWhitespace(s) == s
    decreases |s|
  {
    if |s| >= 2 {
      NorItsTail(s);
      StripKeeps(s[1..]);
    }
  }

  /** What is in front of the first escaped line end is kept, the line end and the white space behind it go,
      and the rest is treated alike. */
  lemma {:induction false} StripSplits(a: seq<byte>, white: seq<byte>, b: seq<byte>)
    requires EscapesNoLineEnd(a) && (forall w <- white :: IsSpace(w)) && (b != [] ==> !IsSpace(b[0]))
    ensures StripEscapedWhitespace(a + ([BACKSLASH, NL] + (white + b))) == a + StripEscapedWhitespace(b)
    decreases |a|
  {
    var tail := [BACKSLASH, NL] + (white + b);
    var s := a + tail;
    if a == [] {
      assert s == tail && s[2..] == white + b;
      TrimsWhite(white, b);
      Units(StripEscapedWhitespace(b));
    } else {
      assert s[1..] == a[1..] + tail;
      NorItsTail(a);
      NoneInFront(a, tail);
      StripSplits(a[1..], white, b);
      HeadFirst(a, StripEscapedWhitespace(b));
    }
  }

  lemma NoneInFront(a: seq<byte>, tail: seq<byte>)
    requires EscapesNoLineEnd(a) && a != [] && |tail| > 1 && tail[0] == BACKSLASH
    ensures !((a + tail)[0] == BACKSLASH && (a + tail)[1] == NL)
  {
    if |a| > 1 { assert (a + tail)[0] == a[0] && (a + tail)[1] == a[0 + 1]; }
  }

  lemma HeadFirst(a: seq<byte>, b: seq<byte>)
    requires a != []
    ensures [a[0]] + (a[1..] + b) == a + b
  {
  }

  lemma {:induction false} TrimsWhite(white: seq<byte>, b: seq<byte>)
    requires (forall w <- white :: IsSpace(w)) && (b != [] ==> !IsSpace(b[0]))
    ensures TrimLeft(white + b) == b
    decreases |white|
  {
    if white == [] {
      Units(b);
    } else {
      assert (white + b)[1..] == white[1..] + b;
      assert white[0] in white;
      TrimsWhite(white[1..], b);
    }
  }

  /** What the parser makes of a basic string's raw text. */
  function Unquote(raw: seq<byte>): Option<seq<byte>> { ReplaceUnicode(ReplaceEscapes(raw)) }

  /** The round trip holds exactly on the strings that do not contain \u: on any other string the
      decoder crashes or returns something shorter. */
  lemma QuoteRoundTrip(s: seq<byte>)
    ensures Unquote(Quote(s)) == Some(s) <==> forall i: nat :: !UnicodeMark(s, i)
    ensures Unquote(Quote(s)).Some? ==> |Unquote(Quote(s)).value| <= |s|
  {
    EscapesUndoQuote(s);
    UnicodeNeverGrows(s);
  }
}
