/** Which texts the lexer gets to the end of: those in which every multi-line string that is opened is closed. */
module LexHalting {
  import opened Bytes
  import opened TokenGrammar
  import opened StringEscapes
  import opened LexMachine

  ghost predicate Halts(input: seq<byte>) { exists n: nat :: Run(input, START, n).to.st.Halt? }

  ghost predicate ReachesSpin(input: seq<byte>) { exists n: nat :: Spins(input, Run(input, START, n).to) }

  /** Lexing a text ends exactly when it never comes to spin. */
  lemma HaltsOrSpins(input: seq<byte>)
    requires Terminated(input)
    ensures Halts(input) <==> !ReachesSpin(input)
  {
    hide Run, Good;
    StartIsGood(input);
    var n := RunSettles(input, START, AtTop);
    forall i: nat, j: nat | Run(input, START, i).to.st.Halt? ensures !Spins(input, Run(input, START, j).to) {
      HaltNotSpin(input, i, j);
    }
  }

  lemma HaltNotSpin(input: seq<byte>, i: nat, j: nat)
    requires Run(input, START, i).to.st.Halt?
    ensures !Spins(input, Run(input, START, j).to)
  {
    hide Run;
    var halted, spun := Run(input, START, i).to, Run(input, START, j).to;
    if j <= i {
      RunTwice(input, START, j, i - j);
      if Spins(input, spun) { SpinningStays(input, spun, i - j); }
    } else {
      RunTwice(input, START, i, j - i);
      HaltedStays(input, halted, j - i);
    }
  }

  // --- Strings that are never closed -----------------------------------------------------------------

  predicate RawTriple(input: seq<byte>, i: nat) { Triple(input, i) && input[i] == APOSTROPHE }

  /** Nothing from i on closes a multi-line string: no three apostrophes in a raw one; in the other kind no
      three quotes but those that escapes reach over, and every escape up to the end of the text is one. */
  predicate Unclosed(input: seq<byte>, i: nat, raw: bool)
    decreases |input| - i
  {
    if i >= |input| then i == |input|
    else if raw then !RawTriple(input, i) && Unclosed(input, i + 1, raw)
    else if input[i] == BACKSLASH then UnclosedEscape(input, i + 1)
    else !TripleQuote(input, i) && Unclosed(input, i + 1, raw)
  }

  /** The same behind a backslash. A newline that is escaped takes one more character with it. */
  predicate UnclosedEscape(input: seq<byte>, i: nat)
    decreases |input| - i
  {
    var c := At(input, i);
    i < |input|
    && if IsNL(c) then Unclosed(input, Over(input, i + 1), false)
       else if IsEscapable(c) then Unclosed(input, i + 1, false)
       else c == LOWER_U && UnclosedUnicode(input, i + 1)
  }

  predicate UnclosedUnicode(input: seq<byte>, i: nat)
    decreases |input| - i
  {
    i < |input| && FourHex(input, i) && Unclosed(input, i + 4, false)
  }

  /** Without escapes that is to say that no closing quotes follow at all. */
  lemma {:induction false} UnclosedPlainly(input: seq<byte>, i: nat, raw: bool)
    requires i <= |input| && (raw || BACKSLASH !in input[i..])
    ensures Unclosed(input, i, raw) <==> forall j :: i <= j < |input| ==> if raw then !RawTriple(input, j) else !TripleQuote(input, j)
    decreases |input| - i
  {
    if i < |input| {
      assert input[i] == input[i..][0] && forall b <- input[i + 1..] :: b in input[i..];
      UnclosedPlainly(input, i + 1, raw);
    }
  }

  /** Where a machine is in such a string. */
  predicate StillOpen(input: seq<byte>, m: Machine) {
    match m.st
    case MlStr => Unclosed(input, m.pos, false)
    case MlRawStr => Unclosed(input, m.pos, true)
    case MlStrEscape => UnclosedEscape(input, m.pos)
    case MlStrUnicode => UnclosedUnicode(input, m.pos)
    case _ => false
  }

  /** A value begins that is a multi-line string, and is not closed. */
  predicate OpensUnclosed(input: seq<byte>, m: Machine) {
    m.st.Value? && Triple(input, m.pos) && Unclosed(input, m.pos + 3, input[m.pos] == APOSTROPHE)
  }

  lemma OpeningStep(input: seq<byte>, m: Machine)
    requires m.st.Value?
    ensures var to := StepOf(input, m).to;
      && (MultiLine(to.st) ==> (StillOpen(input, to) <==> OpensUnclosed(input, m)))
      && (OpensUnclosed(input, m) ==> MultiLine(to.st))
  {
    hide Unclosed;
  }

  /** Inside a string a step neither opens nor closes it for good. */
  lemma OpenStep(input: seq<byte>, m: Machine)
    requires MultiLine(m.st) && m.pos <= |input|
    ensures var to := StepOf(input, m).to;
      && (StillOpen(input, m) ==> StillOpen(input, to) && (m.pos < to.pos <= |input| || Spins(input, m)))
      && (MultiLine(to.st) && StillOpen(input, to) && Calm(m) ==> StillOpen(input, m))
  {
  }

  lemma {:induction false} ComesToSpin(input: seq<byte>, m: Machine) returns (n: nat)
    requires StillOpen(input, m) && m.pos <= |input|
    ensures Spins(input, Run(input, m, n).to)
    decreases |input| - m.pos
  {
    hide Unclosed, UnclosedEscape, UnclosedUnicode, StepOf;
    if Spins(input, m) {
      n := 0;
    } else {
      OpenStep(input, m);
      n := ComesToSpin(input, StepOf(input, m).to);
      n := n + 1;
    }
  }

  /** No return state is inside a multi-line string. */
  predicate Calm(m: Machine) {
    && (forall s <- m.stack :: !MultiLine(s) && !s.Skip?)
    && (m.st.Skip? ==> !MultiLine(m.st.next) && !m.st.next.Skip?)
  }

  predicate CalmMove(m: Machine, to: Machine) { Calm(to) && (MultiLine(to.st) ==> MultiLine(m.st) || m.st.Value?) }

  lemma CalmStep(input: seq<byte>, m: Machine)
    requires Calm(m)
    ensures CalmMove(m, StepOf(input, m).to)
  {
    if InValue(m.st) {
      CalmInValue(input, m);
    } else if InHeader(m.st) || InBrackets(m.st) {
      CalmInBrackets(input, m);
    } else {
      CalmOutside(input, m);
    }
  }

  lemma CalmInValue(input: seq<byte>, m: Machine)
    requires Calm(m) && InValue(m.st)
    ensures CalmMove(m, StepOf(input, m).to)
  {
    hide Triple, FourHex, IsDateTail;
  }

  lemma CalmInBrackets(input: seq<byte>, m: Machine)
    requires Calm(m) && (InHeader(m.st) || InBrackets(m.st))
    ensures CalmMove(m, StepOf(input, m).to)
  {
  }

  lemma CalmOutside(input: seq<byte>, m: Machine)
    requires Calm(m) && !InValue(m.st) && !InHeader(m.st) && !InBrackets(m.st)
    ensures CalmMove(m, StepOf(input, m).to)
  {
    hide TrimSpace;
  }

  lemma {:induction false} CalmRun(input: seq<byte>, m: Machine, n: nat)
    requires Calm(m)
    ensures Calm(Run(input, m, n).to)
    decreases n
  {
    hide StepOf, Calm;
    if n > 0 {
      CalmStep(input, m);
      CalmRun(input, StepOf(input, m).to, n - 1);
    }
  }

  lemma LastStep(input: seq<byte>, n: nat)
    ensures Run(input, START, n + 1).to == StepOf(input, Run(input, START, n).to).to
  {
    hide StepOf;
    var m := Run(input, START, n).to;
    RunTwice(input, START, n, 1);
    assert Run(input, m, 1).to == Run(input, StepOf(input, m).to, 0).to;
  }

  lemma Reached(input: seq<byte>, n: nat)
    requires Terminated(input)
    ensures var m := Run(input, START, n).to; m.pos <= |input| && Calm(m)
  {
    hide Run, Good;
    StartIsGood(input);
    RunKeeps(input, START, AtTop, n);
    GoodMeans(input, Run(input, START, n).to, AcceptToks(AtTop, Run(input, START, n).out));
    CalmRun(input, START, n);
  }

  /** A string that is open has been opened. */
  lemma {:induction false} OpenedBefore(input: seq<byte>, n: nat) returns (j: nat)
    requires Terminated(input) && StillOpen(input, Run(input, START, n).to)
    ensures j < n && OpensUnclosed(input, Run(input, START, j).to)
    decreases n
  {
    hide StepOf, Calm, OpensUnclosed, Unclosed, UnclosedEscape, UnclosedUnicode;
    if n > 0 {
      var before := Run(input, START, n - 1).to;
      LastStep(input, n - 1);
      Reached(input, n - 1);
      CalmStep(input, before);
      if MultiLine(before.st) {
        OpenStep(input, before);
        j := OpenedBefore(input, n - 1);
      } else {
        OpeningStep(input, before);
        j := n - 1;
      }
    }
  }

  /** Lexing a text ends exactly when every multi-line string that is opened on the way is closed. */
  lemma HaltsExactly(input: seq<byte>)
    requires Terminated(input)
    ensures Halts(input) <==> forall n: nat :: !OpensUnclosed(input, Run(input, START, n).to)
  {
    hide Run, Halts, StepOf, OpensUnclosed, StillOpen, Spins;
    HaltsOrSpins(input);
    forall n: nat | OpensUnclosed(input, Run(input, START, n).to) ensures ReachesSpin(input) {
      UnclosedReachesSpin(input, n);
    }
    if ReachesSpin(input) {
      var n: nat :| Spins(input, Run(input, START, n).to);
      SpinsOpen(input, Run(input, START, n).to);
      var j := OpenedBefore(input, n);
    }
  }

  lemma SpinsOpen(input: seq<byte>, m: Machine)
    requires Spins(input, m)
    ensures StillOpen(input, m)
  {
  }

  lemma UnclosedReachesSpin(input: seq<byte>, n: nat)
    requires Terminated(input) && OpensUnclosed(input, Run(input, START, n).to)
    ensures ReachesSpin(input)
  {
    hide Run, StepOf, Unclosed, Spins;
    var m := Run(input, START, n).to;
    OpeningStep(input, m);
    LastStep(input, n);
    Reached(input, n + 1);
    var k := ComesToSpin(input, StepOf(input, m).to);
    RunTwice(input, START, n + 1, k);
    SpinReached(input, n + 1 + k);
  }

  /** The text a=""" and its newline */
  const UNCLOSED: seq<byte> := [97, EQUALS, QUOTE, QUOTE, QUOTE, NL]

  /** An unclosed multi-line string is never left. */
  lemma UnclosedSpins()
    ensures Terminated(UNCLOSED) && !Halts(UNCLOSED)
  {
    hide Halts, ReachesSpin, Run, TrimSpace;
    var s := UNCLOSED;
    var m1 := Machine(KeyStart, [TopEnd], 0, 0);
    var m2 := Machine(Key, [TopEnd], 0, 1);
    var m3 := Machine(KeyEnd, [TopEnd], 1, 1);
    var m4 := Machine(Skip(Value), [TopEnd], 1, 2);
    var m5 := Machine(Value, [TopEnd], 2, 2);
    var m6 := Machine(MlStr, [TopEnd], 5, 5);
    assert StepOf(s, START).to == m1;
    assert StepOf(s, m1).to == m2;
    assert StepOf(s, m2).to == m3;
    assert StepOf(s, m3).to == m4;
    assert StepOf(s, m4).to == m5;
    assert StepOf(s, m5).to == m6;
    var m7 := StepOf(s, m6).to;
    assert Spins(s, m7);
    OneMore(s, m6, 0); OneMore(s, m5, 1); OneMore(s, m4, 2); OneMore(s, m3, 3);
    OneMore(s, m2, 4); OneMore(s, m1, 5); OneMore(s, START, 6);
    Standing(s, m7);
    assert Spins(s, Run(s, START, 7).to);
    assert ReachesSpin(s) by { SpinReached(s, 7); }
    HaltsOrSpins(s);
  }

  lemma OneMore(input: seq<byte>, m: Machine, n: nat)
    ensures Run(input, m, n + 1).to == Run(input, StepOf(input, m).to, n).to
  {
    hide StepOf;
  }

  lemma Standing(input: seq<byte>, m: Machine) ensures Run(input, m, 0).to == m {}

  lemma SpinReached(input: seq<byte>, n: nat)
    requires Spins(input, Run(input, START, n).to)
    ensures ReachesSpin(input)
  {
    hide Run, Spins;
  }
}
