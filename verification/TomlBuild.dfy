/** establishContext and setValue as functions from state to state, and, beside them, what they accept and
    build told from the statements alone. */
module TomlBuild {
  import opened Bytes
  import opened TomlTables
  import opened TomlReading

  /** SyntaxError: an error item of the lexer. BadValue: a number out of range or an array of mixed types.
      Refused: a table or key that clashes with what is there. Spinning: the lexer never returns.
      Crashed: a Go run-time panic. Bug: the source's own BUG branch, which ends the process. */
  datatype Outcome = Accepted | SyntaxError | BadValue | Refused | Spinning | Crashed | Bug

  datatype Build = Build(mapping: Dict, implicits: map<seq<byte>, bool>, context: Path, ordered: seq<Path>)

  datatype Built = Built(outcome: Outcome, state: Build)

  const BLANK := Build(EMPTY, map[], [], [])

  predicate Marked(implicits: map<seq<byte>, bool>, name: seq<byte>) { name in implicits && implicits[name] }

  // --- The code, as functions ------------------------------------------------------------------------

  /** One table on the way to a header's last name: made, and marked, when it is missing. */
  function Enter(b: Build, at: Path, name: Name): Built {
    match Walk(b.mapping, at)
    case None => Built(Refused, b)
    case Some(hash) =>
      if name !in hash.entries then
        Built(Accepted, b.(mapping := Put(b.mapping, at, name, Table(EMPTY)), implicits := b.implicits[Dotted(at + [name]) := true]))
      else Built(if hash.entries[name].Leaf? then Refused else Accepted, b)
  }

  /** The first i names of a header. */
  function EnterAll(b: Build, path: Path, i: nat): Built
    requires i <= |path|
  {
    if i == 0 then Built(Accepted, b)
    else
      var before := EnterAll(b, path, i - 1);
      if before.outcome != Accepted then before else Enter(before.state, path[..i - 1], path[i - 1])
  }

  /** A further element of an array of tables. */
  function AppendIn(b: Build, name: Name): Built {
    match Walk(b.mapping, b.context)
    case None => Built(Crashed, b)
    case Some(hash) =>
      if name !in hash.entries then Built(Accepted, b.(mapping := Put(b.mapping, b.context, name, Tables([], EMPTY))))
      else
        match hash.entries[name]
        case Tables(closed, last) =>
          Built(Accepted, b.(mapping := Put(b.mapping, b.context, name, Tables(closed + [last], EMPTY))))
        case _ => Built(Refused, b)
  }

  /** setValue */
  function SetIn(b: Build, key: Name, entry: Entry): Built {
    match Walk(b.mapping, b.context)
    case None => Built(Bug, b)
    case Some(hash) =>
      var name := Dotted(b.context + [key]);
      if key !in hash.entries then Built(Accepted, b.(mapping := Put(b.mapping, b.context, key, entry)))
      else if Marked(b.implicits, name) then Built(Accepted, b.(implicits := b.implicits[name := false]))
      else Built(Refused, b)
  }

  /** The last name of a header. */
  function SetLast(b: Build, last: Name, ofArray: bool): Built {
    if ofArray then AppendIn(b, last) else SetIn(b, last, Table(EMPTY))
  }

  /** establishContext */
  function Establish(b: Build, path: Path, ofArray: bool): Built {
    if path == [] then Built(Crashed, b)
    else
      var most, last := path[..|path| - 1], path[|path| - 1];
      var entered := EnterAll(b, path, |path| - 1);
      if entered.outcome != Accepted then entered
      else
        var done := SetLast(entered.state.(context := most), last, ofArray);
        if done.outcome != Accepted then done else Built(Accepted, done.state.(context := path))
  }

  /** Adds an accepted path to the list of all paths. */
  function Listed(r: Built, path: Path): Built {
    if r.outcome == Accepted then Built(Accepted, r.state.(ordered := r.state.ordered + [path])) else r
  }

  function Apply(b: Build, s: Stmt): Built {
    match s
    case Pair(key, value) => Listed(SetIn(b, key, Leaf(value)), b.context + [key])
    case Header(path, ofArray) => Listed(Establish(b, path, ofArray), path)
  }

  /** A document, up to the first statement that is not accepted. */
  function BuildAll(stmts: seq<Stmt>): Built {
    if stmts == [] then Built(Accepted, BLANK)
    else
      var before := BuildAll(stmts[..|stmts| - 1]);
      if before.outcome != Accepted then before else Apply(before.state, stmts[|stmts| - 1])
  }

  // --- The same from the statements alone --------------------------------------------------------------

  /** The table header in force after some statements. */
  function Scope(history: seq<Stmt>): Path {
    if history == [] then []
    else
      var last := history[|history| - 1];
      if last.Header? then last.path else Scope(history[..|history| - 1])
  }

  /** The path a statement defines, after others. */
  function PathOf(history: seq<Stmt>, s: Stmt): Path {
    match s
    case Pair(key, _) => Scope(history) + [key]
    case Header(path, _) => path
  }

  function Given(s: Stmt): Kind {
    match s
    case Pair(_, value) => AValue(value)
    case Header(_, ofArray) => if ofArray then AnArray(0) else ATable
  }

  /** A further element of an array of tables starts empty. */
  predicate Resets(s: Stmt, path: Path) { s.Header? && s.ofArray && s.path < path }

  /** What stands at a path after some statements: what the first of them to reach it made of it, since
      the last reset. */
  function KindBy(history: seq<Stmt>, path: Path): Kind {
    if history == [] then Nothing
    else
      var before, s := history[..|history| - 1], history[|history| - 1];
      KindNext(KindBy(before, path), PathOf(before, s), s, path)
  }

  function KindNext(was: Kind, here: Path, s: Stmt, path: Path): Kind {
    if Resets(s, path) then Nothing
    else if was.AnArray? && s == Header(path, true) then AnArray(was.closed + 1)
    else if !was.Nothing? then was
    else if path == here then Given(s)
    else if s.Header? && path < here then ATable
    else Nothing
  }

  /** A header marks every table it has to make on its way. */
  predicate Marks(history: seq<Stmt>, s: Stmt, name: seq<byte>) {
    s.Header? && exists i | 0 < i < |s.path| :: Dotted(s.path[..i]) == name && KindBy(history, s.path[..i]).Nothing?
  }

  /** Defining what is there already takes the mark away. */
  predicate Unmarks(history: seq<Stmt>, s: Stmt, name: seq<byte>) {
    var here := PathOf(history, s);
    !(s.Header? && s.ofArray) && name == Dotted(here) && !KindBy(history, here).Nothing?
  }

  predicate MarkedBy(history: seq<Stmt>, name: seq<byte>) {
    history != [] &&
    var before, s := history[..|history| - 1], history[|history| - 1];
    Marks(before, s, name) || (MarkedBy(before, name) && !Unmarks(before, s, name))
  }

  predicate Free(history: seq<Stmt>, path: Path) {
    KindBy(history, path).Nothing? || MarkedBy(history, Dotted(path))
  }

  /** The header in force names a value. */
  predicate OverValue(history: seq<Stmt>) {
    Scope(history) != [] && KindBy(history, Scope(history)).AValue?
  }

  /** A value stands on the way to a path. */
  predicate Blocked(history: seq<Stmt>, path: Path) {
    exists i | 0 < i < |path| :: KindBy(history, path[..i]).AValue?
  }

  function Verdict(history: seq<Stmt>, s: Stmt): Outcome {
    match s
    case Pair(key, _) =>
      if OverValue(history) then Bug else if Free(history, PathOf(history, s)) then Accepted else Refused
    case Header(path, ofArray) =>
      if path == [] then Crashed
      else if Blocked(history, path) then Refused
      else if ofArray then
        if KindBy(history, path).Nothing? || KindBy(history, path).AnArray? then Accepted else Refused
      else if Free(history, path) then Accepted else Refused
  }

  function OutcomeBy(history: seq<Stmt>): Outcome {
    if history == [] then Accepted
    else
      var before := history[..|history| - 1];
      if OutcomeBy(before) != Accepted then OutcomeBy(before) else Verdict(before, history[|history| - 1])
  }

  function Places(history: seq<Stmt>): seq<Path> {
    if history == [] then []
    else
      var before := history[..|history| - 1];
      Places(before) + [PathOf(before, history[|history| - 1])]
  }

  // --- They agree ----------------------------------------------------------------------------------------

  ghost predicate SameKinds(d: Dict, history: seq<Stmt>) {
    forall path: Path | path != [] :: KindAt(d, path) == KindBy(history, path)
  }

  ghost predicate SameMarks(implicits: map<seq<byte>, bool>, history: seq<Stmt>) {
    forall name :: Marked(implicits, name) <==> MarkedBy(history, name)
  }

  predicate ScopeStands(history: seq<Stmt>) {
    Scope(history) != [] ==> !KindBy(history, Scope(history)).Nothing?
  }

  ghost predicate Agrees(b: Build, history: seq<Stmt>) {
    && SameKinds(b.mapping, history) && SameMarks(b.implicits, history)
    && b.context == Scope(history) && b.ordered == Places(history) && ScopeStands(history)
  }

  lemma Snoc(history: seq<Stmt>, s: Stmt)
    ensures (history + [s])[..|history|] == history
    ensures Scope(history + [s]) == if s.Header? then s.path else Scope(history)
    ensures Places(history + [s]) == Places(history) + [PathOf(history, s)]
    ensures OutcomeBy(history + [s]) == if OutcomeBy(history) != Accepted then OutcomeBy(history) else Verdict(history, s)
    ensures BuildAll(history + [s]) ==
      if BuildAll(history).outcome != Accepted then BuildAll(history) else Apply(BuildAll(history).state, s)
  {
    hide Verdict, Apply, PathOf;
    assert (history + [s])[..|history|] == history;
  }

  lemma KindSnoc(history: seq<Stmt>, s: Stmt, path: Path)
    ensures KindBy(history + [s], path) == KindNext(KindBy(history, path), PathOf(history, s), s, path)
  {
    hide KindNext, PathOf;
    assert (history + [s])[..|history|] == history;
  }

  lemma MarkSnoc(history: seq<Stmt>, s: Stmt, name: seq<byte>)
    ensures MarkedBy(history + [s], name) <==>
      Marks(history, s, name) || (MarkedBy(history, name) && !Unmarks(history, s, name))
  {
    hide Marks, Unmarks;
    assert (history + [s])[..|history|] == history;
  }

  // A header's way.

  predicate WayBlocked(d: Dict, path: Path, i: nat)
    requires i <= |path|
  {
    exists j | 0 < j <= i :: KindAt(d, path[..j]).AValue?
  }

  predicate WayMarks(d: Dict, path: Path, i: nat, name: seq<byte>)
    requires i <= |path|
  {
    exists j | 0 < j <= i :: Dotted(path[..j]) == name && KindAt(d, path[..j]).Nothing?
  }

  /** What the first i names of a header leave behind. */
  ghost predicate Entered(b: Build, b': Build, path: Path, i: nat)
    requires i <= |path|
  {
    && (forall p: Path | p != [] ::
          KindAt(b'.mapping, p) == if KindAt(b.mapping, p).Nothing? && p <= path[..i] then ATable else KindAt(b.mapping, p))
    && (forall p: Path | p != [] :: ClosedAt(b'.mapping, p) == ClosedAt(b.mapping, p))
    && (forall name :: Marked(b'.implicits, name) <==> Marked(b.implicits, name) || WayMarks(b.mapping, path, i, name))
    && b'.context == b.context && b'.ordered == b.ordered
    && Walk(b'.mapping, path[..i]).Some?
  }

  lemma ClosedOf(d: Dict, p: Path)
    requires p != [] && !KindAt(d, p).AnArray?
    ensures ClosedAt(d, p) == []
  {
  }

  /** Making a missing table. */
  lemma MakeTable(d: Dict, at: Path, name: Name, p: Path)
    requires Walk(d, at).Some? && KindAt(d, at + [name]).Nothing? && p != []
    ensures KindAt(Put(d, at, name, Table(EMPTY)), p) == if p == at + [name] then ATable else KindAt(d, p)
    ensures ClosedAt(Put(d, at, name, Table(EMPTY)), p) == ClosedAt(d, p)
  {
    hide KindAt, ClosedAt, Put, Walk;
    var here := at + [name];
    PutKind(d, at, name, Table(EMPTY), p);
    if here < p && !KindAt(d, p).Nothing? { KindAbove(d, p, here); }
    if here <= p {
      ClosedOf(d, p);
      ClosedOf(Put(d, at, name, Table(EMPTY)), p);
    }
  }

  lemma EnterStep(b: Build, path: Path, i: nat)
    requires i < |path| && Walk(b.mapping, path[..i]).Some?
    ensures var r := Enter(b, path[..i], path[i]);
      var was := KindAt(b.mapping, path[..i + 1]);
      && r.outcome == (if was.AValue? then Refused else Accepted)
      && (was.Nothing? ==>
           r.state == b.(mapping := Put(b.mapping, path[..i], path[i], Table(EMPTY)), implicits := b.implicits[Dotted(path[..i + 1]) := true]))
      && (!was.Nothing? ==> r.state == b)
      && (!was.AValue? ==> Walk(r.state.mapping, path[..i + 1]).Some?)
  {
    hide Walk, Put, Find;
    assert path[..i] + [path[i]] == path[..i + 1];
    FindsIn(b.mapping, path[..i], path[i]);
    var r := Enter(b, path[..i], path[i]);
    KindWalks(b.mapping, path[..i + 1]);
    if KindAt(b.mapping, path[..i + 1]).Nothing? {
      MakeTable(b.mapping, path[..i], path[i], path[..i + 1]);
      KindWalks(r.state.mapping, path[..i + 1]);
    }
  }

  lemma {:induction false} EnterAllDoes(b: Build, path: Path, i: nat)
    requires i <= |path|
    ensures EnterAll(b, path, i).outcome == if WayBlocked(b.mapping, path, i) then Refused else Accepted
    ensures EnterAll(b, path, i).outcome == Accepted ==> Entered(b, EnterAll(b, path, i).state, path, i)
  {
    hide Walk, Put, KindAt, ClosedAt, Dotted, Enter;
    if i == 0 {
      RootWalks(b.mapping);
    } else {
      EnterAllDoes(b, path, i - 1);
      var before := EnterAll(b, path, i - 1);
      if before.outcome == Accepted {
        EnterStep(before.state, path, i - 1);
        assert path[..i - 1] + [path[i - 1]] == path[..i];
        EnteredStep(b, before.state, EnterAll(b, path, i).state, path, i);
      }
    }
  }

  lemma RootWalks(d: Dict) ensures Walk(d, []).Some? {}

  lemma EnteredStep(b: Build, before: Build, after: Build, path: Path, i: nat)
    requires 0 < i <= |path| && Entered(b, before, path, i - 1)
    requires var was := KindAt(before.mapping, path[..i]);
      && (was.Nothing? ==>
           after == before.(mapping := Put(before.mapping, path[..i - 1], path[i - 1], Table(EMPTY)), implicits := before.implicits[Dotted(path[..i]) := true]))
      && (!was.Nothing? ==> after == before)
      && (!was.AValue? ==> Walk(after.mapping, path[..i]).Some?)
    ensures !KindAt(b.mapping, path[..i]).AValue? ==> Entered(b, after, path, i)
    ensures KindAt(before.mapping, path[..i]).AValue? <==> KindAt(b.mapping, path[..i]).AValue?
  {
    hide Walk, Put, KindAt, ClosedAt, Dotted;
    var here := path[..i];
    assert here != [] && !(here <= path[..i - 1]);
    assert path[..i - 1] + [path[i - 1]] == here;
    assert KindAt(before.mapping, here) == KindAt(b.mapping, here);
    if !KindAt(b.mapping, here).AValue? {
      forall p: Path | p != []
        ensures KindAt(after.mapping, p) == if KindAt(b.mapping, p).Nothing? && p <= here then ATable else KindAt(b.mapping, p)
        ensures ClosedAt(after.mapping, p) == ClosedAt(b.mapping, p)
      {
        PrefixesOf(path, i, p);
        if KindAt(b.mapping, here).Nothing? { MakeTable(before.mapping, path[..i - 1], path[i - 1], p); }
      }
      WayMarksStep(b.mapping, path, i);
    }
  }

  lemma WayMarksStep(d: Dict, path: Path, i: nat)
    requires 0 < i <= |path|
    ensures forall name :: WayMarks(d, path, i, name) <==>
      WayMarks(d, path, i - 1, name) || (Dotted(path[..i]) == name && KindAt(d, path[..i]).Nothing?)
  {
    hide Dotted, KindAt;
  }

  lemma PrefixesOf(path: Path, i: nat, p: Path)
    requires 0 < i <= |path|
    ensures p <= path[..i] <==> p <= path[..i - 1] || p == path[..i]
  {
    if p <= path[..i] && p != path[..i] {
      assert |p| <= i - 1 && p == path[..|p|];
    }
  }

  lemma {:induction false} EnterAllStops(b: Build, path: Path, i: nat, j: nat)
    requires i <= j <= |path| && EnterAll(b, path, i).outcome != Accepted
    ensures EnterAll(b, path, j) == EnterAll(b, path, i)
    decreases j
  {
    hide Enter;
    if i < j { EnterAllStops(b, path, i, j - 1); }
  }

  // The last name.

  /** One entry more at `here`, if there was none. */
  ghost predicate Added(d: Dict, d': Dict, here: Path, kind: Kind)
    requires here != []
  {
    forall p: Path | p != [] ::
      && KindAt(d', p) == (if p == here && KindAt(d, p).Nothing? then kind else KindAt(d, p))
      && ClosedAt(d', p) == ClosedAt(d, p)
  }

  lemma AddEntry(d: Dict, at: Path, name: Name, entry: Entry)
    requires Walk(d, at).Some? && KindAt(d, at + [name]).Nothing? && (entry.Leaf? || entry == Table(EMPTY))
    ensures Added(d, Put(d, at, name, entry), at + [name], KindOf(entry))
  {
    hide KindAt, ClosedAt, Put, Walk;
    var here, d' := at + [name], Put(d, at, name, entry);
    forall p: Path | p != []
      ensures KindAt(d', p) == (if p == here && KindAt(d, p).Nothing? then KindOf(entry) else KindAt(d, p))
      ensures ClosedAt(d', p) == ClosedAt(d, p)
    {
      PutKind(d, at, name, entry, p);
      if here < p && !KindAt(d, p).Nothing? { KindAbove(d, p, here); }
      if here <= p {
        ClosedOf(d, p);
        ClosedOf(d', p);
      }
    }
  }

  lemma SetDoes(b: Build, key: Name, entry: Entry)
    requires entry.Leaf? || entry == Table(EMPTY)
    ensures var here, r := b.context + [key], SetIn(b, key, entry);
      && r.outcome == (if Walk(b.mapping, b.context) == None then Bug
                       else if KindAt(b.mapping, here).Nothing? || Marked(b.implicits, Dotted(here)) then Accepted else Refused)
      && (r.outcome == Accepted ==>
            && Added(b.mapping, r.state.mapping, here, KindOf(entry))
            && r.state == b.(mapping := r.state.mapping, implicits := r.state.implicits)
            && r.state.implicits == if KindAt(b.mapping, here).Nothing? then b.implicits else b.implicits[Dotted(here) := false])
  {
    hide Walk, Put, Find, ClosedAt, Dotted;
    FindsIn(b.mapping, b.context, key);
    if Walk(b.mapping, b.context).Some? && KindAt(b.mapping, b.context + [key]).Nothing? {
      AddEntry(b.mapping, b.context, key, entry);
    }
  }

  /** A further element at `here`. */
  ghost predicate Appended(d: Dict, d': Dict, here: Path)
    requires here != []
  {
    && (forall p: Path | p != [] ::
          KindAt(d', p) == if p == here then AnArray(|ClosedAt(d', p)|) else if here < p then Nothing else KindAt(d, p))
    && (forall p: Path | p != [] && p != here && !(here < p) :: ClosedAt(d', p) == ClosedAt(d, p))
    && ClosedAt(d', here) == if KindAt(d, here).AnArray? && Walk(d, here).Some? then ClosedAt(d, here) + [Walk(d, here).value] else []
  }

  lemma AppendDoes(b: Build, key: Name)
    requires Walk(b.mapping, b.context).Some?
    ensures var here, r := b.context + [key], AppendIn(b, key);
      && r.outcome == (if KindAt(b.mapping, here).Nothing? || KindAt(b.mapping, here).AnArray? then Accepted else Refused)
      && (r.outcome == Accepted ==> Appended(b.mapping, r.state.mapping, here) && r.state == b.(mapping := r.state.mapping))
  {
    hide Walk, Put, Find;
    var here, r := b.context + [key], AppendIn(b, key);
    FindsIn(b.mapping, b.context, key);
    if r.outcome == Accepted {
      var entry := if KindAt(b.mapping, here).Nothing? then Tables([], EMPTY)
        else Tables(Find(b.mapping, here).value.closed + [Find(b.mapping, here).value.last], EMPTY);
      WalkAppend(b.mapping, b.context, key);
      PutFound(b.mapping, b.context, key, entry);
      FindsIn(r.state.mapping, b.context, key);
      forall p: Path | p != []
        ensures KindAt(r.state.mapping, p) == if p == here then KindOf(entry) else if here < p then Nothing else KindAt(b.mapping, p)
        ensures p != here && !(here < p) ==> ClosedAt(r.state.mapping, p) == ClosedAt(b.mapping, p)
      {
        PutKind(b.mapping, b.context, key, entry, p);
      }
    }
  }

  // Whole statements.

  lemma ContextWalks(b: Build, history: seq<Stmt>)
    requires Agrees(b, history)
    ensures Walk(b.mapping, b.context).Some? <==> !OverValue(history)
  {
    hide KindAt, KindBy, Scope;
    if b.context == [] { RootWalks(b.mapping); } else { KindWalks(b.mapping, b.context); }
  }

  lemma PairAgrees(b: Build, history: seq<Stmt>, s: Stmt)
    requires Agrees(b, history) && s.Pair?
    ensures Apply(b, s).outcome == Verdict(history, s)
    ensures Apply(b, s).outcome == Accepted ==> Agrees(Apply(b, s).state, history + [s])
  {
    hide KindAt, KindBy, ClosedAt, Walk, Dotted, Scope, Places, SetIn, MarkedBy, BuildAll, OutcomeBy;
    var here, after := b.context + [s.key], Apply(b, s).state;
    ContextWalks(b, history);
    SetDoes(b, s.key, Leaf(s.value));
    if Apply(b, s).outcome == Accepted {
      forall p: Path | p != [] ensures KindAt(after.mapping, p) == KindBy(history + [s], p) { KindSnoc(history, s, p); }
      forall name ensures Marked(after.implicits, name) <==> MarkedBy(history + [s], name) { MarkSnoc(history, s, name); }
      Snoc(history, s);
      if b.context != [] { KindSnoc(history, s, b.context); }
    }
  }

  /** The dotted name of a path is longer than that of any table on the way. */
  lemma {:induction false} DottedLonger(path: Path, i: nat)
    requires 0 < i < |path|
    ensures |Dotted(path[..i])| < |Dotted(path)|
    decreases |path|
  {
    if i > 1 {
      assert path[..i][1..] == path[1..][..i - 1];
      DottedLonger(path[1..], i - 1);
    }
  }

  lemma WayAgrees(d: Dict, history: seq<Stmt>, path: Path, ofArray: bool)
    requires SameKinds(d, history) && path != []
    ensures WayBlocked(d, path, |path| - 1) <==> Blocked(history, path)
    ensures forall name :: WayMarks(d, path, |path| - 1, name) <==> Marks(history, Header(path, ofArray), name)
    ensures !WayMarks(d, path, |path| - 1, Dotted(path))
  {
    hide KindAt, KindBy, Dotted;
    forall i | 0 < i < |path| ensures Dotted(path[..i]) != Dotted(path) { DottedLonger(path, i); }
  }

  lemma HeaderOutcome(b: Build, history: seq<Stmt>, s: Stmt)
    requires Agrees(b, history) && s.Header? && s.path != []
    ensures Apply(b, s).outcome == Verdict(history, s)
    ensures Apply(b, s).outcome == Accepted ==>
      var most := s.path[..|s.path| - 1];
      var entered := EnterAll(b, s.path, |s.path| - 1).state;
      var done := SetLast(entered.(context := most), s.path[|s.path| - 1], s.ofArray).state;
      && Entered(b, entered, s.path, |s.path| - 1)
      && Apply(b, s).state == done.(context := s.path, ordered := done.ordered + [s.path])
      && (s.ofArray ==> Appended(entered.mapping, done.mapping, s.path) && done == entered.(context := most, mapping := done.mapping))
      && (!s.ofArray ==>
            && Added(entered.mapping, done.mapping, s.path, ATable)
            && done == entered.(context := most, mapping := done.mapping, implicits := done.implicits)
            && done.implicits == if KindAt(entered.mapping, s.path).Nothing? then entered.implicits else entered.implicits[Dotted(s.path) := false])
  {
    hide KindAt, KindBy, ClosedAt, Walk, Dotted, Scope, Places, SetIn, AppendIn, MarkedBy, EnterAll;
    var path := s.path;
    var most, last := path[..|path| - 1], path[|path| - 1];
    assert most + [last] == path;
    EnterAllDoes(b, path, |path| - 1);
    WayAgrees(b.mapping, history, path, s.ofArray);
    var entered := EnterAll(b, path, |path| - 1);
    if entered.outcome == Accepted {
      assert !(path <= most);
      var inside := entered.state.(context := most);
      if s.ofArray { AppendDoes(inside, last); } else { SetDoes(inside, last, Table(EMPTY)); }
    }
  }

  lemma HeaderAgrees(b: Build, history: seq<Stmt>, s: Stmt)
    requires Agrees(b, history) && s.Header? && s.path != []
    ensures Apply(b, s).outcome == Verdict(history, s)
    ensures Apply(b, s).outcome == Accepted ==> Agrees(Apply(b, s).state, history + [s])
  {
    hide KindAt, KindBy, ClosedAt, Walk, Dotted, Scope, Places, MarkedBy, EnterAll, Apply, Verdict, BuildAll, OutcomeBy, SetLast;
    HeaderOutcome(b, history, s);
    if Apply(b, s).outcome == Accepted {
      HeaderKinds(b, history, s);
      HeaderMarks(b, history, s);
      Snoc(history, s);
      assert Apply(b, s).state.ordered == b.ordered + [s.path];
      KindSnoc(history, s, s.path);
    }
  }

  lemma HeaderKinds(b: Build, history: seq<Stmt>, s: Stmt)
    requires Agrees(b, history) && s.Header? && s.path != [] && Apply(b, s).outcome == Accepted
    ensures SameKinds(Apply(b, s).state.mapping, history + [s])
  {
    hide KindAt, KindBy, ClosedAt, Walk, Dotted, Scope, Places, MarkedBy, EnterAll, Apply, SetLast;
    HeaderOutcome(b, history, s);
    var after, most := Apply(b, s).state.mapping, s.path[..|s.path| - 1];
    var entered := EnterAll(b, s.path, |s.path| - 1).state.mapping;
    assert s.path[..|s.path|] == s.path;
    forall p: Path | p != [] ensures KindAt(after, p) == KindBy(history + [s], p) {
      KindSnoc(history, s, p);
      PrefixesOf(s.path, |s.path|, p);
      if s.ofArray && p == s.path { CountClosed(entered, p); CountClosed(after, p); }
    }
  }

  lemma CountClosed(d: Dict, p: Path)
    requires p != []
    ensures KindAt(d, p).AnArray? ==> KindAt(d, p) == AnArray(|ClosedAt(d, p)|) && Walk(d, p).Some?
    ensures !KindAt(d, p).AnArray? ==> ClosedAt(d, p) == []
  {
    KindWalks(d, p);
  }

  lemma HeaderMarks(b: Build, history: seq<Stmt>, s: Stmt)
    requires Agrees(b, history) && s.Header? && s.path != [] && Apply(b, s).outcome == Accepted
    ensures SameMarks(Apply(b, s).state.implicits, history + [s])
  {
    hide KindAt, KindBy, ClosedAt, Walk, Dotted, Scope, Places, MarkedBy, EnterAll, Apply, Verdict, SetLast;
    HeaderOutcome(b, history, s);
    WayAgrees(b.mapping, history, s.path, s.ofArray);
    forall name ensures Marked(Apply(b, s).state.implicits, name) <==> MarkedBy(history + [s], name) {
      MarkSnoc(history, s, name);
    }
  }

  /** The tables and the statements tell the same story: a document is accepted, refused or runs into the
      BUG branch exactly as its statements say, and then the tables hold what they say and nothing else. */
  lemma {:induction false} Agreement(history: seq<Stmt>)
    ensures BuildAll(history).outcome == OutcomeBy(history)
    ensures OutcomeBy(history) == Accepted ==> Agrees(BuildAll(history).state, history)
  {
    hide Apply, Verdict, Agrees;
    if history == [] {
      BlankAgrees();
    } else {
      var before, s := history[..|history| - 1], history[|history| - 1];
      assert before + [s] == history;
      Agreement(before);
      if OutcomeBy(before) == Accepted { ApplyAgrees(BuildAll(before).state, before, s); }
    }
  }

  lemma BlankAgrees()
    ensures Agrees(BLANK, [])
  {
    forall p: Path | p != [] ensures KindAt(EMPTY, p) == Nothing {
      assert p[..|p| - 1] == [] || Walk(EMPTY, p[..|p| - 1]) == None;
    }
  }

  lemma ApplyAgrees(b: Build, history: seq<Stmt>, s: Stmt)
    requires Agrees(b, history)
    ensures Apply(b, s).outcome == Verdict(history, s)
    ensures Apply(b, s).outcome == Accepted ==> Agrees(Apply(b, s).state, history + [s])
  {
    hide Agrees;
    if s.Pair? { PairAgrees(b, history, s); } else if s.path != [] { HeaderAgrees(b, history, s); }
  }
}
