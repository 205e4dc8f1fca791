/** What documents are refused, which values they hold, and when the parser reaches its BUG branch, all in
    terms of the statements of the document. */
module TomlClashes {
  import opened Bytes
  import opened TokenGrammar
  import opened TomlTables
  import opened TomlReading
  import opened TomlBuild

  predicate NoArrays(history: seq<Stmt>) { forall s <- history :: s.Header? ==> !s.ofArray }

  /** The names in the headers have no dot. The lexer ends such a name at a dot. */
  predicate NamesSplit(history: seq<Stmt>) { forall s <- history :: s.Header? ==> DotFree(s.path) }

  predicate KeysDotFree(history: seq<Stmt>) { forall s <- history :: s.Pair? ==> DOT !in s.key }

  predicate HeadersNamed(history: seq<Stmt>) { forall s <- history :: s.Header? ==> s.path != [] }

  // --- What the lexer makes sure of --------------------------------------------------------------------

  predicate SplitSoFar(d: Doc, m: Mode) {
    && NamesSplit(d.stmts) && HeadersNamed(d.stmts)
    && (m.Names? && d.fault == None ==> DotFree(d.names) && (m.some ==> d.names != []))
  }

  lemma SplitStep(d: Doc, m: Mode, t: Tok)
    requires SplitSoFar(d, m) && Accept(m, t.typ) != Bad && (Accept(m, t.typ).Failed? || Proper(m, t))
    ensures SplitSoFar(Feed(d, m, t), Accept(m, t.typ))
  {
    hide ReadPrimitive, Push, WellFormed;
    if m.Names? && t.typ.ItemText? { assert NameLike(t.val); }
  }

  /** A name in a header of a document never has a dot, and no header is empty. */
  lemma {:induction false} HeadersSplit(items: seq<Item>)
    requires Trusted(items) && AcceptAll(AtTop, items) != Bad
    ensures NamesSplit(Document(Toks(items)).stmts) && HeadersNamed(Document(Toks(items)).stmts)
    ensures SplitSoFar(Document(Toks(items)), AcceptAll(AtTop, items))
    decreases |items|
  {
    hide Feed, Accept, Proper, SplitSoFar;
    if items == [] {
      NothingSplit();
    } else {
      var before, last := items[..|items| - 1], items[|items| - 1];
      assert before + [last] == items;
      BadIsForGood(AtTop, items, |before|);
      HeadersSplit(before);
      ReadItem(before, last);
      SplitStep(Document(Toks(before)), AcceptAll(AtTop, before), Bare(last));
      SplitMeans(Document(Toks(items)), AcceptAll(AtTop, items));
    }
  }

  lemma NothingSplit()
    ensures SplitSoFar(NOTHING, AtTop)
  {
  }

  lemma SplitMeans(d: Doc, m: Mode)
    requires SplitSoFar(d, m)
    ensures NamesSplit(d.stmts) && HeadersNamed(d.stmts)
  {
  }

  // --- The values ------------------------------------------------------------------------------------

  /** The i-th statement gives `path` its value: nothing stood there, and no array of tables that the path
      goes through has started a new element since. */
  predicate Gives(history: seq<Stmt>, i: nat, path: Path, v: Value) {
    && i < |history| && history[i].Pair? && history[i].value == v && PathOf(history[..i], history[i]) == path
    && KindBy(history[..i], path).Nothing?
    && forall k | i < k < |history| :: !Resets(history[k], path)
  }

  /** The values of a document are those its statements give, and no others. */
  lemma {:induction false} ValuesExactly(history: seq<Stmt>, path: Path, v: Value)
    ensures KindBy(history, path) == AValue(v) <==> exists i: nat :: Gives(history, i, path, v)
    decreases |history|
  {
    hide KindBy, PathOf;
    if history == [] {
      KindOfNone(path);
    } else {
      var before, s := history[..|history| - 1], history[|history| - 1];
      var n := |before|;
      assert before + [s] == history;
      KindSnoc(before, s, path);
      ValuesExactly(before, path, v);
      GivesSnoc(before, s, path, v);
      forall i: nat ensures Gives(history, i, path, v) <==>
        (Gives(before, i, path, v) && !Resets(s, path)) || (i == n && Gives(history, n, path, v))
      {
        if i < n { GivesStays(before, s, i, path, v); }
      }
    }
  }

  lemma KindOfNone(path: Path) ensures KindBy([], path) == Nothing {}

  lemma GivesStays(before: seq<Stmt>, s: Stmt, i: nat, path: Path, v: Value)
    requires i < |before|
    ensures Gives(before + [s], i, path, v) <==> Gives(before, i, path, v) && !Resets(s, path)
  {
    hide KindBy, PathOf, Resets;
    var history := before + [s];
    assert history[..i] == before[..i] && history[i] == before[i];
    if Gives(history, i, path, v) {
      assert !Resets(history[|before|], path);
      forall k | i < k < |before| ensures !Resets(before[k], path) { assert !Resets(history[k], path); }
    }
  }

  lemma GivesSnoc(before: seq<Stmt>, s: Stmt, path: Path, v: Value)
    ensures Gives(before + [s], |before|, path, v) <==>
      s == Pair(if s.Pair? then s.key else [], v) && PathOf(before, s) == path && KindBy(before, path).Nothing?
  {
    hide KindBy, PathOf, Resets;
    assert (before + [s])[..|before|] == before;
  }

  // --- Marks -------------------------------------------------------------------------------------------

  predicate LeavesMark(history: seq<Stmt>, i: nat, name: seq<byte>) {
    && i < |history| && Marks(history[..i], history[i], name)
    && forall k | i < k < |history| :: !Unmarks(history[..k], history[k], name)
  }

  /** A mark stands when a header has set it and no statement has taken it away since. */
  lemma {:induction false} MarkedExactly(history: seq<Stmt>, name: seq<byte>)
    ensures MarkedBy(history, name) <==> exists i: nat :: LeavesMark(history, i, name)
    decreases |history|
  {
    hide Marks, Unmarks, MarkedBy;
    if history == [] {
      NoneMarked(name);
    } else {
      var before, s := history[..|history| - 1], history[|history| - 1];
      var n := |before|;
      assert before + [s] == history;
      MarkSnoc(before, s, name);
      MarkedExactly(before, name);
      assert history[..n] == before;
      assert LeavesMark(history, n, name) <==> Marks(before, s, name);
      forall i: nat ensures LeavesMark(history, i, name) <==>
        (LeavesMark(before, i, name) && !Unmarks(before, s, name)) || (i == n && Marks(before, s, name))
      {
        if i < n { LeavesStays(before, s, i, name); }
      }
    }
  }

  lemma NoneMarked(name: seq<byte>) ensures !MarkedBy([], name) {}

  lemma LeavesStays(before: seq<Stmt>, s: Stmt, i: nat, name: seq<byte>)
    requires i < |before|
    ensures LeavesMark(before + [s], i, name) <==> LeavesMark(before, i, name) && !Unmarks(before, s, name)
  {
    hide Marks, Unmarks;
    var history := before + [s];
    assert history[..i] == before[..i] && history[i] == before[i];
    assert history[..|before|] == before;
    forall k | i < k < |before| ensures history[..k] == before[..k] && history[k] == before[k] {}
    if LeavesMark(history, i, name) {
      assert !Unmarks(history[..|before|], history[|before|], name);
      forall k | i < k < |before| ensures !Unmarks(before[..k], before[k], name) {
        assert !Unmarks(history[..k], history[k], name);
      }
    }
  }

  // --- The BUG branch ----------------------------------------------------------------------------------

  /** The i-th statement is a table header that names a value but carries a mark, and a key follows. */
  predicate LosesTable(history: seq<Stmt>, i: nat) {
    && i + 1 < |history| && OutcomeBy(history[..i]) == Accepted
    && history[i].Header? && !history[i].ofArray && history[i + 1].Pair?
    && history[i].path != [] && KindBy(history[..i], history[i].path).AValue?
    && MarkedBy(history[..i], Dotted(history[i].path)) && !Blocked(history[..i], history[i].path)
  }

  /** The header in force can only name a value right behind a header that was accepted by mistake. */
  lemma OverValueWhy(before: seq<Stmt>, s: Stmt)
    requires OutcomeBy(before + [s]) == Accepted
    ensures OverValue(before + [s]) <==>
      && s.Header? && !s.ofArray && s.path != [] && KindBy(before, s.path).AValue?
      && MarkedBy(before, Dotted(s.path)) && !Blocked(before, s.path)
  {
    hide KindBy, MarkedBy, Scope, OutcomeBy, Places, BuildAll;
    Snoc(before, s);
    if s.Header? {
      KindSnoc(before, s, s.path);
    } else if Scope(before) != [] {
      KindSnoc(before, s, Scope(before));
      assert Scope(before) != PathOf(before, s);
    }
  }

  /** What is not accepted ends the parse. */
  lemma {:induction false} OutcomeStays(history: seq<Stmt>, k: nat)
    requires k <= |history|
    ensures OutcomeBy(history[..k]) != Accepted ==> OutcomeBy(history) == OutcomeBy(history[..k])
    decreases |history|
  {
    hide Verdict;
    if k < |history| {
      var before := history[..|history| - 1];
      OutcomeStays(before, k);
      assert before[..k] == history[..k];
    } else {
      assert history[..k] == history;
    }
  }

  lemma {:induction false} BuildStops(history: seq<Stmt>, k: nat)
    requires k <= |history|
    ensures BuildAll(history[..k]).outcome != Accepted ==> BuildAll(history) == BuildAll(history[..k])
    decreases |history|
  {
    hide Apply;
    if k < |history| {
      var before := history[..|history| - 1];
      BuildStops(before, k);
      assert before[..k] == history[..k];
    } else {
      assert history[..k] == history;
    }
  }

  lemma LosingHeaderBugs(history: seq<Stmt>, i: nat)
    requires LosesTable(history, i)
    ensures OutcomeBy(history) == Bug
  {
    hide OutcomeBy, KindBy, MarkedBy, Blocked, Scope, Places, BuildAll;
    var before, header, key := history[..i], history[i], history[i + 1];
    assert history[..i + 1] == before + [header];
    assert history[..i + 2] == before + [header] + [key];
    Snoc(before, header);
    OverValueWhy(before, header);
    Snoc(before + [header], key);
    OutcomeStays(history, i + 2);
  }

  lemma {:induction false} BugHasHeader(history: seq<Stmt>)
    requires OutcomeBy(history) == Bug
    ensures exists i: nat :: LosesTable(history, i)
    decreases |history|
  {
    hide KindBy, MarkedBy, Blocked, Scope, OverValue;
    var before, s := history[..|history| - 1], history[|history| - 1];
    if OutcomeBy(before) == Bug {
      BugHasHeader(before);
      var i: nat :| LosesTable(before, i);
      assert history[..i] == before[..i];
      assert LosesTable(history, i);
    } else if before == [] {
      NoScope();
    } else {
      var most, t := before[..|before| - 1], before[|before| - 1];
      assert most + [t] == before && history[..|most|] == most;
      OverValueWhy(most, t);
      assert LosesTable(history, |most|);
    }
  }

  lemma NoScope() ensures !OverValue([]) {}

  /** A document ends in the BUG branch exactly when it has such a header. */
  lemma BugExactly(history: seq<Stmt>)
    ensures BuildAll(history).outcome == Bug <==> exists i: nat :: LosesTable(history, i)
  {
    hide OutcomeBy, BuildAll, LosesTable;
    Agreement(history);
    if OutcomeBy(history) == Bug { BugHasHeader(history); }
    forall i: nat | LosesTable(history, i) ensures OutcomeBy(history) == Bug { LosingHeaderBugs(history, i); }
  }

  // --- No dots and no arrays -----------------------------------------------------------------------------

  lemma Fewer(before: seq<Stmt>, s: Stmt)
    requires NoArrays(before + [s]) && NamesSplit(before + [s])
    ensures NoArrays(before) && NamesSplit(before) && !(s.Header? && s.ofArray) && (s.Header? ==> DotFree(s.path))
    ensures KeysDotFree(before + [s]) ==> KeysDotFree(before) && (s.Pair? ==> DOT !in s.key)
  {
    hide DotFree;
    assert s in before + [s];
    forall t | t in before ensures t in before + [s] {}
  }

  lemma WayDotFree(path: Path, i: nat)
    requires i <= |path| && DotFree(path)
    ensures DotFree(path[..i])
  {
  }

  /** Without arrays of tables a mark always belongs to a table. */
  lemma {:induction false} MarksOnTables(history: seq<Stmt>, q: Path)
    requires NoArrays(history) && NamesSplit(history) && q != [] && DotFree(q)
    ensures MarkedBy(history, Dotted(q)) ==> KindBy(history, q) == ATable
    decreases |history|
  {
    hide MarkedBy, KindBy, DotFree, Dotted, Scope;
    if history == [] {
      NoneMarked(Dotted(q));
    } else {
      var before, s := history[..|history| - 1], history[|history| - 1];
      assert before + [s] == history;
      Fewer(before, s);
      MarksOnTables(before, q);
      KindSnoc(before, s, q);
      MarkSnoc(before, s, Dotted(q));
      if Marks(before, s, Dotted(q)) { MarkIsOf(before, s, q); }
    }
  }

  lemma MarkIsOf(before: seq<Stmt>, s: Stmt, q: Path)
    requires s.Header? && DotFree(s.path) && q != [] && DotFree(q) && Marks(before, s, Dotted(q))
    ensures q < s.path && KindBy(before, q).Nothing?
  {
    hide KindBy, DotFree, Dotted;
    var i :| 0 < i < |s.path| && Dotted(s.path[..i]) == Dotted(q) && KindBy(before, s.path[..i]).Nothing?;
    WayDotFree(s.path, i);
    DottedInjective(s.path[..i], q);
  }

  /** So without them the BUG branch is out of reach. */
  lemma NoArraysNoBug(history: seq<Stmt>)
    requires NoArrays(history) && NamesSplit(history)
    ensures OutcomeBy(history) != Bug
  {
    hide OutcomeBy, KindBy, MarkedBy, Blocked, DotFree;
    if OutcomeBy(history) == Bug {
      BugHasHeader(history);
      var i: nat :| LosesTable(history, i);
      assert history[i] in history;
      MarksOnTables(history[..i], history[i].path);
      assert false;
    }
  }

  /** In a document without dots in its names and without arrays of tables, the paths that have been
      defined are those that stand without a mark. */
  lemma {:induction false} DefinedExactly(history: seq<Stmt>, q: Path)
    requires OutcomeBy(history) == Accepted && NoArrays(history) && NamesSplit(history) && KeysDotFree(history)
    requires q != [] && DotFree(q)
    ensures q in Places(history) <==> !KindBy(history, q).Nothing? && !MarkedBy(history, Dotted(q))
    decreases |history|
  {
    hide MarkedBy, KindBy, DotFree, Dotted, Scope, Verdict, BuildAll;
    if history == [] {
      KindOfNone(q);
    } else {
      var before, s := history[..|history| - 1], history[|history| - 1];
      assert before + [s] == history;
      Fewer(before, s);
      Snoc(before, s);
      HeaderNamed(before, s);
      PlaceDotFree(before, s);
      DefinedExactly(before, q);
      MarksOnTables(before, q);
      if q == PathOf(before, s) { JustDefined(before, s, q); } else { DefinedElsewhere(before, s, q); }
    }
  }

  lemma JustDefined(before: seq<Stmt>, s: Stmt, q: Path)
    requires NoArrays(before + [s]) && NamesSplit(before + [s])
    requires q == PathOf(before, s) && q != [] && DotFree(q) && (MarkedBy(before, Dotted(q)) ==> KindBy(before, q) == ATable)
    ensures !KindBy(before + [s], q).Nothing? && !MarkedBy(before + [s], Dotted(q))
  {
    hide MarkedBy, KindBy, DotFree, Dotted, Scope;
    Fewer(before, s);
    KindSnoc(before, s, q);
    MarkSnoc(before, s, Dotted(q));
    if Marks(before, s, Dotted(q)) { MarkIsOf(before, s, q); }
  }

  lemma DefinedElsewhere(before: seq<Stmt>, s: Stmt, q: Path)
    requires NoArrays(before + [s]) && NamesSplit(before + [s]) && DotFree(PathOf(before, s)) && PathOf(before, s) != []
    requires q != PathOf(before, s) && q != [] && DotFree(q)
    requires MarkedBy(before, Dotted(q)) ==> KindBy(before, q) == ATable
    ensures !KindBy(before + [s], q).Nothing? && !MarkedBy(before + [s], Dotted(q)) <==>
      !KindBy(before, q).Nothing? && !MarkedBy(before, Dotted(q))
  {
    hide MarkedBy, KindBy, DotFree, Dotted, Scope;
    Fewer(before, s);
    KindSnoc(before, s, q);
    MarkSnoc(before, s, Dotted(q));
    if Marks(before, s, Dotted(q)) { MarkIsOf(before, s, q); }
    if Dotted(PathOf(before, s)) == Dotted(q) { DottedInjective(PathOf(before, s), q); }
    if s.Header? && q < s.path { assert q == s.path[..|q|]; }
  }

  lemma {:induction false} ScopeDotFree(history: seq<Stmt>)
    requires NamesSplit(history)
    ensures DotFree(Scope(history))
    decreases |history|
  {
    hide DotFree;
    if history == [] {
      assert DotFree([]) by { NoNames(); }
    } else {
      assert history[|history| - 1] in history;
      if history[|history| - 1].Pair? { ScopeDotFree(history[..|history| - 1]); }
    }
  }

  lemma NoNames() ensures DotFree([]) {}

  lemma PlaceDotFree(before: seq<Stmt>, s: Stmt)
    requires NamesSplit(before) && (s.Pair? ==> DOT !in s.key) && (s.Header? ==> DotFree(s.path))
    ensures DotFree(PathOf(before, s))
  {
    hide Scope;
    ScopeDotFree(before);
  }

  /** There a path can be defined once: a further statement is refused exactly when its own path has been
      defined before, or, for a header, when a value stands in its way. */
  lemma DefinedOnce(history: seq<Stmt>, s: Stmt)
    requires OutcomeBy(history) == Accepted && (s.Header? ==> s.path != [])
    requires NoArrays(history + [s]) && NamesSplit(history + [s]) && KeysDotFree(history + [s])
    ensures OutcomeBy(history + [s]) ==
      if PathOf(history, s) in Places(history) || (s.Header? && Blocked(history, s.path)) then Refused else Accepted
  {
    hide MarkedBy, KindBy, DotFree, Dotted, Scope, Blocked, Places, BuildAll, OutcomeBy;
    Fewer(history, s);
    PlaceDotFree(history, s);
    DefinedExactly(history, PathOf(history, s));
    Snoc(history, s);
    NoArraysNoBug(history + [s]);
  }

  /** The paths of an accepted document are all different. */
  lemma {:induction false} AllDifferent(history: seq<Stmt>, i: nat, j: nat)
    requires OutcomeBy(history) == Accepted && NoArrays(history) && NamesSplit(history) && KeysDotFree(history)
    requires i < j < |Places(history)|
    ensures Places(history)[i] != Places(history)[j]
    decreases |history|
  {
    hide DotFree, Scope, Verdict, BuildAll;
    var before, s := history[..|history| - 1], history[|history| - 1];
    assert before + [s] == history;
    Fewer(before, s);
    Snoc(before, s);
    if j < |Places(before)| {
      AllDifferent(before, i, j);
    } else {
      assert Verdict(before, s) == Accepted;
      HeaderNamed(before, s);
      DefinedOnce(before, s);
      assert Places(before)[i] in Places(before);
    }
  }

  lemma HeaderNamed(before: seq<Stmt>, s: Stmt)
    requires Verdict(before, s) == Accepted
    ensures s.Header? ==> s.path != []
  {
  }

  // --- With them -------------------------------------------------------------------------------------------

  /** What a statement has defined stands, until an array of tables above it starts a new element. */
  lemma {:induction false} Stands(history: seq<Stmt>, i: nat, q: Path)
    requires i < |history| && PathOf(history[..i], history[i]) == q && q != []
    requires forall k | i < k < |history| :: !Resets(history[k], q)
    ensures !KindBy(history, q).Nothing?
    decreases |history|
  {
    hide KindBy, PathOf;
    var before, s := history[..|history| - 1], history[|history| - 1];
    assert before + [s] == history;
    KindSnoc(before, s, q);
    if i < |before| {
      assert before[..i] == history[..i] && before[i] == history[i];
      forall k | i < k < |before| ensures !Resets(before[k], q) { assert !Resets(history[k], q); }
      assert !Resets(history[|before|], q);
      Stands(before, i, q);
    } else {
      assert history[..i] == before;
      NotItsOwn(before, s);
    }
  }

  lemma NotItsOwn(before: seq<Stmt>, s: Stmt)
    ensures !Resets(s, PathOf(before, s)) && !Given(s).Nothing?
  {
  }

  lemma NotBlocked(history: seq<Stmt>, path: Path)
    requires OutcomeBy(history) == Accepted && path != [] && !KindBy(history, path).Nothing?
    ensures !Blocked(history, path)
  {
    hide KindBy, OutcomeBy, KindAt;
    Agreement(history);
    var d := BuildAll(history).state.mapping;
    forall i | 0 < i < |path| ensures !KindBy(history, path[..i]).AValue? {
      assert path[..i] < path;
      assert KindAt(d, path) == KindBy(history, path) && KindAt(d, path[..i]) == KindBy(history, path[..i]);
      KindAbove(d, path, path[..i]);
    }
  }

  /** In any document: defining a path a second time is refused unless a mark stands by its dotted name. */
  lemma SecondDefinition(history: seq<Stmt>, i: nat, s: Stmt)
    requires OutcomeBy(history) == Accepted && i < |history| && PathOf(history, s) != []
    requires PathOf(history[..i], history[i]) == PathOf(history, s) && !(s.Header? && s.ofArray)
    requires forall k | i < k < |history| :: !Resets(history[k], PathOf(history, s))
    ensures OutcomeBy(history + [s]) ==
      if s.Pair? && OverValue(history) then Bug
      else if MarkedBy(history, Dotted(PathOf(history, s))) then Accepted else Refused
  {
    hide KindBy, MarkedBy, OverValue, Dotted, Blocked, OutcomeBy, Scope;
    Snoc(history, s);
    Stands(history, i, PathOf(history, s));
    NotBlocked(history, PathOf(history, s));
  }

  /** A way that is there already is left alone. */
  lemma {:induction false} WayThere(b: Build, path: Path, i: nat)
    requires i < |path| && !KindAt(b.mapping, path).Nothing?
    ensures EnterAll(b, path, i) == Built(Accepted, b)
  {
    hide KindAt, Walk, Enter;
    if i > 0 {
      WayThere(b, path, i - 1);
      var here, before := path[..i], path[..i - 1];
      assert here < path && before < path;
      KindAbove(b.mapping, path, here);
      if before == [] {
        RootWalks(b.mapping);
      } else {
        KindAbove(b.mapping, path, before);
        KindWalks(b.mapping, before);
      }
      EnterStep(b, path, i - 1);
    }
  }

  lemma ClosedByHeader(b: Build, history: seq<Stmt>, s: Stmt, path: Path)
    requires Agrees(b, history) && Apply(b, s).outcome == Accepted && path != [] && !Resets(s, path)
    requires s.Header? && s.path != []
    ensures ClosedAt(Apply(b, s).state.mapping, path) ==
      if s == Header(path, true) && KindAt(b.mapping, path).AnArray? && Walk(b.mapping, path).Some? then
        ClosedAt(b.mapping, path) + [Walk(b.mapping, path).value]
      else ClosedAt(b.mapping, path)
  {
    hide KindAt, ClosedAt, Walk, Dotted, Agrees, SetIn, EnterAll, SetLast, Apply;
    HeaderOutcome(b, history, s);
    if s.ofArray && path == s.path {
      if !KindAt(b.mapping, path).Nothing? { WayThere(b, path, |path| - 1); }
      CountClosed(b.mapping, path);
      assert path[..|path|] == path && !(path <= path[..|path| - 1]);
    }
  }

  /** The elements of an array of tables that are closed stay as they are; a new element closes the last. */
  lemma ClosedStay(b: Build, history: seq<Stmt>, s: Stmt, path: Path)
    requires Agrees(b, history) && Apply(b, s).outcome == Accepted && path != [] && !Resets(s, path)
    ensures ClosedAt(Apply(b, s).state.mapping, path) ==
      if s == Header(path, true) && KindAt(b.mapping, path).AnArray? && Walk(b.mapping, path).Some? then
        ClosedAt(b.mapping, path) + [Walk(b.mapping, path).value]
      else ClosedAt(b.mapping, path)
  {
    hide KindAt, ClosedAt, Walk, Dotted, Agrees, SetIn, EnterAll, SetLast;
    if s.Pair? {
      SetDoes(b, s.key, Leaf(s.value));
    } else if s.path != [] {
      ClosedByHeader(b, history, s, path);
    }
  }

  // --- Two documents -----------------------------------------------------------------------------------------

  /** [[a]]  [a.b.c]  [[a]]  b = v  [a.b]  x = w */
  function Lost(a: Name, b: Name, c: Name, x: Name, v: Value, w: Value): seq<Stmt> {
    Older(a, b, c, v) + [Header([a, b], false)] + [Pair(x, w)]
  }

  function Older(a: Name, b: Name, c: Name, v: Value): seq<Stmt> {
    [Header([a], true)] + [Header([a, b, c], false)] + [Header([a], true)] + [Pair(b, v)]
  }

  /** The mark of a.b outlives the element of the array it was made in. */
  lemma OlderLeaves(a: Name, b: Name, c: Name, v: Value)
    ensures OutcomeBy(Older(a, b, c, v)) == Accepted
    ensures KindBy(Older(a, b, c, v), [a, b]) == AValue(v) && KindBy(Older(a, b, c, v), [a]).AnArray?
    ensures MarkedBy(Older(a, b, c, v), Dotted([a, b]))
  {
    hide KindBy, MarkedBy, OutcomeBy, Dotted, Scope, Places, BuildAll;
    var s1, s2, s3, s4 := Header([a], true), Header([a, b, c], false), Header([a], true), Pair(b, v);
    var h1 := [s1];
    var h2 := h1 + [s2];
    var h3 := h2 + [s3];
    assert [] + [s1] == h1 && [a] + [b] == [a, b] && [a, b, c][..1] == [a] && [a, b, c][..2] == [a, b];
    NothingYet();
    Snoc([], s1); Snoc(h1, s2); Snoc(h2, s3); Snoc(h3, s4);
    KindOfNone([a]); KindOfNone([a, b]); KindOfNone([a, b, c]);
    KindSnoc([], s1, [a]); KindSnoc([], s1, [a, b]); KindSnoc([], s1, [a, b, c]);
    KindSnoc(h1, s2, [a]);
    KindSnoc(h2, s3, [a]); KindSnoc(h2, s3, [a, b]);
    KindSnoc(h3, s4, [a]); KindSnoc(h3, s4, [a, b]);
    MarkSnoc(h1, s2, Dotted([a, b])); MarkSnoc(h2, s3, Dotted([a, b])); MarkSnoc(h3, s4, Dotted([a, b]));
  }

  lemma NothingYet() ensures OutcomeBy([]) == Accepted && Scope([]) == [] && Places([]) == [] {}

  /** So the header is accepted although a.b is a value, and the next key runs into the BUG branch. */
  lemma LostTable(a: Name, b: Name, c: Name, x: Name, v: Value, w: Value)
    ensures BuildAll(Lost(a, b, c, x, v, w)).outcome == Bug
  {
    hide KindBy, MarkedBy, OutcomeBy, Dotted, BuildAll, Older;
    var older, all := Older(a, b, c, v), Lost(a, b, c, x, v, w);
    OlderLeaves(a, b, c, v);
    assert |older| == 4 by { OlderLength(a, b, c, v); }
    assert all[..4] == older && all[4] == Header([a, b], false) && all[5] == Pair(x, w);
    assert [a, b][..1] == [a];
    assert LosesTable(all, 4);
    BugExactly(all);
  }

  lemma OlderLength(a: Name, b: Name, c: Name, v: Value) ensures |Older(a, b, c, v)| == 4 {}

  /** [t.a.b.c]  [t]  a.b = v  a.b = w, where a.b is one key */
  function Twice(t: Name, a: Name, b: Name, c: Name, v: Value, w: Value): seq<Stmt> {
    var key := a + [DOT] + b;
    Nested(t, a, b, c) + [Pair(key, v)] + [Pair(key, w)]
  }

  function Nested(t: Name, a: Name, b: Name, c: Name): seq<Stmt> {
    [Header([t, a, b, c], false)] + [Header([t], false)]
  }

  /** The table t.a.b is marked, and the key a.b of t has not been seen. */
  lemma NestedLeaves(t: Name, a: Name, b: Name, c: Name)
    ensures var h, place := Nested(t, a, b, c), [t, a + [DOT] + b];
      && OutcomeBy(h) == Accepted && Scope(h) == [t] && KindBy(h, [t]) == ATable
      && KindBy(h, place).Nothing? && MarkedBy(h, Dotted(place)) && Places(h) == [[t, a, b, c], [t]]
  {
    hide KindBy, MarkedBy, OutcomeBy, Dotted, Scope, Places, BuildAll;
    var place, way := [t, a + [DOT] + b], [t, a, b, c];
    var s1, s2 := Header(way, false), Header([t], false);
    var h1 := [s1];
    assert [] + [s1] == h1;
    assert way[..1] == [t] && way[..2] == [t, a] && way[..3] == [t, a, b] && !(place < way) by { assert place[1] != a; }
    SameName(t, a, b);
    NothingYet();
    Snoc([], s1); Snoc(h1, s2);
    KindOfNone([t]); KindOfNone([t, a]); KindOfNone([t, a, b]); KindOfNone(way); KindOfNone(place);
    KindSnoc([], s1, [t]); KindSnoc([], s1, place);
    KindSnoc(h1, s2, [t]); KindSnoc(h1, s2, place);
    MarkSnoc([], s1, Dotted([t])); MarkSnoc([], s1, Dotted(place));
    MarkSnoc(h1, s2, Dotted(place));
  }

  /** A key with a dot is mistaken for the table of the same dotted name: its second value is accepted and
      dropped. */
  lemma TwiceAccepted(t: Name, a: Name, b: Name, c: Name, v: Value, w: Value)
    ensures var all, place := Twice(t, a, b, c, v, w), [t, a + [DOT] + b];
      && BuildAll(all).outcome == Accepted && Places(all) == [[t, a, b, c], [t]] + [place, place]
      && KindBy(all, place) == AValue(v)
  {
    hide KindBy, MarkedBy, OutcomeBy, Dotted, Scope, Places, BuildAll, Nested;
    var key := a + [DOT] + b;
    var place := [t, key];
    var h2, s3, s4 := Nested(t, a, b, c), Pair(key, v), Pair(key, w);
    var h3 := h2 + [s3];
    assert [t] + [key] == place;
    NestedLeaves(t, a, b, c);
    Agreement(h3 + [s4]);
    Snoc(h2, s3); Snoc(h3, s4);
    KindSnoc(h2, s3, [t]); KindSnoc(h2, s3, place);
    KindSnoc(h3, s4, place);
    MarkSnoc(h2, s3, Dotted(place));
  }

  lemma SameName(t: Name, a: Name, b: Name)
    ensures Dotted([t, a + [DOT] + b]) == Dotted([t, a, b]) != Dotted([t])
  {
    var key := a + [DOT] + b;
    assert [t, a, b][1..] == [a, b] && [a, b][1..] == [b] && [t, key][1..] == [key];
    assert Dotted([a, b]) == a + [DOT] + Dotted([b]) == key;
    assert [t, a, b][..1] == [t];
    DottedLonger([t, a, b], 1);
  }

  /** [t.a.b]  [t]  a = v */
  function Implied(t: Name, a: Name, b: Name, v: Value): seq<Stmt> {
    [Header([t, a, b], false)] + [Header([t], false)] + [Pair(a, v)]
  }

  /** A value whose key names a table that a deeper header has implied is accepted and dropped. */
  lemma ValueDropped(t: Name, a: Name, b: Name, v: Value)
    ensures var all := Implied(t, a, b, v);
      && BuildAll(all).outcome == Accepted && KindBy(all, [t, a]) == ATable
      && KindAt(BuildAll(all).state.mapping, [t, a]) == ATable
  {
    hide KindBy, KindAt, MarkedBy, OutcomeBy, Dotted, Scope, Places, BuildAll;
    var way, here := [t, a, b], [t, a];
    var s1, s2, s3 := Header(way, false), Header([t], false), Pair(a, v);
    var h1 := [s1];
    var h2 := h1 + [s2];
    assert [] + [s1] == h1 && [t] + [a] == here && way[..1] == [t] && way[..2] == here;
    assert Dotted([t]) != Dotted(here) by { assert here[..1] == [t]; DottedLonger(here, 1); }
    NothingYet();
    Agreement(h2 + [s3]);
    Snoc([], s1); Snoc(h1, s2); Snoc(h2, s3);
    KindOfNone([t]); KindOfNone(here); KindOfNone(way);
    KindSnoc([], s1, [t]); KindSnoc([], s1, here);
    KindSnoc(h1, s2, [t]); KindSnoc(h1, s2, here);
    KindSnoc(h2, s3, here);
    MarkSnoc([], s1, Dotted([t])); MarkSnoc([], s1, Dotted(here)); MarkSnoc(h1, s2, Dotted(here));
  }
}
