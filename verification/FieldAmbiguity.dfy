/** What the flag of the walk of type_fields.go means: Go calls a promoted field ambiguous when two
    embedding paths of least length lead to its struct; the walk counts one level only. */
module FieldAmbiguity {
  import opened Bytes
  import opened TypeFields
  import opened FieldDominance

  /** Another path, as short, leads to the same struct. */
  ghost predicate Ambiguous(g: Graph, t: nat, path: seq<nat>) {
    exists q: seq<nat> :: q != path && |q| == |path| && Target(g, t, q) == Target(g, t, path)
  }

  /** Declaration i of the k-th visited struct embeds v, at the given depth. */
  predicate At(g: Graph, visits: seq<Visit>, depth: nat, v: nat, k: nat, i: nat)
    requires InGraph(g, visits)
  {
    k < |visits| && |visits[k].index| == depth && i < |g[visits[k].typ]|
    && Embeds(g[visits[k].typ][i]) && g[visits[k].typ][i].typ == v
  }

  // --- Counts and the embeddings they count ----------------------------------------------------------

  lemma {:induction false} OneEmbed(g: Graph, u: nat, v: nat, k: nat) returns (i: nat)
    requires u in g && k <= |g[u]| && EmbedCount(g, u, v, k) > 0
    ensures i < k && Embeds(g[u][i]) && g[u][i].typ == v
  {
    if Embeds(g[u][k - 1]) && g[u][k - 1].typ == v { i := k - 1; } else { i := OneEmbed(g, u, v, k - 1); }
  }

  lemma {:induction false} TwoEmbeds(g: Graph, u: nat, v: nat, k: nat) returns (i: nat, j: nat)
    requires u in g && k <= |g[u]| && EmbedCount(g, u, v, k) > 1
    ensures i < j < k && Embeds(g[u][i]) && Embeds(g[u][j]) && g[u][i].typ == v == g[u][j].typ
  {
    if Embeds(g[u][k - 1]) && g[u][k - 1].typ == v {
      j := k - 1;
      i := OneEmbed(g, u, v, k - 1);
    } else {
      i, j := TwoEmbeds(g, u, v, k - 1);
    }
  }

  lemma {:induction false} EmbeddedTwice(g: Graph, u: nat, v: nat, i: nat, j: nat, k: nat)
    requires u in g && i < j < k <= |g[u]|
    requires Embeds(g[u][i]) && Embeds(g[u][j]) && g[u][i].typ == v == g[u][j].typ
    ensures EmbedCount(g, u, v, k) > 1
  {
    if j < k - 1 { EmbeddedTwice(g, u, v, i, j, k - 1); } else { EmbedPositive(g, u, v, i, j); }
  }

  lemma {:induction false} OneAt(g: Graph, visits: seq<Visit>, depth: nat, v: nat) returns (k: nat, i: nat)
    requires InGraph(g, visits) && LevelCount(g, visits, depth, v) > 0
    ensures At(g, visits, depth, v, k, i)
  {
    var last := visits[|visits| - 1];
    if |last.index| == depth && EmbedCount(g, last.typ, v, |g[last.typ]|) > 0 {
      k := |visits| - 1;
      i := OneEmbed(g, last.typ, v, |g[last.typ]|);
    } else {
      k, i := OneAt(g, visits[..|visits| - 1], depth, v);
    }
  }

  /** A count above one means two embeddings. */
  lemma {:induction false} TwoAt(g: Graph, visits: seq<Visit>, depth: nat, v: nat)
    returns (k: nat, i: nat, k': nat, i': nat)
    requires InGraph(g, visits) && LevelCount(g, visits, depth, v) > 1
    ensures At(g, visits, depth, v, k, i) && At(g, visits, depth, v, k', i') && (k, i) != (k', i')
  {
    var most, last := visits[..|visits| - 1], visits[|visits| - 1];
    var there := if |last.index| == depth then EmbedCount(g, last.typ, v, |g[last.typ]|) else 0;
    if there > 1 {
      k, k' := |visits| - 1, |visits| - 1;
      i, i' := TwoEmbeds(g, last.typ, v, |g[last.typ]|);
    } else if there == 1 {
      k, i := OneAt(g, most, depth, v);
      k' := |visits| - 1;
      i' := OneEmbed(g, last.typ, v, |g[last.typ]|);
    } else {
      k, i, k', i' := TwoAt(g, most, depth, v);
    }
  }

  /** Two embeddings make the count exceed one. */
  lemma {:induction false} CountedTwice(g: Graph, visits: seq<Visit>, depth: nat, v: nat, k: nat, i: nat, k': nat, i': nat)
    requires InGraph(g, visits) && (k, i) != (k', i')
    requires At(g, visits, depth, v, k, i) && At(g, visits, depth, v, k', i')
    ensures LevelCount(g, visits, depth, v) > 1
  {
    hide EmbedCount;
    var n := |visits| - 1;
    var most, last := visits[..n], visits[n];
    if k < n && k' < n {
      CountedTwice(g, most, depth, v, k, i, k', i');
    } else if k == n && k' == n {
      EmbeddedTwice(g, last.typ, v, if i < i' then i else i', if i < i' then i' else i, |g[last.typ]|);
    } else {
      var a, b := if k < n then k else k', if k < n then i else i';
      var c := if k < n then i' else i;
      assert most[a] == visits[a];
      EmbedPositive(g, visits[a].typ, v, b, |g[visits[a].typ]|);
      LevelPositive(g, most, a, v);
      EmbedPositive(g, last.typ, v, c, |g[last.typ]|);
    }
  }

  // --- Flags and paths -------------------------------------------------------------------------------

  /** The same, one level above v. */
  predicate Above(g: Graph, visits: seq<Visit>, v: Visit, k: nat, i: nat)
    requires InGraph(g, visits)
  {
    v.index != [] && At(g, visits, |v.index| - 1, v.typ, k, i)
  }

  /** An ambiguous struct one level up that embeds this one. */
  ghost predicate AmbiguousAbove(g: Graph, t: nat, visits: seq<Visit>, v: Visit)
    requires InGraph(g, visits)
  {
    exists k: nat, i: nat :: Above(g, visits, v, k, i) && Ambiguous(g, t, visits[k].index)
  }

  lemma Inherits(g: Graph, t: nat, visits: seq<Visit>, v: Visit)
    requires Walked(g, t, visits) && v in visits && AmbiguousAbove(g, t, visits, v)
    ensures Ambiguous(g, t, v.index)
  {
    hide Target;
    var k: nat, i: nat :| Above(g, visits, v, k, i) && Ambiguous(g, t, visits[k].index);
    var p := visits[k].index;
    assert ShortVisit(g, t, visits[k]);
    var q :| q != p && |q| == |p| && Target(g, t, q) == Target(g, t, p);
    TargetStep(g, t, p, visits[k].typ, i);
    TargetStep(g, t, q, visits[k].typ, i);
    LastStep(p, q, i, i);
    if v.index != q + [i] { Another(g, t, v.index, q + [i]); } else { Another(g, t, v.index, p + [i]); }
  }

  lemma LastStep(p: seq<nat>, q: seq<nat>, i: nat, j: nat)
    requires p != q || i != j
    ensures p + [i] != q + [j]
  {
    assert (p + [i])[..|p|] == p && (q + [j])[..|q|] == q;
    assert (p + [i])[|p|] == i && (q + [j])[|q|] == j;
  }

  lemma Another(g: Graph, t: nat, path: seq<nat>, q: seq<nat>)
    requires q != path && |q| == |path| && Target(g, t, q) == Target(g, t, path)
    ensures Ambiguous(g, t, path)
  {
  }

  lemma FlaggedIsAmbiguous(g: Graph, t: nat, visits: seq<Visit>, v: Visit)
    requires Walked(g, t, visits) && v in visits && v.dup
    ensures Ambiguous(g, t, v.index)
  {
    hide Target, LevelCount;
    assert RightFlag(g, visits, v) && ShortVisit(g, t, v);
    var k, i, k', i' := TwoAt(g, visits, |v.index| - 1, v.typ);
    assert ShortVisit(g, t, visits[k]) && ShortVisit(g, t, visits[k']);
    TargetStep(g, t, visits[k].index, visits[k].typ, i);
    TargetStep(g, t, visits[k'].index, visits[k'].typ, i');
    LastStep(visits[k].index, visits[k'].index, i, i');
    if v.index != visits[k].index + [i] {
      Another(g, t, v.index, visits[k].index + [i]);
    } else {
      Another(g, t, v.index, visits[k'].index + [i']);
    }
  }

  /** The last step of a shortest path leaves a struct visited one level up. */
  lemma LastEmbedding(g: Graph, t: nat, visits: seq<Visit>, path: seq<nat>) returns (k: nat)
    requires Walked(g, t, visits) && path != [] && Shortest(g, t, path)
    ensures At(g, visits, |path| - 1, Target(g, t, path).value, k, path[|path| - 1])
    ensures Target(g, t, path[..|path| - 1]) == Some(visits[k].typ)
  {
    var p, i := path[..|path| - 1], path[|path| - 1];
    assert Target(g, t, p).Some?;
    k :| 0 <= k < |visits| && visits[k].typ == Target(g, t, p).value;
    assert ShortVisit(g, t, visits[k]);
    assert |visits[k].index| <= |p|;
    TargetStep(g, t, visits[k].index, visits[k].typ, i);
    assert |path| <= |visits[k].index + [i]|;
  }

  lemma AmbiguousIsFlagged(g: Graph, t: nat, visits: seq<Visit>, v: Visit)
    requires Walked(g, t, visits) && v in visits && Ambiguous(g, t, v.index)
    ensures v.dup || AmbiguousAbove(g, t, visits, v)
  {
    hide LevelCount, Ambiguous, Target;
    assert RightFlag(g, visits, v) && ShortVisit(g, t, v);
    var q := OtherPath(g, t, v.index);
    var n := |q| - 1;
    var k := LastEmbedding(g, t, visits, v.index);
    var k' := LastEmbedding(g, t, visits, q);
    if (k, v.index[n]) != (k', q[n]) {
      CountedTwice(g, visits, n, v.typ, k, v.index[n], k', q[n]);
    } else {
      assert v.index == v.index[..n] + [v.index[n]] && q == q[..n] + [q[n]];
      assert ShortVisit(g, t, visits[k]);
      if visits[k].index != q[..n] {
        Another(g, t, visits[k].index, q[..n]);
      } else {
        Another(g, t, visits[k].index, v.index[..n]);
      }
      assert Above(g, visits, v, k, q[n]);
    }
  }

  lemma OtherPath(g: Graph, t: nat, path: seq<nat>) returns (q: seq<nat>)
    requires Ambiguous(g, t, path) && Shortest(g, t, path)
    ensures q != path && |q| == |path| > 0 && Target(g, t, q) == Target(g, t, path) && Shortest(g, t, q)
  {
    hide Target;
    q :| q != path && |q| == |path| && Target(g, t, q) == Target(g, t, path);
    assert |q| == 0 ==> q == path;
  }

  /** A struct is ambiguous in Go's sense exactly when the walk flags it, or when a struct above it that
      embeds it is ambiguous; the second case is the one the walk does not flag. */
  lemma AmbiguousExactlyWhen(g: Graph, t: nat, visits: seq<Visit>, v: Visit)
    requires Walked(g, t, visits) && v in visits
    ensures Ambiguous(g, t, v.index) <==> v.dup || AmbiguousAbove(g, t, visits, v)
  {
    if v.dup { FlaggedIsAmbiguous(g, t, visits, v); }
    if AmbiguousAbove(g, t, visits, v) { Inherits(g, t, visits, v); }
    if Ambiguous(g, t, v.index) { AmbiguousIsFlagged(g, t, visits, v); }
  }

  // --- When the flags say all there is to say --------------------------------------------------------

  /** No struct gets its only embedding from a flagged one. */
  ghost predicate NoLoneEmbedding(g: Graph, visits: seq<Visit>)
    requires InGraph(g, visits)
  {
    forall v, k: nat, i: nat :: v in visits && Above(g, visits, v, k, i) && visits[k].dup ==> v.dup
  }

  lemma {:induction false} FlagsSuffice(g: Graph, t: nat, visits: seq<Visit>, v: Visit)
    requires Walked(g, t, visits) && NoLoneEmbedding(g, visits) && v in visits && Ambiguous(g, t, v.index)
    ensures v.dup
    decreases |v.index|
  {
    hide Ambiguous, Target, RightFlag, ShortVisit, Visited;
    AmbiguousExactlyWhen(g, t, visits, v);
    if !v.dup {
      var k: nat, i: nat :| Above(g, visits, v, k, i) && Ambiguous(g, t, visits[k].index);
      FlagsSuffice(g, t, visits, visits[k]);
    }
  }

  /** The flags are Go's ambiguity for every struct exactly when no struct gets its only embedding from
      a flagged struct. */
  lemma FlagsRightExactlyWhen(g: Graph, t: nat, visits: seq<Visit>)
    requires Walked(g, t, visits)
    ensures (forall v <- visits :: v.dup <==> Ambiguous(g, t, v.index)) <==> NoLoneEmbedding(g, visits)
  {
    hide Ambiguous, Target, RightFlag, ShortVisit, Visited;
    forall v | v in visits && v.dup ensures Ambiguous(g, t, v.index) { FlaggedIsAmbiguous(g, t, visits, v); }
    if NoLoneEmbedding(g, visits) {
      forall v | v in visits && Ambiguous(g, t, v.index) ensures v.dup { FlagsSuffice(g, t, visits, v); }
    }
    if forall v <- visits :: v.dup <==> Ambiguous(g, t, v.index) {
      forall v, k: nat, i: nat | v in visits && Above(g, visits, v, k, i) && visits[k].dup
        ensures v.dup
      {
        assert Ambiguous(g, t, visits[k].index);
        assert AmbiguousAbove(g, t, visits, v);
        AmbiguousExactlyWhen(g, t, visits, v);
      }
    }
  }

  // --- A struct the walk takes for unambiguous -------------------------------------------------------

  function Embedded(typ: nat): Decl { Decl(true, [], [65], true, true, typ) }

  /** An ordinary field. */
  const PLAIN := Decl(true, [], [66], false, false, 5)

  /** 0 embeds 1 and 2, both embed 3, and 3 embeds 4, which has a field. */
  function Diamond(): Graph {
    map[0 := [Embedded(1), Embedded(2)], 1 := [Embedded(3)], 2 := [Embedded(3)], 3 := [Embedded(4)], 4 := [PLAIN]]
  }

  lemma DiamondTarget(path: seq<nat>, u: nat, i: nat)
    requires Target(Diamond(), 0, path) == Some(u) && u in Diamond() && i < |Diamond()[u]| && Embeds(Diamond()[u][i])
    ensures Target(Diamond(), 0, path + [i]) == Some(Diamond()[u][i].typ)
  {
    TargetStep(Diamond(), 0, path, u, i);
  }

  lemma FromThree(visits: seq<Visit>, depth: nat, k: nat, i: nat)
    requires InGraph(Diamond(), visits) && At(Diamond(), visits, depth, 4, k, i)
    ensures visits[k].typ == 3 && i == 0
  {
  }

  /** Both [0, 0, 0] and [1, 0, 0] lead to 4, and no shorter path does, yet the walk does not flag it. */
  lemma ConflictMissed(visits: seq<Visit>, v: Visit)
    requires Walked(Diamond(), 0, visits) && v in visits && v.typ == 4
    ensures !v.dup && Ambiguous(Diamond(), 0, v.index)
  {
    hide Target, LevelCount, Ambiguous, Visited, Diamond;
    var g := Diamond();
    assert RightFlag(g, visits, v);
    if v.dup {
      var k, i, k', i' := TwoAt(g, visits, |v.index| - 1, 4);
      FromThree(visits, |v.index| - 1, k, i);
      FromThree(visits, |v.index| - 1, k', i');
    }
    TwoWays();
    assert ShortVisit(g, 0, v);
    ThreeDeep(g, v.index);
    if v.index != [0, 0, 0] { Another(g, 0, v.index, [0, 0, 0]); } else { Another(g, 0, v.index, [1, 0, 0]); }
  }

  lemma TwoWays()
    ensures Target(Diamond(), 0, [0, 0, 0]) == Some(4) == Target(Diamond(), 0, [1, 0, 0])
  {
    hide Target;
    assert Target(Diamond(), 0, []) == Some(0) by { Start(); }
    forall i: nat | i < 2 ensures Target(Diamond(), 0, [i, 0, 0]) == Some(4) {
      DiamondTarget([], 0, i);
      assert [] + [i] == [i];
      DiamondTarget([i], i + 1, 0);
      assert [i] + [0] == [i, 0];
      DiamondTarget([i, 0], 3, 0);
      assert [i, 0] + [0] == [i, 0, 0];
    }
  }

  lemma Start() ensures Target(Diamond(), 0, []) == Some(0) {}

  /** The last step of a path in the diamond. */
  lemma StepBack(path: seq<nat>, u: nat)
    requires path != [] && Target(Diamond(), 0, path) == Some(u)
    ensures var back := Target(Diamond(), 0, path[..|path| - 1]);
      if u == 4 then back == Some(3) else if u == 3 then back == Some(1) || back == Some(2) else u != 0 && back == Some(0)
  {
    hide Target;
    CameFrom(Diamond(), 0, path, u);
    Parents(Target(Diamond(), 0, path[..|path| - 1]).value, path[|path| - 1]);
  }

  lemma CameFrom(g: Graph, t: nat, path: seq<nat>, u: nat)
    requires path != [] && Target(g, t, path) == Some(u)
    ensures var back, i := Target(g, t, path[..|path| - 1]), path[|path| - 1];
      back.Some? && back.value in g && i < |g[back.value]| && Embeds(g[back.value][i]) && g[back.value][i].typ == u
  {
  }

  lemma Parents(w: nat, i: nat)
    requires w in Diamond() && i < |Diamond()[w]| && Embeds(Diamond()[w][i])
    ensures Diamond()[w][i].typ == if w == 0 then i + 1 else if w == 3 then 4 else 3
    ensures w <= 3 && i < 2
  {
  }

  /** Every path to 4 has three steps. */
  lemma ThreeDeep(g: Graph, path: seq<nat>)
    requires g == Diamond() && Target(g, 0, path) == Some(4)
    ensures |path| == 3
  {
    hide Diamond;
    Start();
    StepBack(path, 4);
    var p := path[..|path| - 1];
    StepBack(p, 3);
    var q := p[..|p| - 1];
    StepBack(q, Target(g, 0, q).value);
    var r := q[..|q| - 1];
    if r != [] { StepBack(r, 0); }
  }

  /** The field of struct 4, reached by the given path. */
  function FieldAt(index: seq<nat>): Field { FieldOf(PLAIN, index + [0]) }

  /** The diamond has no other field. */
  lemma {:induction false} NoOtherField(visits: seq<Visit>)
    requires InGraph(Diamond(), visits) && forall v <- visits :: v.typ != 4
    ensures RecordAll(Diamond(), visits) == []
  {
    if visits != [] {
      NoOtherField(visits[..|visits| - 1]);
      NoFieldIn(visits[|visits| - 1]);
    }
  }

  lemma NoFieldIn(v: Visit)
    requires v.typ in Diamond() && v.typ != 4
    ensures RecordOne(Diamond(), v, |Diamond()[v.typ]|) == []
  {
    var g := Diamond();
    assert forall d <- g[v.typ] :: !Recorded(d);
    assert |g[v.typ]| <= 2 && RecordOne(g, v, 0) == [] && RecordOne(g, v, 1) == [];
  }

  lemma {:induction false} OneField(visits: seq<Visit>, k: nat)
    requires InGraph(Diamond(), visits) && k < |visits| && visits[k].typ == 4 && !visits[k].dup
    requires forall j :: 0 <= j < |visits| && j != k ==> visits[j].typ != 4
    ensures RecordAll(Diamond(), visits) == [FieldAt(visits[k].index)]
  {
    var n := |visits| - 1;
    var most, last := visits[..n], visits[n];
    if k < n {
      OneField(most, k);
      NoFieldIn(last);
    } else {
      NoOtherField(most);
      assert RecordOne(Diamond(), last, 0) == [];
      assert RecordOne(Diamond(), last, 1) == [FieldAt(last.index)];
    }
  }

  /** So typeFields makes the field of struct 4 visible, which Go calls ambiguous. */
  method AmbiguousFieldShown() returns (out: array<Field>, kept: nat, ghost path: seq<nat>)
    ensures kept <= out.Length && forall f :: f in out[..kept] <==> f == FieldAt(path)
    ensures Target(Diamond(), 0, path) == Some(4) && Shortest(Diamond(), 0, path) && Ambiguous(Diamond(), 0, path)
  {
    hide Target, Shortest, LevelCount, RecordAll, Sorted, Ambiguous, Visited, Diamond, RightFlag;
    DiamondClosed();
    ghost var visits;
    out, kept, visits := Visible(Diamond(), 0);
    ghost var k := VisitOfFour(visits);
    ConflictMissed(visits, visits[k]);
    OneField(visits, k);
    path := visits[k].index;
    assert ShortVisit(Diamond(), 0, visits[k]);
    OneDominates(FieldAt(path));
  }

  lemma DiamondClosed() ensures Closed(Diamond()) && 0 in Diamond() {}

  lemma VisitOfFour(visits: seq<Visit>) returns (k: nat)
    requires Walked(Diamond(), 0, visits)
    ensures k < |visits| && visits[k].typ == 4 && visits[k] in visits
  {
    hide Target;
    TwoWays();
    assert Target(Diamond(), 0, [0, 0, 0]).Some?;
    k :| 0 <= k < |visits| && visits[k].typ == 4;
  }

  lemma OneDominates(f: Field)
    ensures forall x :: Dominates(multiset([f]), x) <==> x == f
  {
  }
}
