/** type_fields.go after the walk: sort by name, keep the dominant field of each name, sort by index. */
module FieldDominance {
  import opened Bytes
  import opened TypeFields

  // --- The two orders ------------------------------------------------------------------------------

  /** Lexicographic order: on the bytes of names and on index paths. */
  predicate LexLess(a: seq<nat>, b: seq<nat>) {
    if a == [] then b != []
    else b != [] && (a[0] < b[0] || (a[0] == b[0] && LexLess(a[1..], b[1..])))
  }

  predicate ByIndex(x: Field, y: Field) { LexLess(x.index, y.index) }

  predicate ByName(x: Field, y: Field) {
    if x.name != y.name then LexLess(x.name, y.name)
    else if |x.index| != |y.index| then |x.index| < |y.index|
    else if x.tag != y.tag then x.tag
    else ByIndex(x, y)
  }

  predicate Less(byName: bool, x: Field, y: Field) { if byName then ByName(x, y) else ByIndex(x, y) }

  /** byIndex.Less, as the loop it is. */
  method IndexLess(a: seq<nat>, b: seq<nat>) returns (less: bool)
    ensures less == LexLess(a, b)
  {
    for k := 0 to |a|
      invariant k <= |b| && (LexLess(a, b) <==> LexLess(a[k..], b[k..]))
    {
      if k >= |b| { return false; }
      if a[k] != b[k] { return a[k] < b[k]; }
      assert a[k..][1..] == a[k + 1..] && b[k..][1..] == b[k + 1..];
    }
    return |a| < |b|;
  }

  lemma {:induction false} LexTotal(a: seq<nat>, b: seq<nat>)
    ensures !LexLess(a, a) && !(LexLess(a, b) && LexLess(b, a))
    ensures LexLess(a, b) || LexLess(b, a) || a == b
  {
    if a != [] {
      LexTotal(a[1..], if b == [] then [] else b[1..]);
      if b != [] {
        assert a == [a[0]] + a[1..] && b == [b[0]] + b[1..];
      }
    }
  }

  lemma {:induction false} LexTransitive(a: seq<nat>, b: seq<nat>, c: seq<nat>)
    requires LexLess(a, b) && LexLess(b, c)
    ensures LexLess(a, c)
  {
    if a != [] && a[0] == b[0] == c[0] {
      LexTransitive(a[1..], b[1..], c[1..]);
    }
  }

  /** Both orders are strict weak orders: irreflexive, asymmetric, transitive, and being unordered is
      transitive too. */
  lemma StrictWeakOrder(byName: bool, x: Field, y: Field, z: Field)
    ensures !Less(byName, x, x) && !(Less(byName, x, y) && Less(byName, y, x))
    ensures Less(byName, x, y) && Less(byName, y, z) ==> Less(byName, x, z)
    ensures !Less(byName, x, y) && !Less(byName, y, z) ==> !Less(byName, x, z)
  {
    hide LexLess;
    OrderOf(x.index, y.index, z.index);
    OrderOf(x.name, y.name, z.name);
  }

  lemma OrderOf(a: seq<nat>, b: seq<nat>, c: seq<nat>)
    ensures !LexLess(a, a) && !(LexLess(a, b) && LexLess(b, a)) && !(LexLess(b, c) && LexLess(c, b))
    ensures !(LexLess(a, c) && LexLess(c, a))
    ensures (LexLess(a, b) || LexLess(b, a) || a == b) && (LexLess(b, c) || LexLess(c, b) || b == c)
    ensures LexLess(a, b) && LexLess(b, c) ==> LexLess(a, c)
    ensures LexLess(c, b) && LexLess(b, a) ==> LexLess(c, a)
  {
    LexTotal(a, b);
    LexTotal(b, c);
    LexTotal(a, c);
    if LexLess(a, b) && LexLess(b, c) { LexTransitive(a, b, c); }
    if LexLess(c, b) && LexLess(b, a) { LexTransitive(c, b, a); }
  }

  // --- Sorting, as sort.Sort promises it -------------------------------------------------------------

  predicate Sorted(byName: bool, s: seq<Field>) {
    forall i, j :: 0 <= i < j < |s| ==> !Less(byName, s[j], s[i])
  }

  function Insert(byName: bool, f: Field, s: seq<Field>): seq<Field> {
    if s == [] || !Less(byName, s[0], f) then [f] + s else [s[0]] + Insert(byName, f, s[1..])
  }

  function Sort(byName: bool, s: seq<Field>): seq<Field> {
    if s == [] then [] else Insert(byName, s[0], Sort(byName, s[1..]))
  }

  lemma {:induction false} InsertKeeps(byName: bool, f: Field, s: seq<Field>)
    ensures multiset(Insert(byName, f, s)) == multiset(s) + multiset{f}
  {
    hide Less;
    if s != [] && Less(byName, s[0], f) {
      InsertKeeps(byName, f, s[1..]);
      assert s == [s[0]] + s[1..];
    }
  }

  lemma {:induction false} InsertSorts(byName: bool, f: Field, s: seq<Field>)
    requires Sorted(byName, s)
    ensures Sorted(byName, Insert(byName, f, s))
  {
    hide Less;
    if s == [] || !Less(byName, s[0], f) {
      forall j | 0 <= j < |s| ensures !Less(byName, s[j], f) {
        if j > 0 { StrictWeakOrder(byName, s[j], s[0], f); }
      }
    } else {
      var rest := Insert(byName, f, s[1..]);
      InsertSorts(byName, f, s[1..]);
      InsertKeeps(byName, f, s[1..]);
      forall j | 0 <= j < |rest| ensures !Less(byName, rest[j], s[0]) {
        Among(rest, s[1..], f, j);
        if rest[j] == f {
          StrictWeakOrder(byName, s[0], f, s[0]);
        } else {
          var k :| 1 <= k < |s| && s[k] == rest[j];
        }
      }
    }
  }

  lemma Among(rest: seq<Field>, s: seq<Field>, f: Field, j: nat)
    requires multiset(rest) == multiset(s) + multiset{f} && j < |rest|
    ensures rest[j] == f || rest[j] in s
  {
    assert rest[j] in multiset(rest);
  }

  lemma {:induction false} SortSorts(byName: bool, s: seq<Field>)
    ensures Sorted(byName, Sort(byName, s)) && multiset(Sort(byName, s)) == multiset(s)
  {
    if s != [] {
      SortSorts(byName, s[1..]);
      InsertSorts(byName, s[0], Sort(byName, s[1..]));
      InsertKeeps(byName, s[0], Sort(byName, s[1..]));
      assert s == [s[0]] + s[1..];
    }
  }

  // --- Dominance -------------------------------------------------------------------------------------

  /** f hides g: it is less deep, or as deep and tagged while g is not. */
  predicate Beats(f: Field, g: Field) {
    |f.index| < |g.index| || (|f.index| == |g.index| && f.tag && !g.tag)
  }

  /** f is there once and hides everything else of its name. */
  ghost predicate Dominates(found: multiset<Field>, f: Field) {
    found[f] == 1 && forall g <- found :: g.name == f.name && g != f ==> Beats(f, g)
  }

  /** The same, by position. */
  predicate Wins(s: seq<Field>, i: nat)
    requires i < |s|
  {
    forall j :: 0 <= j < |s| && j != i && s[j].name == s[i].name ==> Beats(s[i], s[j])
  }

  lemma OnlyHere(s: seq<Field>, i: nat)
    requires i < |s|
    ensures multiset(s)[s[i]] == 1 <==> forall j :: 0 <= j < |s| && j != i ==> s[j] != s[i]
  {
    var others := s[..i] + s[i + 1..];
    assert s == s[..i] + [s[i]] + s[i + 1..];
    assert multiset(s) == multiset(others) + multiset{s[i]};
    assert forall j :: 0 <= j < |others| ==> others[j] == s[if j < i then j else j + 1];
    forall j | 0 <= j < |s| && j != i ensures s[j] in others {
      assert s[j] == others[if j < i then j else j - 1];
    }
  }

  lemma WinsDominates(s: seq<Field>, i: nat)
    requires i < |s|
    ensures Wins(s, i) <==> Dominates(multiset(s), s[i])
  {
    OnlyHere(s, i);
    assert !Beats(s[i], s[i]);
    hide Beats;
    forall j | 0 <= j < |s| ensures s[j] in multiset(s) {}
    forall g | g in multiset(s) ensures exists j :: 0 <= j < |s| && s[j] == g {
      assert g in s;
    }
  }

  predicate Nobody(fields: seq<Field>) { forall i :: 0 <= i < |fields| ==> !Wins(fields, i) }

  /** dominantField: the fields share a name and are sorted; the winner's position, if there is one. */
  method DominantField(fields: seq<Field>) returns (winner: Option<nat>)
    requires fields != [] && Sorted(true, fields) && forall k :: 0 <= k < |fields| ==> fields[k].name == fields[0].name
    ensures winner.Some? ==> winner.value < |fields| && Wins(fields, winner.value)
    ensures winner == None ==> Nobody(fields)
  {
    hide LexLess;
    var length := |fields[0].index|;
    var tagged := -1;
    var end := |fields|;
    var i := 0;
    while i < end
      invariant 0 <= i <= end <= |fields| && -1 <= tagged < i
      invariant end == |fields|
      invariant forall k :: 0 <= k < i ==> |fields[k].index| == length && (fields[k].tag <==> k == tagged)
      decreases end - i
    {
      Deeper(fields, i);
      if |fields[i].index| > length {
        end := i;
        break;
      }
      if fields[i].tag {
        if tagged >= 0 {
          TwoAtTop(fields, tagged, i);
          return None;
        }
        tagged := i;
      }
      i := i + 1;
    }
    forall k | end <= k < |fields| ensures |fields[k].index| > length { Deeper2(fields, end, k); }
    if tagged >= 0 {
      return Some(tagged);
    }
    if end > 1 {
      TwoAtTop(fields, 0, 1);
      return None;
    }
    return Some(0);
  }

  /** Within a name the fields come in order of depth. */
  lemma Deeper(fields: seq<Field>, k: nat)
    requires fields != [] && Sorted(true, fields) && k < |fields| && fields[k].name == fields[0].name
    ensures |fields[k].index| >= |fields[0].index|
  {
    assert k > 0 ==> !Less(true, fields[k], fields[0]);
  }

  lemma Deeper2(fields: seq<Field>, i: nat, k: nat)
    requires Sorted(true, fields) && i <= k < |fields| && fields[k].name == fields[i].name
    ensures |fields[k].index| >= |fields[i].index|
  {
    assert k > i ==> !Less(true, fields[k], fields[i]);
  }

  /** Two fields of least depth, both tagged or none tagged: nobody wins. */
  lemma TwoAtTop(fields: seq<Field>, a: nat, b: nat)
    requires a < b < |fields| && |fields[a].index| == |fields[b].index| && fields[a].tag == fields[b].tag
    requires forall k :: 0 <= k < |fields| ==> fields[k].name == fields[0].name
    requires Sorted(true, fields) && |fields[a].index| == |fields[0].index|
    requires !fields[a].tag ==> forall k :: 0 <= k < |fields| && fields[k].tag ==> |fields[k].index| > |fields[0].index|
    ensures forall i :: 0 <= i < |fields| ==> !Wins(fields, i)
  {
    forall i | 0 <= i < |fields| ensures !Wins(fields, i) {
      Deeper(fields, i);
      if i == a { assert !Beats(fields[i], fields[b]); } else { assert !Beats(fields[i], fields[a]); }
    }
  }

  // --- The in-place filter ---------------------------------------------------------------------------

  predicate Boundary(s: seq<Field>, i: nat) {
    i <= |s| && (0 < i < |s| ==> s[i - 1].name != s[i].name)
  }

  /** Sorting by name puts each name in one stretch. */
  lemma OneStretch(s: seq<Field>, i: nat, j: nat, k: nat)
    requires Sorted(true, s) && i <= j <= k < |s| && s[i].name == s[k].name
    ensures s[j].name == s[i].name
  {
    hide LexLess;
    if i < j < k {
      assert !Less(true, s[j], s[i]) && !Less(true, s[k], s[j]);
      LexTotal(s[i].name, s[j].name);
      LexTotal(s[j].name, s[k].name);
    }
  }

  ghost predicate Placed(s: seq<Field>, i: nat, f: Field)
    requires i <= |s|
  {
    exists j | 0 <= j < i :: s[j] == f && Wins(s, j)
  }

  /** What survives among the first i fields. */
  ghost predicate Survivors(s: seq<Field>, i: nat, out: seq<Field>)
    requires i <= |s|
  {
    && (forall k :: 0 <= k < |out| ==> Placed(s, i, out[k]))
    && (forall j :: 0 <= j < i && Wins(s, j) ==> s[j] in out)
    && (forall k :: 0 < k < |out| ==> LexLess(out[k - 1].name, out[k].name))
  }

  /** Winning among one's own name is winning among all. */
  lemma GroupWins(s: seq<Field>, i: nat, end: nat, j: nat)
    requires Sorted(true, s) && i <= j < end <= |s| && Boundary(s, i) && Boundary(s, end)
    requires forall k :: i <= k < end ==> s[k].name == s[i].name
    ensures Wins(s[i..end], j - i) <==> Wins(s, j)
  {
    forall k | 0 <= k < |s| && s[k].name == s[i].name ensures i <= k < end {
      if k < i { OneStretch(s, k, i - 1, i); }
      if k >= end { OneStretch(s, i, end, k); }
    }
    assert forall k :: i <= k < end ==> s[k] == s[i..end][k - i];
  }

  ghost predicate IsGroup(s: seq<Field>, i: nat, end: nat) {
    && Sorted(true, s) && i < end <= |s| && Boundary(s, i) && Boundary(s, end)
    && forall k :: i <= k < end ==> s[k].name == s[i].name
  }

  lemma PlacedLater(s: seq<Field>, i: nat, end: nat, out: seq<Field>)
    requires i <= end <= |s| && forall k :: 0 <= k < |out| ==> Placed(s, i, out[k])
    ensures forall k :: 0 <= k < |out| ==> Placed(s, end, out[k])
  {
    hide Wins;
    forall k | 0 <= k < |out| ensures Placed(s, end, out[k]) {
      var j :| 0 <= j < i && s[j] == out[k] && Wins(s, j);
    }
  }

  /** The next group adds its winner. */
  lemma NextWinner(s: seq<Field>, i: nat, end: nat, out: seq<Field>, w: nat)
    requires IsGroup(s, i, end) && Survivors(s, i, out)
    requires i <= w < end && Wins(s[i..end], w - i)
    ensures Survivors(s, end, out + [s[w]])
  {
    GroupWins(s, i, end, w);
    PlacedLater(s, i, end, out);
    WinnerPlaced(s, end, w);
    AfterTheRest(s, i, out, w);
    hide LexLess, Wins, Sorted, Placed, Boundary;
    var more := out + [s[w]];
    assert forall k :: 0 <= k < |more| ==> more[k] == if k < |out| then out[k] else s[w];
    forall j | 0 <= j < end && Wins(s, j) ensures s[j] in more {
      if j >= i {
        OneWinner(s, j, w);
        assert more[|out|] == s[w];
      } else {
        assert s[j] in out;
      }
    }
  }

  lemma WinnerPlaced(s: seq<Field>, end: nat, w: nat)
    requires w < end <= |s| && Wins(s, w)
    ensures Placed(s, end, s[w])
  {
  }

  lemma AfterTheRest(s: seq<Field>, i: nat, out: seq<Field>, w: nat)
    requires Sorted(true, s) && i <= w < |s| && Boundary(s, i) && s[w].name == s[i].name && Survivors(s, i, out)
    ensures out != [] ==> LexLess(out[|out| - 1].name, s[w].name)
  {
    hide LexLess, Wins, Sorted, Boundary;
    if out != [] {
      assert Placed(s, i, out[|out| - 1]);
      var j :| 0 <= j < i && s[j] == out[|out| - 1] && Wins(s, j);
      NamesAscend(s, j, i);
    }
  }

  /** Or nothing. */
  lemma NextNone(s: seq<Field>, i: nat, end: nat, out: seq<Field>)
    requires IsGroup(s, i, end) && Survivors(s, i, out) && Nobody(s[i..end])
    ensures Survivors(s, end, out)
  {
    PlacedLater(s, i, end, out);
    forall j | i <= j < end ensures !Wins(s, j) {
      GroupWins(s, i, end, j);
      assert !Wins(s[i..end], j - i);
    }
    hide LexLess, Wins, Sorted, Placed;
  }

  lemma OneWinner(s: seq<Field>, j: nat, w: nat)
    requires j < |s| && w < |s| && s[j].name == s[w].name && Wins(s, j) && Wins(s, w)
    ensures j == w
  {
  }

  lemma NamesAscend(s: seq<Field>, j: nat, i: nat)
    requires Sorted(true, s) && j < i < |s| && Boundary(s, i)
    ensures LexLess(s[j].name, s[i].name)
  {
    hide LexLess;
    LexTotal(s[j].name, s[i].name);
    assert !Less(true, s[i], s[j]);
    if s[j].name == s[i].name { OneStretch(s, j, i - 1, i); }
  }

  lemma GroupSorted(s: seq<Field>, i: nat, end: nat)
    requires Sorted(true, s) && i < end <= |s| && forall k :: i <= k < end ==> s[k].name == s[i].name
    ensures Sorted(true, s[i..end]) && forall k :: 0 <= k < end - i ==> s[i..end][k].name == s[i..end][0].name
  {
    hide Less;
  }

  lemma AloneWins(s: seq<Field>, i: nat)
    requires i < |s|
    ensures Wins(s[i..i + 1], 0)
  {
  }

  /** The end of the stretch of fields[i]'s name: the inner loop. */
  method EndOfName(a: array<Field>, i: nat) returns (advance: nat)
    requires i < a.Length
    ensures 0 < advance && i + advance <= a.Length && forall k :: i <= k < i + advance ==> a[k].name == a[i].name
    ensures i + advance < a.Length ==> a[i + advance].name != a[i].name
  {
    advance := 1;
    while i + advance < a.Length && a[i + advance].name == a[i].name
      invariant 0 < advance && i + advance <= a.Length
      invariant forall k :: i <= k < i + advance ==> a[k].name == a[i].name
    {
      advance := advance + 1;
    }
  }

  /** One name: its dominant field, by position in the stretch. */
  method Pick(a: array<Field>, i: nat, advance: nat, ghost s: seq<Field>) returns (winner: Option<nat>)
    requires 0 < advance && i + advance <= a.Length == |s| && Sorted(true, s)
    requires forall k :: i <= k < a.Length ==> a[k] == s[k]
    requires forall k :: i <= k < i + advance ==> s[k].name == s[i].name
    ensures winner.Some? ==> winner.value < advance && Wins(s[i..i + advance], winner.value)
    ensures winner == None ==> Nobody(s[i..i + advance])
  {
    hide Wins, LexLess, Sorted;
    if advance == 1 {
      AloneWins(s, i);
      return Some(0);
    }
    GroupSorted(s, i, i + advance);
    assert a[i..i + advance] == s[i..i + advance];
    winner := DominantField(a[i..i + advance]);
  }

  /** Loops over names; for each the one dominant field, if any, is kept. The survivors are written
      over the front of the same array. */
  method Filter(a: array<Field>) returns (kept: nat)
    requires Sorted(true, a[..])
    modifies a
    ensures kept <= a.Length && Survivors(old(a[..]), a.Length, a[..kept])
  {
    hide Wins, LexLess, Sorted, Survivors;
    ghost var s := a[..];
    NoSurvivors(s);
    kept := 0;
    var i := 0;
    while i < a.Length
      invariant kept <= i <= a.Length && Boundary(s, i)
      invariant (forall k :: i <= k < a.Length ==> a[k] == s[k]) && Survivors(s, i, a[..kept])
    {
      var advance := EndOfName(a, i);
      var winner := Pick(a, i, advance, s);
      if winner == None {
        NextNone(s, i, i + advance, a[..kept]);
      } else {
        NextWinner(s, i, i + advance, a[..kept], i + winner.value);
        ghost var out := a[..kept];
        a[kept] := a[i + winner.value];
        kept := kept + 1;
        assert a[..kept] == out + [s[i + winner.value]];
      }
      i := i + advance;
    }
  }

  lemma NoSurvivors(s: seq<Field>) ensures Survivors(s, 0, []) {}

  lemma {:induction false} NamesClimb(out: seq<Field>, j: nat, k: nat)
    requires j < k < |out| && forall i :: 0 < i < |out| ==> LexLess(out[i - 1].name, out[i].name)
    ensures LexLess(out[j].name, out[k].name)
  {
    hide LexLess;
    if j < k - 1 {
      NamesClimb(out, j, k - 1);
      LexTransitive(out[j].name, out[k - 1].name, out[k].name);
    }
  }

  /** The survivors of the filter are the dominating fields, each there once. */
  lemma SurvivorsDominate(s: seq<Field>, out: seq<Field>)
    requires Survivors(s, |s|, out)
    ensures forall f :: f in out <==> Dominates(multiset(s), f)
    ensures forall k :: 0 <= k < |out| ==> multiset(out)[out[k]] == 1
  {
    hide Wins, LexLess, Dominates;
    forall k | 0 <= k < |out| ensures Dominates(multiset(s), out[k]) {
      var j :| 0 <= j < |s| && s[j] == out[k] && Wins(s, j);
      WinsDominates(s, j);
    }
    forall f | Dominates(multiset(s), f) ensures f in out {
      DominatingIsThere(multiset(s), f);
      assert f in s;
      var j :| 0 <= j < |s| && s[j] == f;
      WinsDominates(s, j);
    }
    forall k | 0 <= k < |out| ensures multiset(out)[out[k]] == 1 {
      forall j | 0 <= j < |out| && j != k ensures out[j] != out[k] {
        LexTotal(out[k].name, out[k].name);
        if j < k { NamesClimb(out, j, k); } else { NamesClimb(out, k, j); }
      }
      OnlyHere(out, k);
    }
  }

  lemma DominatingIsThere(found: multiset<Field>, f: Field)
    requires Dominates(found, f)
    ensures f in found
  {
  }

  /** Dominating fields that are each there once have different names. */
  lemma NamesDiffer(found: multiset<Field>, out: seq<Field>, j: nat, k: nat)
    requires j < k < |out| && multiset(out)[out[k]] == 1
    requires Dominates(found, out[j]) && Dominates(found, out[k])
    ensures out[j].name != out[k].name
  {
    OnlyHere(out, k);
    assert out[j] in found && out[k] in found;
  }

  // --- The whole of typeFields -----------------------------------------------------------------------

  /** The visible fields of t: exactly the recorded fields that dominate their name, one per name, in
      index order. Everything else is hidden or annihilated. */
  method Visible(g: Graph, t: nat) returns (out: array<Field>, kept: nat, ghost visits: seq<Visit>)
    requires Closed(g) && t in g
    ensures kept <= out.Length && Sorted(false, out[..kept])
    ensures Walked(g, t, visits)
    ensures forall f :: f in out[..kept] <==> Dominates(multiset(RecordAll(g, visits)), f)
    ensures forall j, k :: 0 <= j < k < kept ==> out[j].name != out[k].name
  {
    hide Wins, LexLess, Sorted, Survivors, Dominates, Target, RecordAll, RightFlag, ShortVisit, Visited;
    var fields;
    fields, visits := Collect(g, t);
    SortSorts(true, fields);
    ghost var s := Sort(true, fields);
    out := Holding(Sort(true, fields));
    kept := Filter(out);
    ghost var survivors := out[..kept];
    SurvivorsDominate(s, survivors);
    SortSorts(false, survivors);
    SortPrefix(out, kept);
    SameFields(survivors, out[..kept]);
    assert multiset(s) == multiset(RecordAll(g, visits));
    forall j, k | 0 <= j < k < kept ensures out[j].name != out[k].name {
      assert out[..kept][j] in out[..kept] && out[..kept][k] in out[..kept];
      NamesDiffer(multiset(s), out[..kept], j, k);
    }
  }

  lemma SameFields(s: seq<Field>, t: seq<Field>)
    requires multiset(s) == multiset(t)
    ensures forall f :: f in s <==> f in t
  {
    assert forall f :: f in s <==> f in multiset(s);
  }

  method Holding(s: seq<Field>) returns (a: array<Field>)
    ensures fresh(a) && a[..] == s
  {
    a := new Field[|s|](i requires 0 <= i < |s| => s[i]);
  }

  /** The final sort.Sort(byIndex(fields)). */
  method SortPrefix(a: array<Field>, kept: nat)
    requires kept <= a.Length
    modifies a
    ensures a[..kept] == Sort(false, old(a[..kept]))
  {
    var s := Sort(false, a[..kept]);
    SortSorts(false, a[..kept]);
    SameLength(s, a[..kept]);
    forall k | 0 <= k < kept { a[k] := s[k]; }
  }

  lemma SameLength(s: seq<Field>, t: seq<Field>)
    requires multiset(s) == multiset(t)
    ensures |s| == |t|
  {
    assert |multiset(s)| == |s| && |multiset(t)| == |t|;
  }
}
