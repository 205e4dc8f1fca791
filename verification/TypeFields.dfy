/** type_fields.go: which fields of a struct, its own or promoted from embedded structs, are visible. */
module TypeFields {
  import opened Bytes

  type FieldName = seq<nat>

  const DASH: FieldName := [45]

  /** A field declaration: `typ` is the type behind a pointer if there is one. */
  datatype Decl = Decl(exported: bool, tag: FieldName, name: FieldName, anonymous: bool, isStruct: bool, typ: nat)

  /** The struct types, possibly embedding each other in a circle. */
  type Graph = map<nat, seq<Decl>>

  datatype Field = Field(name: FieldName, tag: bool, index: seq<nat>, typ: nat)

  /** An embedded struct without a tag: its fields are promoted instead of itself. */
  predicate Embeds(d: Decl) { d.exported && d.tag == [] && d.anonymous && d.isStruct }

  predicate Recorded(d: Decl) { d.exported && d.tag != DASH && !Embeds(d) }

  ghost predicate Closed(g: Graph) {
    forall u <- g :: forall i :: 0 <= i < |g[u]| && Embeds(g[u][i]) ==> g[u][i].typ in g
  }

  function FieldOf(d: Decl, index: seq<nat>): Field {
    Field(if d.tag != [] then d.tag else d.name, d.tag != [], index, d.typ)
  }

  /** The struct a path of embeddings leads to. */
  function Target(g: Graph, t: nat, path: seq<nat>): Option<nat> {
    if path == [] then (if t in g then Some(t) else None)
    else match Target(g, t, path[..|path| - 1])
      case None => None
      case Some(u) =>
        var i := path[|path| - 1];
        if u in g && i < |g[u]| && Embeds(g[u][i]) && g[u][i].typ in g then Some(g[u][i].typ) else None
  }

  /** No shorter path leads to the same struct. */
  ghost predicate Shortest(g: Graph, t: nat, path: seq<nat>) {
    Target(g, t, path).Some? && forall q: seq<nat> :: Target(g, t, q) == Target(g, t, path) ==> |path| <= |q|
  }

  /** A struct being scanned: the path to it, and whether its level embeds it more than once. */
  datatype Visit = Visit(index: seq<nat>, typ: nat, dup: bool)

  /** The fields recorded for one struct: each once, or twice if the struct itself is ambiguous. */
  function RecordOne(g: Graph, v: Visit, k: nat): seq<Field>
    requires v.typ in g && k <= |g[v.typ]|
  {
    if k == 0 then []
    else
      var d := g[v.typ][k - 1];
      var f := FieldOf(d, v.index + [k - 1]);
      RecordOne(g, v, k - 1) + (if !Recorded(d) then [] else if v.dup then [f, f] else [f])
  }

  ghost predicate InGraph(g: Graph, visits: seq<Visit>) { forall v <- visits :: v.typ in g }

  function RecordAll(g: Graph, visits: seq<Visit>): seq<Field>
    requires InGraph(g, visits)
  {
    if visits == [] then []
    else
      var last := visits[|visits| - 1];
      RecordAll(g, visits[..|visits| - 1]) + RecordOne(g, last, |g[last.typ]|)
  }

  /** How often struct u embeds struct v among its first k declarations. */
  function EmbedCount(g: Graph, u: nat, v: nat, k: nat): nat
    requires u in g && k <= |g[u]|
  {
    if k == 0 then 0
    else EmbedCount(g, u, v, k - 1) + if Embeds(g[u][k - 1]) && g[u][k - 1].typ == v then 1 else 0
  }

  /** How often v is embedded by the visited structs at the given depth. */
  function LevelCount(g: Graph, visits: seq<Visit>, depth: nat, v: nat): nat
    requires InGraph(g, visits)
  {
    if visits == [] then 0
    else
      var last := visits[|visits| - 1];
      LevelCount(g, visits[..|visits| - 1], depth, v)
        + if |last.index| == depth then EmbedCount(g, last.typ, v, |g[last.typ]|) else 0
  }

  function Get(m: map<nat, nat>, v: nat): nat { if v in m then m[v] else 0 }

  predicate Queued(next: seq<Field>, v: nat) { exists k | 0 <= k < |next| :: next[k].typ == v }

  ghost predicate Counted(next: seq<Field>, count: map<nat, nat>) {
    forall v :: Get(count, v) > 0 <==> Queued(next, v)
  }

  ghost predicate AtLevel(g: Graph, t: nat, next: seq<Field>, depth: nat) {
    forall k :: 0 <= k < |next| ==> Target(g, t, next[k].index) == Some(next[k].typ) && |next[k].index| == depth
  }

  lemma QueuedSnoc(next: seq<Field>, f: Field, v: nat)
    ensures Queued(next + [f], v) <==> Queued(next, v) || f.typ == v
  {
    if Queued(next, v) {
      var k :| 0 <= k < |next| && next[k].typ == v;
      assert (next + [f])[k].typ == v;
    }
    assert (next + [f])[|next|] == f;
  }

  /** The scan of one struct: its fields are recorded, the structs it embeds are queued. */
  method Scan(g: Graph, ghost t: nat, v: Visit, fields: seq<Field>, next: seq<Field>, nextCount: map<nat, nat>)
    returns (fields': seq<Field>, next': seq<Field>, nextCount': map<nat, nat>)
    requires Closed(g) && Target(g, t, v.index) == Some(v.typ) && v.typ in g
    requires Counted(next, nextCount) && AtLevel(g, t, next, |v.index| + 1)
    ensures fields' == fields + RecordOne(g, v, |g[v.typ]|)
    ensures Counted(next', nextCount') && AtLevel(g, t, next', |v.index| + 1)
    ensures forall w :: Get(nextCount', w) == Get(nextCount, w) + EmbedCount(g, v.typ, w, |g[v.typ]|)
  {
    hide Target, Counted, Get;
    fields', next', nextCount' := fields, next, nextCount;
    for i := 0 to |g[v.typ]|
      invariant fields' == fields + RecordOne(g, v, i)
      invariant Counted(next', nextCount') && AtLevel(g, t, next', |v.index| + 1)
      invariant forall w :: Get(nextCount', w) == Get(nextCount, w) + EmbedCount(g, v.typ, w, i)
    {
      var sf := g[v.typ][i];
      if !sf.exported { continue; }
      if sf.tag == DASH { continue; }
      var index := v.index + [i];
      if sf.tag != [] || !sf.anonymous || !sf.isStruct {
        fields' := fields' + [FieldOf(sf, index)];
        if v.dup {
          fields' := fields' + [fields'[|fields'| - 1]];
        }
        Recording(fields, RecordOne(g, v, i), FieldOf(sf, index), v.dup, fields');
        continue;
      }
      TargetStep(g, t, v.index, v.typ, i);
      next', nextCount' := Enqueue(g, t, next', nextCount', Field([], false, index, sf.typ));
    }
  }

  lemma Recording(fields: seq<Field>, before: seq<Field>, f: Field, dup: bool, after: seq<Field>)
    requires after == if dup then fields + before + [f] + [f] else fields + before + [f]
    ensures after == fields + (before + if dup then [f, f] else [f])
  {
  }

  /** Queues an embedded struct the first time its level meets it, and counts every time. */
  method Enqueue(g: Graph, ghost t: nat, next: seq<Field>, nextCount: map<nat, nat>, f: Field)
    returns (next': seq<Field>, nextCount': map<nat, nat>)
    requires Counted(next, nextCount) && AtLevel(g, t, next, |f.index|)
    requires Target(g, t, f.index) == Some(f.typ)
    ensures Counted(next', nextCount') && AtLevel(g, t, next', |f.index|)
    ensures forall w :: Get(nextCount', w) == Get(nextCount, w) + if w == f.typ then 1 else 0
  {
    hide Target;
    next' := next;
    nextCount' := nextCount[f.typ := Get(nextCount, f.typ) + 1];
    assert forall w :: Get(nextCount', w) == Get(nextCount, w) + if w == f.typ then 1 else 0;
    if nextCount'[f.typ] == 1 {
      forall w ensures Queued(next' + [f], w) <==> Queued(next', w) || w == f.typ { QueuedSnoc(next', f, w); }
      next' := next' + [f];
    }
  }

  lemma TargetStep(g: Graph, t: nat, path: seq<nat>, u: nat, i: nat)
    requires Closed(g) && Target(g, t, path) == Some(u) && u in g && i < |g[u]| && Embeds(g[u][i])
    ensures Target(g, t, path + [i]) == Some(g[u][i].typ)
  {
    assert (path + [i])[..|path|] == path;
  }

  // --- The breadth-first walk --------------------------------------------------------------------

  predicate Visited(visits: seq<Visit>, u: nat) { exists k | 0 <= k < |visits| :: visits[k].typ == u }

  /** Every visited struct was reached by a shortest path, and is visited once. */
  ghost predicate Explored(g: Graph, t: nat, visits: seq<Visit>, depth: nat) {
    && InGraph(g, visits)
    && (forall k :: 0 <= k < |visits| ==> ShortVisit(g, t, visits[k]) && |visits[k].index| < depth)
    && (forall j, k :: 0 <= j < k < |visits| ==> visits[j].typ != visits[k].typ)
  }

  ghost predicate ShortVisit(g: Graph, t: nat, v: Visit) {
    Target(g, t, v.index) == Some(v.typ) && Shortest(g, t, v.index)
  }

  /** A struct is flagged exactly when the level above embeds it more than once. */
  ghost predicate Flagged(g: Graph, visits: seq<Visit>)
    requires InGraph(g, visits)
  {
    forall k :: 0 <= k < |visits| ==> RightFlag(g, visits, visits[k])
  }

  ghost predicate RightFlag(g: Graph, visits: seq<Visit>, v: Visit)
    requires InGraph(g, visits)
  {
    v.dup <==> v.index != [] && LevelCount(g, visits, |v.index| - 1, v.typ) > 1
  }

  /** Whatever a path of at most `depth` embeddings reaches is visited or queued. */
  ghost predicate CompleteTo(g: Graph, t: nat, visits: seq<Visit>, next: seq<Field>, depth: nat) {
    forall path: seq<nat> :: |path| <= depth ==> Reached(g, t, visits, next, path)
  }

  ghost predicate Reached(g: Graph, t: nat, visits: seq<Visit>, next: seq<Field>, path: seq<nat>) {
    Target(g, t, path).Some? ==> Visited(visits, Target(g, t, path).value) || Queued(next, Target(g, t, path).value)
  }

  ghost predicate Behind(g: Graph, t: nat, visits: seq<Visit>, depth: nat) {
    forall path: seq<nat> :: |path| < depth ==> Reached(g, t, visits, [], path)
  }

  function LevelAbove(g: Graph, visits: seq<Visit>, depth: nat, v: nat): nat
    requires InGraph(g, visits)
  {
    if depth == 0 then 0 else LevelCount(g, visits, depth - 1, v)
  }

  lemma VisitedSnoc(visits: seq<Visit>, v: Visit, u: nat)
    ensures Visited(visits + [v], u) <==> Visited(visits, u) || v.typ == u
  {
    if Visited(visits, u) {
      var k :| 0 <= k < |visits| && visits[k].typ == u;
      assert (visits + [v])[k].typ == u;
    }
    assert (visits + [v])[|visits|] == v;
  }

  /** One more visit: what it adds to the records and to the counts. */
  lemma VisitSnoc(g: Graph, visits: seq<Visit>, v: Visit)
    requires InGraph(g, visits) && v.typ in g
    ensures InGraph(g, visits + [v])
    ensures RecordAll(g, visits + [v]) == RecordAll(g, visits) + RecordOne(g, v, |g[v.typ]|)
    ensures forall depth: nat, w ::
      LevelCount(g, visits + [v], depth, w)
        == LevelCount(g, visits, depth, w) + if |v.index| == depth then EmbedCount(g, v.typ, w, |g[v.typ]|) else 0
  {
    assert (visits + [v])[..|visits|] == visits;
  }

  /** The state of the walk in the middle of a level. */
  ghost predicate Walking(g: Graph, t: nat, visits: seq<Visit>, next: seq<Field>, nextCount: map<nat, nat>, depth: nat) {
    && Explored(g, t, visits, depth + 1) && Flagged(g, visits)
    && Counted(next, nextCount) && AtLevel(g, t, next, depth + 1)
    && (forall w :: Get(nextCount, w) == LevelCount(g, visits, depth, w))
  }

  /** A queued struct that has not been visited is reached by a shortest path. */
  lemma FirstTime(g: Graph, t: nat, visits: seq<Visit>, f: Field, depth: nat)
    requires Behind(g, t, visits, depth) && !Visited(visits, f.typ)
    requires Target(g, t, f.index) == Some(f.typ) && |f.index| == depth
    ensures Shortest(g, t, f.index)
  {
    hide Target;
    forall q: seq<nat> | Target(g, t, q) == Target(g, t, f.index) ensures |f.index| <= |q| {
      assert |q| < depth ==> Reached(g, t, visits, [], q);
    }
  }

  lemma VisitAdded(g: Graph, t: nat, visits: seq<Visit>, v: Visit, depth: nat)
    requires Explored(g, t, visits, depth + 1) && Flagged(g, visits)
    requires v.typ in g && ShortVisit(g, t, v) && |v.index| == depth && !Visited(visits, v.typ)
    requires v.dup <==> LevelAbove(g, visits, depth, v.typ) > 1
    ensures Explored(g, t, visits + [v], depth + 1) && Flagged(g, visits + [v])
  {
    ExploredMore(g, t, visits, v, depth);
    hide Target, LevelCount, ShortVisit, RightFlag;
    var more := visits + [v];
    forall k | 0 <= k < |more| ensures RightFlag(g, more, more[k]) {
      if k < |visits| {
        assert more[k] == visits[k] && RightFlag(g, visits, visits[k]);
        FlagKept(g, visits, v, visits[k]);
      } else {
        FlagOfNew(g, visits, v, depth);
      }
    }
  }

  lemma FlagKept(g: Graph, visits: seq<Visit>, v: Visit, x: Visit)
    requires InGraph(g, visits) && v.typ in g && RightFlag(g, visits, x) && |x.index| <= |v.index|
    ensures InGraph(g, visits + [v]) && RightFlag(g, visits + [v], x)
  {
    hide LevelCount;
    VisitSnoc(g, visits, v);
  }

  lemma FlagOfNew(g: Graph, visits: seq<Visit>, v: Visit, depth: nat)
    requires InGraph(g, visits) && v.typ in g && |v.index| == depth
    requires v.dup <==> LevelAbove(g, visits, depth, v.typ) > 1
    ensures InGraph(g, visits + [v]) && RightFlag(g, visits + [v], v)
  {
    hide LevelCount;
    VisitSnoc(g, visits, v);
  }

  lemma ExploredMore(g: Graph, t: nat, visits: seq<Visit>, v: Visit, depth: nat)
    requires Explored(g, t, visits, depth + 1)
    requires v.typ in g && ShortVisit(g, t, v) && |v.index| == depth && !Visited(visits, v.typ)
    ensures Explored(g, t, visits + [v], depth + 1)
  {
    hide Target, ShortVisit;
  }

  /** The loop over one level. */
  method Level(g: Graph, ghost t: nat, current: seq<Field>, count: map<nat, nat>, visited: set<nat>, fields: seq<Field>,
               ghost visits: seq<Visit>, ghost depth: nat)
    returns (visited': set<nat>, fields': seq<Field>, next: seq<Field>, nextCount: map<nat, nat>, ghost visits': seq<Visit>)
    requires Closed(g) && AtLevel(g, t, current, depth) && (forall k :: 0 <= k < |current| ==> current[k].typ in g)
    requires Explored(g, t, visits, depth) && Flagged(g, visits) && Behind(g, t, visits, depth)
    requires fields == RecordAll(g, visits) && forall u :: u in visited <==> Visited(visits, u)
    requires forall w :: Get(count, w) == LevelAbove(g, visits, depth, w)
    ensures Walking(g, t, visits', next, nextCount, depth)
    ensures fields' == RecordAll(g, visits') && forall u :: u in visited' <==> Visited(visits', u)
    ensures visits <= visits' && visited <= visited' && (visited' == visited ==> next == [])
    ensures forall k :: 0 <= k < |current| ==> Visited(visits', current[k].typ)
  {
    hide Target, RecordAll, LevelCount, Counted, Get, Shortest;
    visited', fields', next, nextCount, visits' := visited, fields, [], map[], visits;
    StartLevel(g, t, visits, depth);
    for i := 0 to |current|
      invariant Walking(g, t, visits', next, nextCount, depth)
      invariant fields' == RecordAll(g, visits') && forall u :: u in visited' <==> Visited(visits', u)
      invariant visits <= visits' && visited <= visited' && (visited' == visited ==> next == [])
      invariant forall k :: 0 <= k < i ==> Visited(visits', current[k].typ)
      invariant Behind(g, t, visits', depth)
      invariant forall w :: Get(count, w) == LevelAbove(g, visits', depth, w)
    {
      var f := current[i];
      if f.typ in visited' { continue; }
      var v := Visit(f.index, f.typ, Get(count, f.typ) > 1);
      FirstTime(g, t, visits', f, depth);
      VisitAdded(g, t, visits', v, depth);
      VisitSnoc(g, visits', v);
      forall u ensures Visited(visits' + [v], u) <==> Visited(visits', u) || u == f.typ { VisitedSnoc(visits', v, u); }
      BehindGrows(g, t, visits', v, depth);
      visited' := visited' + {f.typ};
      fields', next, nextCount := Scan(g, t, v, fields', next, nextCount);
      visits' := visits' + [v];
    }
  }

  lemma BehindGrows(g: Graph, t: nat, visits: seq<Visit>, v: Visit, depth: nat)
    requires Behind(g, t, visits, depth)
    ensures Behind(g, t, visits + [v], depth)
  {
    hide Target;
    forall path: seq<nat> | |path| < depth ensures Reached(g, t, visits + [v], [], path) {
      assert Reached(g, t, visits, [], path);
      if Target(g, t, path).Some? { VisitedSnoc(visits, v, Target(g, t, path).value); }
    }
  }

  lemma StartLevel(g: Graph, t: nat, visits: seq<Visit>, depth: nat)
    requires Explored(g, t, visits, depth) && Flagged(g, visits)
    ensures Walking(g, t, visits, [], map[], depth)
  {
    hide Target, Shortest, ShortVisit;
    forall w ensures LevelCount(g, visits, depth, w) == 0 { NothingBelow(g, visits, depth, w); }
  }

  lemma {:induction false} NothingBelow(g: Graph, visits: seq<Visit>, depth: nat, w: nat)
    requires InGraph(g, visits) && forall k :: 0 <= k < |visits| ==> |visits[k].index| < depth
    ensures LevelCount(g, visits, depth, w) == 0
  {
    if visits != [] { NothingBelow(g, visits[..|visits| - 1], depth, w); }
  }

  lemma {:induction false} EmbedPositive(g: Graph, u: nat, v: nat, i: nat, k: nat)
    requires u in g && i < k <= |g[u]| && Embeds(g[u][i]) && g[u][i].typ == v
    ensures EmbedCount(g, u, v, k) > 0
  {
    if i < k - 1 { EmbedPositive(g, u, v, i, k - 1); }
  }

  lemma {:induction false} LevelPositive(g: Graph, visits: seq<Visit>, k: nat, v: nat)
    requires InGraph(g, visits) && k < |visits| && EmbedCount(g, visits[k].typ, v, |g[visits[k].typ]|) > 0
    ensures LevelCount(g, visits, |visits[k].index|, v) > 0
  {
    if k < |visits| - 1 {
      var most := visits[..|visits| - 1];
      assert most[k] == visits[k];
      LevelPositive(g, most, k, v);
    }
  }

  /** Up to the level just scanned everything is visited. */
  lemma LevelDone(g: Graph, t: nat, before: seq<Visit>, current: seq<Field>, visits: seq<Visit>, depth: nat)
    requires CompleteTo(g, t, before, current, depth) && before <= visits
    requires forall k :: 0 <= k < |current| ==> Visited(visits, current[k].typ)
    ensures Behind(g, t, visits, depth + 1)
  {
    hide Target;
    forall path: seq<nat> | |path| < depth + 1 ensures Reached(g, t, visits, [], path) {
      assert Reached(g, t, before, current, path);
      if Target(g, t, path).Some? {
        var u := Target(g, t, path).value;
        if Visited(before, u) {
          var k :| 0 <= k < |before| && before[k].typ == u;
          assert visits[k].typ == u;
        }
      }
    }
  }

  /** What a visited struct embeds is visited, or queued if the struct is on the last level. */
  lemma EmbeddedReached(g: Graph, t: nat, visits: seq<Visit>, next: seq<Field>, nextCount: map<nat, nat>, depth: nat, k: nat, i: nat)
    requires Closed(g) && Walking(g, t, visits, next, nextCount, depth) && Behind(g, t, visits, depth + 1)
    requires k < |visits| && i < |g[visits[k].typ]| && Embeds(g[visits[k].typ][i])
    ensures var u := g[visits[k].typ][i].typ; Visited(visits, u) || Queued(next, u)
  {
    hide Shortest, LevelCount, EmbedCount;
    var v := visits[k];
    assert ShortVisit(g, t, v);
    var u := g[v.typ][i].typ;
    if |v.index| < depth {
      TargetStep(g, t, v.index, v.typ, i);
      assert Reached(g, t, visits, [], v.index + [i]);
    } else {
      EmbedPositive(g, v.typ, u, i, |g[v.typ]|);
      LevelPositive(g, visits, k, u);
      assert Get(nextCount, u) > 0;
    }
  }

  lemma NextLevelComplete(g: Graph, t: nat, visits: seq<Visit>, next: seq<Field>, nextCount: map<nat, nat>, depth: nat)
    requires Closed(g) && Walking(g, t, visits, next, nextCount, depth) && Behind(g, t, visits, depth + 1)
    ensures CompleteTo(g, t, visits, next, depth + 1)
  {
    hide Walking;
    forall path: seq<nat> | |path| <= depth + 1 ensures Reached(g, t, visits, next, path) {
      if |path| <= depth {
        assert Reached(g, t, visits, [], path);
      } else if Target(g, t, path).Some? {
        var p, i := path[..|path| - 1], path[|path| - 1];
        assert Reached(g, t, visits, [], p);
        var k :| 0 <= k < |visits| && visits[k].typ == Target(g, t, p).value;
        EmbeddedReached(g, t, visits, next, nextCount, depth, k, i);
      }
    }
  }

  /** With nothing queued the walk has reached everything there is to reach. */
  lemma {:induction false} AllReached(g: Graph, t: nat, visits: seq<Visit>, depth: nat, path: seq<nat>)
    requires Closed(g) && Explored(g, t, visits, depth) && CompleteTo(g, t, visits, [], depth)
    ensures Reached(g, t, visits, [], path)
  {
    if |path| <= depth {
      assert Reached(g, t, visits, [], path);
    } else if Target(g, t, path).Some? {
      var p, i := path[..|path| - 1], path[|path| - 1];
      AllReached(g, t, visits, depth, p);
      var k :| 0 <= k < |visits| && visits[k].typ == Target(g, t, p).value;
      assert ShortVisit(g, t, visits[k]);
      TargetStep(g, t, visits[k].index, visits[k].typ, i);
      assert Reached(g, t, visits, [], visits[k].index + [i]);
    }
  }

  /** What the walk hands over: every reachable struct once, by a shortest path, with its flag. */
  ghost predicate Walked(g: Graph, t: nat, visits: seq<Visit>) {
    && Closed(g) && InGraph(g, visits)
    && (forall k :: 0 <= k < |visits| ==> ShortVisit(g, t, visits[k]) && RightFlag(g, visits, visits[k]))
    && (forall j, k :: 0 <= j < k < |visits| ==> visits[j].typ != visits[k].typ)
    && (forall path: seq<nat> :: Target(g, t, path).Some? ==> Visited(visits, Target(g, t, path).value))
  }

  /** The walk: it terminates on every graph, visits every reachable struct once, by a shortest path,
      and records the fields of each, twice where the level above embeds the struct repeatedly. */
  method Collect(g: Graph, t: nat) returns (fields: seq<Field>, ghost visits: seq<Visit>)
    requires Closed(g) && t in g
    ensures Walked(g, t, visits) && fields == RecordAll(g, visits)
  {
    hide Target, Shortest, LevelCount, RecordAll, ShortVisit;
    RootQueued(g, t);
    var next := [Field([], false, [], t)];
    var nextCount: map<nat, nat> := map[];
    var visited: set<nat> := {};
    ghost var depth := 0;
    fields, visits := [], [];
    while |next| > 0
      invariant AtLevel(g, t, next, depth) && (forall k :: 0 <= k < |next| ==> next[k].typ in g)
      invariant Explored(g, t, visits, depth) && Flagged(g, visits) && Behind(g, t, visits, depth)
      invariant CompleteTo(g, t, visits, next, depth)
      invariant fields == RecordAll(g, visits) && forall u :: u in visited <==> Visited(visits, u)
      invariant forall w :: Get(nextCount, w) == LevelAbove(g, visits, depth, w)
      decreases g.Keys - visited, |next|
    {
      var current, count := next, nextCount;
      ghost var before, seen := visits, visited;
      visited, fields, next, nextCount, visits := Level(g, t, current, count, visited, fields, visits, depth);
      LevelDone(g, t, before, current, visits, depth);
      NextLevelComplete(g, t, visits, next, nextCount, depth);
      QueuedInGraph(g, t, next, depth + 1);
      VisitedInGraph(g, visits);
      depth := depth + 1;
    }
    assert next == [];
    forall path: seq<nat> | Target(g, t, path).Some? ensures Visited(visits, Target(g, t, path).value) {
      AllReached(g, t, visits, depth, path);
    }
  }

  lemma RootQueued(g: Graph, t: nat)
    requires t in g
    ensures var next := [Field([], false, [], t)];
      AtLevel(g, t, next, 0) && CompleteTo(g, t, [], next, 0) && Behind(g, t, [], 0)
    ensures RecordAll(g, []) == []
  {
    var next := [Field([], false, [], t)];
    assert next[0].typ == t;
    forall path: seq<nat> | |path| <= 0 ensures Reached(g, t, [], next, path) {
      assert path == [];
    }
  }

  lemma QueuedInGraph(g: Graph, t: nat, next: seq<Field>, depth: nat)
    requires AtLevel(g, t, next, depth)
    ensures forall k :: 0 <= k < |next| ==> next[k].typ in g
  {
  }

  lemma VisitedInGraph(g: Graph, visits: seq<Visit>)
    requires InGraph(g, visits)
    ensures forall u :: Visited(visits, u) ==> u in g.Keys
  {
  }
}
