/** The document the TOML parser builds, as a tree of tables, and dotted names. */
module TomlTables {
  import opened Bytes

  type Name = seq<byte>
  type Path = seq<Name>

  datatype Value =
    | StrVal(text: seq<byte>)
    | BoolVal(b: bool)
    | IntVal(n: int)
    | FloatVal(text: seq<byte>)
    | DateVal(text: seq<byte>)
    | ArrayVal(elems: seq<Value>)

  /** An array of tables has at least one element; only the last can still grow. */
  datatype Entry = Leaf(value: Value) | Table(sub: Dict) | Tables(closed: seq<Dict>, last: Dict)

  datatype Dict = Dict(entries: map<Name, Entry>)

  const EMPTY := Dict(map[])

  /** The table a path of names leads to; below an array of tables that is its last element. */
  function Walk(d: Dict, path: Path): Option<Dict> {
    if path == [] then Some(d)
    else match Descend(d, path[0])
      case None => None
      case Some(sub) => Walk(sub, path[1..])
  }

  function Descend(d: Dict, name: Name): Option<Dict> {
    if name !in d.entries then None
    else match d.entries[name]
      case Leaf(_) => None
      case Table(sub) => Some(sub)
      case Tables(_, last) => Some(last)
  }

  /** What is stored at a path. */
  function Find(d: Dict, path: Path): Option<Entry>
    requires path != []
  {
    match Walk(d, path[..|path| - 1])
    case None => None
    case Some(hash) => if path[|path| - 1] in hash.entries then Some(hash.entries[path[|path| - 1]]) else None
  }

  /** hash[key] = entry, where hash is the table at `path`. */
  function Put(d: Dict, path: Path, key: Name, entry: Entry): Dict
    requires Walk(d, path).Some?
  {
    if path == [] then Dict(d.entries[key := entry])
    else
      var below := Put(Descend(d, path[0]).value, path[1..], key, entry);
      match d.entries[path[0]]
      case Tables(closed, _) => Dict(d.entries[path[0] := Tables(closed, below)])
      case _ => Dict(d.entries[path[0] := Table(below)])
  }

  lemma {:induction false} WalkAppend(d: Dict, path: Path, name: Name)
    ensures Walk(d, path + [name]) ==
      match Walk(d, path) case None => None case Some(hash) => Descend(hash, name)
  {
    if path == [] {
      assert ([] + [name])[1..] == [];
    } else if Descend(d, path[0]).Some? {
      assert (path + [name])[1..] == path[1..] + [name];
      WalkAppend(Descend(d, path[0]).value, path[1..], name);
    }
  }

  lemma {:induction false} WalkPrefix(d: Dict, path: Path, prefix: Path)
    requires prefix <= path && Walk(d, path).Some?
    ensures Walk(d, prefix).Some?
  {
    if prefix != [] {
      assert prefix[1..] <= path[1..];
      WalkPrefix(Descend(d, path[0]).value, path[1..], prefix[1..]);
    }
  }

  /** Recursive reading of Find, from the root down. */
  lemma {:induction false} FindStep(d: Dict, path: Path)
    requires |path| > 1
    ensures Find(d, path) ==
      match Descend(d, path[0]) case None => None case Some(sub) => Find(sub, path[1..])
  {
    assert path[..|path| - 1][1..] == path[1..][..|path| - 2];
  }

  lemma {:induction false} PutFound(d: Dict, at: Path, key: Name, entry: Entry)
    requires Walk(d, at).Some?
    ensures Walk(Put(d, at, key, entry), at) == Some(Dict(Walk(d, at).value.entries[key := entry]))
    decreases |at|
  {
    if at != [] {
      PutFound(Descend(d, at[0]).value, at[1..], key, entry);
    }
  }

  lemma FindWalks(d: Dict, path: Path)
    requires path != []
    ensures Walk(d, path).Some? <==> Find(d, path).Some? && !Find(d, path).value.Leaf?
  {
    WalkAppend(d, path[..|path| - 1], path[|path| - 1]);
    assert path[..|path| - 1] + [path[|path| - 1]] == path;
  }

  lemma FindsIn(d: Dict, at: Path, name: Name)
    ensures Find(d, at + [name]) == match Walk(d, at)
      case None => None
      case Some(hash) => if name in hash.entries then Some(hash.entries[name]) else None
  {
    assert (at + [name])[..|at|] == at;
  }

  // --- What stands where -------------------------------------------------------------------------

  /** What stands at a path; below an array of tables, in its last element. */
  datatype Kind = Nothing | AValue(value: Value) | ATable | AnArray(closed: nat)

  function KindOf(e: Entry): Kind {
    match e
    case Leaf(v) => AValue(v)
    case Table(_) => ATable
    case Tables(closed, _) => AnArray(|closed|)
  }

  function KindAt(d: Dict, path: Path): Kind
    requires path != []
  {
    match Find(d, path)
    case None => Nothing
    case Some(e) => KindOf(e)
  }

  /** The elements of an array of tables that no later path can reach. */
  function ClosedAt(d: Dict, path: Path): seq<Dict>
    requires path != []
  {
    match Find(d, path)
    case Some(Tables(closed, _)) => closed
    case _ => []
  }

  lemma KindWalks(d: Dict, path: Path)
    requires path != []
    ensures Walk(d, path).Some? <==> KindAt(d, path).ATable? || KindAt(d, path).AnArray?
  {
    FindWalks(d, path);
  }

  /** Nothing stands below a value or below nothing. */
  lemma KindAbove(d: Dict, path: Path, prefix: Path)
    requires prefix != [] && prefix < path && !KindAt(d, path).Nothing?
    ensures KindAt(d, prefix).ATable? || KindAt(d, prefix).AnArray?
  {
    assert prefix <= path[..|path| - 1];
    WalkPrefix(d, path[..|path| - 1], prefix);
    KindWalks(d, prefix);
  }

  /** An entry with nothing below it. */
  predicate Fresh(e: Entry) { e.Leaf? || (e.Table? && e.sub == EMPTY) || (e.Tables? && e.last == EMPTY) }

  lemma FreshEnds(d: Dict, path: Path)
    requires |path| > 1 && path[0] in d.entries && Fresh(d.entries[path[0]])
    ensures Find(d, path) == None
  {
    FindStep(d, path);
    var rest := path[1..];
    assert rest[..|rest| - 1] == [] || Walk(EMPTY, rest[..|rest| - 1]) == None;
  }

  /** Writing an entry changes what stands at its own path, clears what stood below, and keeps everything
      else, the closed elements of all other arrays included. */
  lemma {:induction false} PutKind(d: Dict, at: Path, key: Name, entry: Entry, path: Path)
    requires Walk(d, at).Some? && Fresh(entry) && path != []
    ensures KindAt(Put(d, at, key, entry), path) ==
      if path == at + [key] then KindOf(entry) else if at + [key] <= path then Nothing else KindAt(d, path)
    ensures !(at + [key] <= path) ==> ClosedAt(Put(d, at, key, entry), path) == ClosedAt(d, path)
    decreases |at|
  {
    var d' := Put(d, at, key, entry);
    if at == [] {
      assert [] + [key] == [key];
      assert [key] <= path <==> path[0] == key;
      if |path| > 1 {
        FindStep(d, path);
        FindStep(d', path);
        if path[0] == key { FreshEnds(d', path); }
      } else {
        assert path == [path[0]];
      }
    } else if |path| > 1 {
      FindStep(d, path);
      FindStep(d', path);
      HeadsOff(at, key, path);
      if path[0] == at[0] {
        PutKind(Descend(d, at[0]).value, at[1..], key, entry, path[1..]);
      }
    }
  }

  lemma HeadsOff(at: Path, key: Name, path: Path)
    requires at != [] && path != []
    ensures at + [key] <= path <==> at[0] == path[0] && at[1..] + [key] <= path[1..]
    ensures at + [key] == path <==> at[0] == path[0] && at[1..] + [key] == path[1..]
  {
    assert at + [key] == [at[0]] + (at[1..] + [key]);
    assert path == [path[0]] + path[1..];
  }

  // --- Dotted names ------------------------------------------------------------------------------

  /** Key.String(): the names joined with dots. */
  function Dotted(path: Path): seq<byte> {
    if path == [] then [] else if |path| == 1 then path[0] else path[0] + [DOT] + Dotted(path[1..])
  }

  predicate DotFree(path: Path) { forall n <- path :: DOT !in n }

  /** On dot-free names the dotted string determines the path. */
  lemma {:induction false} DottedInjective(p: Path, q: Path)
    requires p != [] && q != [] && DotFree(p) && DotFree(q) && Dotted(p) == Dotted(q)
    ensures p == q
    decreases |p|
  {
    var s := Dotted(p);
    FirstDot(p);
    FirstDot(q);
    assert p[0] == s[..|p[0]|] && q[0] == s[..|q[0]|];
    if |p| > 1 {
      assert Dotted(p[1..]) == s[|p[0]| + 1..] && |q| > 1;
      assert Dotted(q[1..]) == s[|q[0]| + 1..];
      DottedInjective(p[1..], q[1..]);
      assert p == [p[0]] + p[1..] && q == [q[0]] + q[1..];
    } else {
      assert p == [p[0]] && q == [q[0]];
    }
  }

  lemma FirstDot(p: Path)
    requires p != [] && DotFree(p)
    ensures p[0] <= Dotted(p)
    ensures |p| > 1 ==> IndexOf(Dotted(p), DOT) == |p[0]|
    ensures |p| == 1 ==> IndexOf(Dotted(p), DOT) == -1
  {
    var s := Dotted(p);
    assert p[0] in p;
    if |p| > 1 {
      assert s[|p[0]|] == DOT && forall k :: 0 <= k < |p[0]| ==> s[k] == p[0][k];
      IndexOfUnique(s, DOT, |p[0]|);
    }
  }
}
