/** parse.go: the items of a document become nested tables, with implicit tables and their marks. */
module TomlParser {
  import opened Bytes
  import opened TomlTables
  import opened TomlReading
  import opened TomlBuild

  class Builder {
    var mapping: Dict
    var implicits: map<seq<byte>, bool>
    var context: Path
    var ordered: seq<Path>

    ghost function Now(): Build
      reads this
    {
      Build(mapping, implicits, context, ordered)
    }

    constructor ()
      ensures Now() == BLANK
    {
      mapping, implicits, context, ordered := EMPTY, map[], [], [];
    }

    method AddImplicit(path: Path)
      modifies `implicits
      ensures implicits == old(implicits)[Dotted(path) := true]
    {
      implicits := implicits[Dotted(path) := true];
    }

    /** One table on the way to a header's last name: made, and marked, when it is missing. */
    method EnterTable(at: Path, name: Name) returns (outcome: Outcome)
      requires Walk(mapping, at).Some?
      modifies `mapping, `implicits
      ensures Built(outcome, Now()) == Enter(old(Now()), at, name)
      ensures outcome == (if old(KindAt(mapping, at + [name])).AValue? then Refused else Accepted)
      ensures outcome == Accepted ==> Walk(mapping, at + [name]).Some?
      ensures !old(KindAt(mapping, at + [name])).Nothing? ==> mapping == old(mapping) && implicits == old(implicits)
      ensures old(KindAt(mapping, at + [name])).Nothing? ==>
        Added(old(mapping), mapping, at + [name], ATable) && Marked(implicits, Dotted(at + [name]))
    {
      hide Walk, Put, Dotted, ClosedAt, Find;
      FindsIn(mapping, at, name);
      KindWalks(mapping, at + [name]);
      if name !in Walk(mapping, at).value.entries {
        AddImplicit(at + [name]);
        AddEntry(mapping, at, name, Table(EMPTY));
        mapping := Put(mapping, at, name, Table(EMPTY));
        KindWalks(mapping, at + [name]);
      } else if Walk(mapping, at).value.entries[name].Leaf? {
        return Refused;
      }
      return Accepted;
    }

    /** establishContext: makes the tables on the way to a header, then the table itself. */
    method EstablishContext(key: Path, ofArray: bool) returns (outcome: Outcome)
      requires key != []
      modifies `mapping, `implicits, `context
      ensures Built(outcome, Now()) == Establish(old(Now()), key, ofArray)
      ensures outcome in {Accepted, Refused}
      ensures outcome == Accepted ==> context == key
    {
      hide Walk, Dotted, Enter, KindAt, Added;
      var last := key[|key| - 1];
      ghost var before := Now();
      RootWalks(mapping);
      for i := 0 to |key| - 1
        invariant EnterAll(before, key, i) == Built(Accepted, Now()) && Walk(mapping, key[..i]).Some?
      {
        assert key[..i] + [key[i]] == key[..i + 1];
        var entered := EnterTable(key[..i], key[i]);
        if entered != Accepted {
          EnterAllStops(before, key, i + 1, |key| - 1);
          return entered;
        }
      }
      context := key[..|key| - 1];
      if ofArray {
        outcome := AppendTable(last);
      } else {
        outcome := SetValue(last, Table(EMPTY));
      }
      if outcome != Accepted {
        return;
      }
      assert context + [last] == key;
      context := context + [last];
    }

    /** A further element of an array of tables; its first makes the array. */
    method AppendTable(name: Name) returns (outcome: Outcome)
      requires Walk(mapping, context).Some?
      modifies `mapping
      ensures Built(outcome, Now()) == AppendIn(old(Now()), name)
      ensures outcome in {Accepted, Refused}
      ensures outcome == Refused <==> old(KindAt(mapping, context + [name])).AValue? || old(KindAt(mapping, context + [name])).ATable?
      ensures outcome == Refused ==> mapping == old(mapping)
      ensures outcome == Accepted ==> Appended(old(mapping), mapping, context + [name])
    {
      hide Walk, Put, Find, Appended;
      AppendDoes(Now(), name);
      FindsIn(mapping, context, name);
      var hash := Walk(mapping, context).value;
      if name !in hash.entries {
        mapping := Put(mapping, context, name, Tables([], EMPTY));
        return Accepted;
      }
      if !hash.entries[name].Tables? { return Refused; }
      mapping := Put(mapping, context, name, Tables(hash.entries[name].closed + [hash.entries[name].last], EMPTY));
      return Accepted;
    }

    /** setValue: defines a key of the current table once. A key that exists only because of a deeper
        header may be defined once more; its mark goes and the given value is ignored. */
    method SetValue(key: Name, entry: Entry) returns (outcome: Outcome)
      requires entry.Leaf? || entry == Table(EMPTY)
      modifies `mapping, `implicits
      ensures Built(outcome, Now()) == SetIn(old(Now()), key, entry)
      ensures outcome in {Accepted, Refused, Bug}
      ensures outcome == Bug <==> Walk(old(mapping), context) == None
      ensures outcome == Accepted <==>
        (Walk(old(mapping), context).Some? &&
         (old(KindAt(mapping, context + [key])).Nothing? || old(Marked(implicits, Dotted(context + [key])))))
      ensures outcome != Accepted ==> mapping == old(mapping) && implicits == old(implicits)
      ensures outcome == Accepted ==> Added(old(mapping), mapping, context + [key], KindOf(entry))
      ensures outcome == Accepted && !old(KindAt(mapping, context + [key])).Nothing? ==>
        mapping == old(mapping) && !Marked(implicits, Dotted(context + [key]))
    {
      hide Walk, Put, Dotted, Find, Added;
      SetDoes(Now(), key, entry);
      FindsIn(mapping, context, key);
      if Walk(mapping, context) == None {
        return Bug;
      }
      var here := context + [key];
      if key in Walk(mapping, context).value.entries {
        if Marked(implicits, Dotted(here)) {
          implicits := implicits[Dotted(here) := false];
          return Accepted;
        }
        return Refused;
      }
      mapping := Put(mapping, context, key, entry);
      return Accepted;
    }

    /** A key with its value, in the current table. */
    method DefineKey(key: Name, value: Value) returns (outcome: Outcome)
      modifies this
      ensures Built(outcome, Now()) == Apply(old(Now()), Pair(key, value))
      ensures outcome in {Accepted, Refused, Bug}
    {
      hide SetIn, Added, KindAt, Walk, Dotted;
      outcome := SetValue(key, Leaf(value));
      if outcome == Accepted {
        ordered := ordered + [context + [key]];
      }
    }

    /** A table header. */
    method DefineTable(key: Path, ofArray: bool) returns (outcome: Outcome)
      requires key != []
      modifies this
      ensures Built(outcome, Now()) == Apply(old(Now()), Header(key, ofArray))
      ensures outcome in {Accepted, Refused}
    {
      hide Establish;
      outcome := EstablishContext(key, ofArray);
      if outcome == Accepted {
        ordered := ordered + [key];
      }
    }
  }
}
