/** Method sets of types, the tables cgen emits for them, and the search the runtime makes in a table. */
module MethodTables {
  import opened Options

  /** Which method a call means: two methods that are not exported and come from different packages are
      different, even if their names are the same. */
  datatype MethodId = MethodId(pkg: Option<nat>, name: nat)

  /** A method of a type; there is no function for it if the type is an interface. */
  datatype Method = Method(id: MethodId, fn: Option<nat>)

  /** What is known of the type of the value in an interface. Only pointers to the named types of a
      package have a method table; a value of any other type has an empty one. */
  datatype TypeInfo = TypeInfo(hasTable: bool, methods: seq<Method>)

  datatype InterfaceTableEntry = InterfaceTableEntry(name: nat, fn: nat)

  /** Go's rule: the method that is called is the one with the identity the call names. */
  function MethodOf(methods: seq<Method>, id: MethodId): Option<nat> {
    if methods == [] then None
    else if methods[0].id == id then methods[0].fn
    else MethodOf(methods[1..], id)
  }

  /** The entries for methods with a function, in order. */
  function TableEntries(methods: seq<Method>): seq<InterfaceTableEntry> {
    if methods == [] then []
    else if methods[0].fn.Some? then
      [InterfaceTableEntry(methods[0].id.name, methods[0].fn.value)] + TableEntries(methods[1..])
    else TableEntries(methods[1..])
  }

  function Table(t: TypeInfo): seq<InterfaceTableEntry> {
    if t.hasTable then TableEntries(t.methods) else []
  }

  /** `emitInterfaceTableDefinition`: picks the methods that have a function, then writes their entries. */
  method EmitInterfaceTable(t: TypeInfo) returns (table: seq<InterfaceTableEntry>)
    ensures table == Table(t)
  {
    hide TableEntries, Picked;
    var entryIndexes: seq<nat> := [];
    PickNone(t.methods);
    if t.hasTable {
      for i := 0 to |t.methods|
        invariant forall j | 0 <= j < |entryIndexes| ::
                    entryIndexes[j] < |t.methods| && t.methods[entryIndexes[j]].fn.Some?
        invariant Picked(t.methods, entryIndexes) + TableEntries(t.methods[i..]) == TableEntries(t.methods)
      {
        PickNext(t.methods, entryIndexes, i);
        if t.methods[i].fn.Some? {
          entryIndexes := entryIndexes + [i];
        }
      }
    }
    table := [];
    for j := 0 to |entryIndexes|
      invariant table == Picked(t.methods, entryIndexes)[..j]
    {
      PickedAt(t.methods, entryIndexes, j);
      var m := t.methods[entryIndexes[j]];
      table := table + [InterfaceTableEntry(m.id.name, m.fn.value)];
    }
  }

  function Picked(methods: seq<Method>, indexes: seq<nat>): (picked: seq<InterfaceTableEntry>)
    requires forall j | 0 <= j < |indexes| :: indexes[j] < |methods| && methods[indexes[j]].fn.Some?
    ensures |picked| == |indexes|
  {
    seq(|indexes|, j requires 0 <= j < |indexes| =>
      InterfaceTableEntry(methods[indexes[j]].id.name, methods[indexes[j]].fn.value))
  }

  lemma PickNone(methods: seq<Method>)
    ensures Picked(methods, []) == [] && TableEntries(methods[|methods|..]) == [] && methods[0..] == methods
  {
  }

  lemma PickedAt(methods: seq<Method>, indexes: seq<nat>, j: nat)
    requires forall i | 0 <= i < |indexes| :: indexes[i] < |methods| && methods[indexes[i]].fn.Some?
    requires j < |indexes|
    ensures var m := methods[indexes[j]];
            Picked(methods, indexes)[j] == InterfaceTableEntry(m.id.name, m.fn.value)
  {
  }

  lemma PickNext(methods: seq<Method>, indexes: seq<nat>, i: nat)
    requires forall j | 0 <= j < |indexes| :: indexes[j] < |methods| && methods[indexes[j]].fn.Some?
    requires i < |methods|
    ensures Picked(methods, if methods[i].fn.Some? then indexes + [i] else indexes) + TableEntries(methods[i + 1..])
            == Picked(methods, indexes) + TableEntries(methods[i..])
  {
    assert methods[i..][1..] == methods[i + 1..];
    if methods[i].fn.Some? {
      var e := InterfaceTableEntry(methods[i].id.name, methods[i].fn.value);
      assert Picked(methods, indexes + [i]) == Picked(methods, indexes) + [e];
    }
  }

  /** `Interface::search`: the first entry of that name. */
  function Search(table: seq<InterfaceTableEntry>, name: int): Option<nat> {
    if table == [] then None
    else if table[0].name == name then Some(table[0].fn)
    else Search(table[1..], name)
  }

  /** The search by name finds the method that is meant. */
  predicate Resolves(t: TypeInfo, id: MethodId) {
    Search(Table(t), id.name) == MethodOf(t.methods, id)
  }

  /** No method is in the method set twice. */
  ghost predicate DistinctIds(methods: seq<Method>) {
    forall i, j | 0 <= i < j < |methods| :: methods[i].id != methods[j].id
  }

  /** Methods of one name have one function. */
  ghost predicate NamesTell(methods: seq<Method>) {
    forall i, j | 0 <= i < j < |methods| ::
      methods[i].fn.Some? && methods[j].fn.Some? && methods[i].id.name == methods[j].id.name ==>
        methods[i].fn == methods[j].fn
  }

  lemma {:induction false} MethodAt(methods: seq<Method>, i: nat)
    requires DistinctIds(methods) && i < |methods|
    ensures MethodOf(methods, methods[i].id) == methods[i].fn
    decreases i
  {
    if i > 0 { MethodAt(methods[1..], i - 1); }
  }

  lemma {:induction false} MethodIs(methods: seq<Method>, id: MethodId) returns (i: nat)
    requires MethodOf(methods, id).Some?
    ensures i < |methods| && methods[i].id == id && methods[i].fn == MethodOf(methods, id)
  {
    if methods[0].id == id {
      i := 0;
    } else {
      var j := MethodIs(methods[1..], id);
      i := j + 1;
    }
  }

  /** The search ends at the first method of that name that has a function. */
  lemma {:induction false} SearchAt(methods: seq<Method>, name: nat, i: nat)
    requires i < |methods| && methods[i].id.name == name && methods[i].fn.Some?
    requires forall k | 0 <= k < i :: methods[k].id.name == name ==> methods[k].fn.None?
    ensures Search(TableEntries(methods), name) == methods[i].fn
    decreases i
  {
    if i > 0 {
      SearchAt(methods[1..], name, i - 1);
    }
  }

  /** The first method of that name that has a function, at or before `i`. */
  lemma {:induction false} FirstNamed(methods: seq<Method>, name: nat, i: nat) returns (k: nat)
    requires i < |methods| && methods[i].id.name == name && methods[i].fn.Some?
    ensures k <= i && methods[k].id.name == name && methods[k].fn.Some?
    ensures forall j | 0 <= j < k :: methods[j].id.name == name ==> methods[j].fn.None?
    decreases i
  {
    k := i;
    if j :| 0 <= j < i && methods[j].id.name == name && methods[j].fn.Some? {
      k := FirstNamed(methods, name, j);
    }
  }

  /** The search finds every method of a type if and only if the type has a table, or no methods to put
      there, and no two of its methods have one name and different functions. */
  lemma ResolvesExactly(t: TypeInfo)
    requires DistinctIds(t.methods)
    ensures (forall id | MethodOf(t.methods, id).Some? :: Resolves(t, id)) <==>
            (t.hasTable || forall i | 0 <= i < |t.methods| :: t.methods[i].fn.None?) && NamesTell(t.methods)
  {
    var ms := t.methods;
    if forall id | MethodOf(ms, id).Some? :: Resolves(t, id) {
      forall i | 0 <= i < |ms| && ms[i].fn.Some?
        ensures t.hasTable
        ensures forall j | 0 <= j < i && ms[j].fn.Some? && ms[j].id.name == ms[i].id.name :: ms[j].fn == ms[i].fn
      {
        MethodAt(ms, i);
        assert Resolves(t, ms[i].id);
        forall j | 0 <= j < i && ms[j].fn.Some? && ms[j].id.name == ms[i].id.name ensures ms[j].fn == ms[i].fn {
          MethodAt(ms, j);
          assert Resolves(t, ms[j].id);
        }
      }
    }
    if (t.hasTable || forall i | 0 <= i < |ms| :: ms[i].fn.None?) && NamesTell(ms) {
      forall id | MethodOf(ms, id).Some? ensures Resolves(t, id) {
        var i := MethodIs(ms, id);
        var k := FirstNamed(ms, id.name, i);
        SearchAt(ms, id.name, k);
        assert ms[k].fn == ms[i].fn;
      }
    }
  }

  /** A type with a method of its own in an interface, as a value and not through a pointer: the method is
      not found. */
  lemma ValuesHaveNoTable(id: MethodId, fn: nat)
    ensures var t := TypeInfo(false, [Method(id, Some(fn))]);
            MethodOf(t.methods, id) == Some(fn) && Search(Table(t), id.name) == None
  {
  }

  /** A type that embeds types of two packages, each with a method of the same name that is not exported:
      a call of the second one finds the first. */
  lemma EmbeddedNamesCollide(name: nat, pkg: nat, other: nat, fn: nat, fn': nat)
    requires pkg != other
    ensures var t := TypeInfo(true, [Method(MethodId(Some(pkg), name), Some(fn)),
                                     Method(MethodId(Some(other), name), Some(fn'))]);
            && DistinctIds(t.methods)
            && MethodOf(t.methods, MethodId(Some(other), name)) == Some(fn') && Search(Table(t), name) == Some(fn)
  {
    var second := Method(MethodId(Some(other), name), Some(fn'));
    assert [Method(MethodId(Some(pkg), name), Some(fn)), second][1..] == [second];
  }
}
