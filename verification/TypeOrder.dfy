/** The order in which C type definitions come out. A type contains another when its definition needs
    the other's to be complete, and mentions another when its C name is spelled with the other's. Types
    with one C name are one type here. */
module TypeOrder {
  import opened Options

  type Name = string

  datatype TypeNode = TypeNode(isPointer: bool, contains: seq<Name>, mentions: seq<Name>)

  type Types = map<Name, TypeNode>

  /** Contained and mentioned types are types of the program, and pointers contain nothing. */
  ghost predicate Closed(g: Types) {
    forall n | n in g ::
      && (g[n].isPointer ==> g[n].contains == [])
      && (forall c | c in g[n].contains :: c in g)
      && (forall c | c in g[n].mentions :: c in g)
  }

  /** What the traversal has collected: the names found, and the types finished, pointers apart. */
  datatype Collected = Collected(found: set<Name>, pointers: seq<Name>, others: seq<Name>)

  const NOTHING := Collected({}, [], [])

  function Finish(c: Collected, isPointer: bool, n: Name): Collected {
    if isPointer then Collected(c.found + {n}, c.pointers + [n], c.others)
    else Collected(c.found + {n}, c.pointers, c.others + [n])
  }

  /** The C name of the type can be spelled with at most `fuel` nested calls. */
  predicate NameEnds(g: Types, fuel: nat, n: Name)
    requires Closed(g) && n in g
    decreases fuel
  {
    fuel > 0 && forall m | m in g[n].mentions :: NameEnds(g, fuel - 1, m)
  }

  /** The depth-first traversal from one type, with at most `fuel` nested calls; none if they do not
      suffice. Each visit starts by spelling the name. */
  function Visit(g: Types, fuel: nat, n: Name, c: Collected): Option<Collected>
    requires Closed(g) && n in g
    decreases fuel, 0
  {
    if !NameEnds(g, fuel, n) then None
    else if n in c.found then Some(c)
    else
      match VisitAll(g, fuel - 1, g[n].contains, c)
      case None => None
      case Some(c') => Some(Finish(c', g[n].isPointer, n))
  }

  function VisitAll(g: Types, fuel: nat, names: seq<Name>, c: Collected): Option<Collected>
    requires Closed(g) && forall n | n in names :: n in g
    decreases fuel, |names|
  {
    if names == [] then Some(c)
    else
      match VisitAll(g, fuel, names[..|names| - 1], c)
      case None => None
      case Some(c') => Visit(g, fuel, names[|names| - 1], c')
  }

  /** Each type of the sequence comes after everything it contains. */
  ghost predicate Ordered(g: Types, order: seq<Name>) {
    forall i | 0 <= i < |order| :: order[i] in g && forall c | c in g[order[i]].contains :: c in order[..i]
  }

  /** The types with what their names mention in place of what they contain. */
  ghost function Spelled(g: Types): Types {
    map n | n in g :: g[n].(contains := g[n].mentions)
  }

  /** `order` puts these types, and every type they lead to, after what it contains, and `spelling` puts
      all of those after what their names mention. */
  ghost predicate Witness(g: Types, names: seq<Name>, order: seq<Name>, spelling: seq<Name>) {
    && Ordered(g, order) && (forall n | n in names :: n in order)
    && Ordered(Spelled(g), spelling) && (forall n | n in order :: n in spelling)
  }

  /** From these types on, containment is well-founded and every name is finite. */
  ghost predicate WellFounded(g: Types, names: seq<Name>) {
    exists order, spelling :: Witness(g, names, order, spelling)
  }

  function FirstIndex(order: seq<Name>, n: Name): (i: nat)
    requires n in order
    ensures i < |order| && order[i] == n && n !in order[..i]
  {
    if order[0] == n then 0 else 1 + FirstIndex(order[1..], n)
  }

  lemma ContainedIsEarlier(g: Types, order: seq<Name>, n: Name, c: Name)
    requires Ordered(g, order) && n in order && n in g && c in g[n].contains
    ensures c in order && FirstIndex(order, c) < FirstIndex(order, n)
  {
    var i := FirstIndex(order, n);
    assert c in order[..i];
    var j :| 0 <= j < i && order[j] == c;
    FirstIndexLeast(order, c, j);
  }

  lemma {:induction false} FirstIndexLeast(order: seq<Name>, n: Name, j: nat)
    requires j < |order| && order[j] == n
    ensures n in order && FirstIndex(order, n) <= j
  {
    if order[0] != n {
      FirstIndexLeast(order[1..], n, j - 1);
    }
  }

  // ----- names

  /** A name can be spelled within its place among the names, ordered by mention. */
  lemma {:induction false} NameSucceeds(g: Types, spelling: seq<Name>, fuel: nat, n: Name)
    requires Closed(g) && Ordered(Spelled(g), spelling) && n in spelling && n in g && FirstIndex(spelling, n) < fuel
    ensures NameEnds(g, fuel, n)
    decreases fuel
  {
    hide Ordered;
    forall m | m in g[n].mentions ensures NameEnds(g, fuel - 1, m) {
      ContainedIsEarlier(Spelled(g), spelling, n, m);
      NameSucceeds(g, spelling, fuel - 1, m);
    }
  }

  lemma {:induction false} MoreToSpell(g: Types, fuel: nat, more: nat, n: Name)
    requires Closed(g) && n in g && fuel <= more && NameEnds(g, fuel, n)
    ensures NameEnds(g, more, n)
    decreases fuel
  {
    forall m | m in g[n].mentions ensures NameEnds(g, more - 1, m) {
      MoreToSpell(g, fuel - 1, more - 1, m);
    }
  }

  /** Names that can be spelled can be ordered by mention. */
  lemma {:induction false} NamesShow(g: Types, fuel: nat, names: seq<Name>, before: seq<Name>)
    returns (spelling: seq<Name>)
    requires Closed(g) && (forall n | n in names :: n in g && NameEnds(g, fuel, n)) && Ordered(Spelled(g), before)
    ensures Ordered(Spelled(g), spelling) && forall n | n in names || n in before :: n in spelling
    decreases fuel, |names|
  {
    spelling := before;
    if names != [] {
      var init, last := names[..|names| - 1], names[|names| - 1];
      assert names == init + [last];
      var first := NamesShow(g, fuel, init, before);
      assert NameEnds(g, fuel, last);
      var mentioned := NamesShow(g, fuel - 1, g[last].mentions, first);
      spelling := mentioned + [last];
      OrderedAppend(Spelled(g), mentioned, last);
    }
  }

  lemma OrderedAppend(g: Types, order: seq<Name>, n: Name)
    requires Ordered(g, order) && n in g && forall c | c in g[n].contains :: c in order
    ensures Ordered(g, order + [n])
  {
    var order' := order + [n];
    forall i | 0 <= i < |order'| ensures order'[i] in g && forall m | m in g[order'[i]].contains :: m in order'[..i] {
      if i < |order| {
        assert order'[i] == order[i] && order'[..i] == order[..i];
      } else {
        assert order'[..i] == order;
      }
    }
  }

  // ----- what a finished traversal has collected

  /** The finished types: pointers first, no type twice, every type after everything it contains. */
  ghost predicate Sorted(g: Types, c: Collected) {
    && (forall i, j | 0 <= i < j < |c.pointers| :: c.pointers[i] != c.pointers[j])
    && (forall i, j | 0 <= i < j < |c.others| :: c.others[i] != c.others[j])
    && (forall n | n in c.pointers :: n in g && g[n].isPointer)
    && (forall n | n in c.others :: n in g && !g[n].isPointer)
    && (forall n :: n in c.found <==> n in c.pointers || n in c.others)
    && (forall i, n | 0 <= i < |c.others| && n in g[c.others[i]].contains :: n in c.pointers || n in c.others[..i])
  }

  lemma FinishKeeps(g: Types, c: Collected, n: Name)
    requires Closed(g) && Sorted(g, c) && n in g && n !in c.found && forall m | m in g[n].contains :: m in c.found
    ensures Sorted(g, Finish(c, g[n].isPointer, n))
  {
    var c' := Finish(c, g[n].isPointer, n);
    assert forall m :: m in c'.pointers <==> m in c.pointers || (g[n].isPointer && m == n);
    assert forall m :: m in c'.others <==> m in c.others || (!g[n].isPointer && m == n);
    forall i, m | 0 <= i < |c'.others| && m in g[c'.others[i]].contains
      ensures m in c'.pointers || m in c'.others[..i]
    {
      if i < |c.others| {
        assert c'.others[..i] == c.others[..i];
      } else {
        assert c'.others[..i] == c.others;
      }
    }
  }

  /** With containment well-founded and names finite, a traversal finishes exactly what the types lead
      to: it is deep enough, it keeps what was found, and it adds only types that come no later in the
      order. */
  lemma {:induction false} VisitSucceeds(g: Types, order: seq<Name>, spelling: seq<Name>, fuel: nat,
                                         n: Name, c: Collected)
    requires Closed(g) && Witness(g, [], order, spelling) && n in order && n in g && Sorted(g, c)
    requires FirstIndex(order, n) + |spelling| < fuel
    ensures Visit(g, fuel, n, c).Some?
    ensures var c' := Visit(g, fuel, n, c).value;
            && Sorted(g, c') && c.found <= c'.found && n in c'.found
            && forall m | m in c'.found && m !in c.found :: m in order && FirstIndex(order, m) <= FirstIndex(order, n)
    decreases fuel, 0
  {
    NameSucceeds(g, spelling, fuel, n);
    if n !in c.found {
      forall m | m in g[n].contains ensures m in order && FirstIndex(order, m) < FirstIndex(order, n) {
        ContainedIsEarlier(g, order, n, m);
      }
      VisitAllSucceeds(g, order, spelling, fuel - 1, g[n].contains, FirstIndex(order, n), c);
      FinishKeeps(g, VisitAll(g, fuel - 1, g[n].contains, c).value, n);
    }
  }

  lemma {:induction false} VisitAllSucceeds(g: Types, order: seq<Name>, spelling: seq<Name>, fuel: nat,
                                            names: seq<Name>, bound: nat, c: Collected)
    requires Closed(g) && Witness(g, [], order, spelling) && bound + |spelling| <= fuel && Sorted(g, c)
    requires forall n | n in names :: n in order && n in g && FirstIndex(order, n) < bound
    ensures VisitAll(g, fuel, names, c).Some?
    ensures var c' := VisitAll(g, fuel, names, c).value;
            && Sorted(g, c') && c.found <= c'.found && (forall n | n in names :: n in c'.found)
            && forall m | m in c'.found && m !in c.found :: m in order && FirstIndex(order, m) < bound
    decreases fuel, |names|
  {
    if names != [] {
      var init, last := names[..|names| - 1], names[|names| - 1];
      assert names == init + [last];
      VisitAllSucceeds(g, order, spelling, fuel, init, bound, c);
      VisitSucceeds(g, order, spelling, fuel, last, VisitAll(g, fuel, init, c).value);
    }
  }

  // ----- termination

  /** All of these names can be spelled. */
  ghost predicate NamesEnd(g: Types, fuel: nat, names: seq<Name>)
    requires Closed(g)
  {
    forall n | n in names :: n in g && NameEnds(g, fuel, n)
  }

  /** A traversal that ends has seen a well-founded part of the types. */
  lemma {:induction false} VisitShows(g: Types, fuel: nat, n: Name, c: Collected, order: seq<Name>, top: nat)
    returns (order': seq<Name>)
    requires Closed(g) && n in g && Visit(g, fuel, n, c).Some? && fuel <= top
    requires Ordered(g, order) && NamesEnd(g, top, order) && forall m | m in c.found :: m in order
    ensures Ordered(g, order') && NamesEnd(g, top, order') && n in order'
    ensures forall m | m in Visit(g, fuel, n, c).value.found :: m in order'
    decreases fuel, 0
  {
    if n in c.found {
      order' := order;
    } else {
      var before := VisitAllShows(g, fuel - 1, g[n].contains, c, order, top);
      OrderedAppend(g, before, n);
      MoreToSpell(g, fuel, top, n);
      order' := before + [n];
    }
  }

  lemma {:induction false} VisitAllShows(g: Types, fuel: nat, names: seq<Name>, c: Collected,
                                         order: seq<Name>, top: nat)
    returns (order': seq<Name>)
    requires Closed(g) && (forall n | n in names :: n in g) && VisitAll(g, fuel, names, c).Some? && fuel <= top
    requires Ordered(g, order) && NamesEnd(g, top, order) && forall m | m in c.found :: m in order
    ensures Ordered(g, order') && NamesEnd(g, top, order') && forall n | n in names :: n in order'
    ensures forall m | m in VisitAll(g, fuel, names, c).value.found :: m in order'
    decreases fuel, |names|
  {
    order' := order;
    if names != [] {
      var init, last := names[..|names| - 1], names[|names| - 1];
      var mid := VisitAllShows(g, fuel, init, c, order, top);
      var c1 := VisitAll(g, fuel, init, c).value;
      VisitAllFinds(g, fuel, init, c);
      order' := VisitShows(g, fuel, last, c1, mid, top);
      VisitFinds(g, fuel, last, c1);
      assert names == init + [last];
    }
  }

  /** A traversal that ends has found the types it was started on. */
  lemma {:induction false} VisitFinds(g: Types, fuel: nat, n: Name, c: Collected)
    requires Closed(g) && n in g && Visit(g, fuel, n, c).Some?
    ensures c.found <= Visit(g, fuel, n, c).value.found && n in Visit(g, fuel, n, c).value.found
    decreases fuel, 0
  {
    if n !in c.found {
      VisitAllFinds(g, fuel - 1, g[n].contains, c);
    }
  }

  lemma {:induction false} VisitAllFinds(g: Types, fuel: nat, names: seq<Name>, c: Collected)
    requires Closed(g) && (forall n | n in names :: n in g) && VisitAll(g, fuel, names, c).Some?
    ensures c.found <= VisitAll(g, fuel, names, c).value.found
    ensures forall n | n in names :: n in VisitAll(g, fuel, names, c).value.found
    decreases fuel, |names|
  {
    if names != [] {
      var init, last := names[..|names| - 1], names[|names| - 1];
      assert names == init + [last];
      VisitAllFinds(g, fuel, init, c);
      VisitFinds(g, fuel, last, VisitAll(g, fuel, init, c).value);
    }
  }

  /** The traversal ends if and only if containment is well-founded and names are finite. */
  lemma TerminatesExactly(g: Types, names: seq<Name>)
    requires Closed(g) && forall n | n in names :: n in g
    ensures (exists fuel :: VisitAll(g, fuel, names, NOTHING).Some?) <==> WellFounded(g, names)
  {
    if fuel :| VisitAll(g, fuel, names, NOTHING).Some? {
      var order := VisitAllShows(g, fuel, names, NOTHING, [], fuel);
      var spelling := NamesShow(g, fuel, order, []);
      assert Witness(g, names, order, spelling);
    }
    if WellFounded(g, names) {
      var order, spelling :| Witness(g, names, order, spelling);
      assert Witness(g, [], order, spelling);
      VisitAllSucceeds(g, order, spelling, |order| + |spelling|, names, |order|, NOTHING);
    }
  }

  /** What the program's types lead to: the least set of names with the given ones and, with every type,
      what it contains. */
  ghost predicate ClosedUnder(g: Types, names: seq<Name>, s: set<Name>) {
    (forall n | n in names :: n in s) && (forall n, m | n in s && n in g && m in g[n].contains :: m in s)
  }

  lemma {:induction false} VisitFindsOnly(g: Types, fuel: nat, n: Name, c: Collected, s: set<Name>)
    requires Closed(g) && n in g && Visit(g, fuel, n, c).Some?
    requires n in s && c.found <= s && ClosedUnder(g, [], s)
    ensures Visit(g, fuel, n, c).value.found <= s
    decreases fuel, 0
  {
    if n !in c.found {
      VisitAllFindsOnly(g, fuel - 1, g[n].contains, c, s);
    }
  }

  lemma {:induction false} VisitAllFindsOnly(g: Types, fuel: nat, names: seq<Name>, c: Collected, s: set<Name>)
    requires Closed(g) && (forall n | n in names :: n in g) && VisitAll(g, fuel, names, c).Some?
    requires c.found <= s && ClosedUnder(g, names, s)
    ensures VisitAll(g, fuel, names, c).value.found <= s
    decreases fuel, |names|
  {
    if names != [] {
      var init, last := names[..|names| - 1], names[|names| - 1];
      VisitAllFindsOnly(g, fuel, init, c, s);
      VisitFindsOnly(g, fuel, last, VisitAll(g, fuel, init, c).value, s);
    }
  }

  /** What comes out: exactly the types the given ones lead to, each once, pointers first, and every
      other type after all it contains. */
  lemma DefinitionsAreSorted(g: Types, fuel: nat, names: seq<Name>)
    requires Closed(g) && (forall n | n in names :: n in g) && VisitAll(g, fuel, names, NOTHING).Some?
    ensures var c := VisitAll(g, fuel, names, NOTHING).value;
            var out := c.pointers + c.others;
            && (forall i, j | 0 <= i < j < |out| :: out[i] != out[j])
            && (forall i | 0 <= i < |out| :: out[i] in g && (g[out[i]].isPointer <==> i < |c.pointers|))
            && (forall i, m | 0 <= i < |out| && m in g[out[i]].contains :: m in out[..i])
            && (forall n :: n in out <==> n in c.found)
            && ClosedUnder(g, names, c.found) && (forall s | ClosedUnder(g, names, s) :: c.found <= s)
  {
    var c := VisitAll(g, fuel, names, NOTHING).value;
    TerminatesExactly(g, names);
    var order, spelling :| Witness(g, names, order, spelling);
    assert Witness(g, [], order, spelling);
    var enough := fuel + |order| + |spelling|;
    VisitAllSucceeds(g, order, spelling, enough, names, |order|, NOTHING);
    MoreFuelAll(g, fuel, enough, names, NOTHING);
    hide Ordered, VisitAll;
    ListedOnce(g, c);
    FoundIsClosed(g, c);
    var out := c.pointers + c.others;
    forall i, m | 0 <= i < |out| && m in g[out[i]].contains ensures m in out[..i] { ListedInOrder(g, c, i, m); }
    hide Sorted;
    forall s | ClosedUnder(g, names, s) ensures c.found <= s { VisitAllFindsOnly(g, fuel, names, NOTHING, s); }
  }

  lemma ListedOnce(g: Types, c: Collected)
    requires Sorted(g, c)
    ensures var out := c.pointers + c.others;
            && (forall i, j | 0 <= i < j < |out| :: out[i] != out[j])
            && (forall i | 0 <= i < |out| :: out[i] in g && (g[out[i]].isPointer <==> i < |c.pointers|))
            && (forall n :: n in out <==> n in c.found)
  {
    var out, p := c.pointers + c.others, |c.pointers|;
    forall i | 0 <= i < |out| ensures out[i] in g && (g[out[i]].isPointer <==> i < p) {
      assert if i < p then out[i] in c.pointers else out[i] in c.others;
    }
    forall i, j | 0 <= i < j < |out| ensures out[i] != out[j] {
      assert g[out[i]].isPointer == g[out[j]].isPointer ==> (i < p <==> j < p);
    }
  }

  lemma ListedInOrder(g: Types, c: Collected, i: nat, m: Name)
    requires Closed(g) && Sorted(g, c) && i < |c.pointers + c.others| && (c.pointers + c.others)[i] in g
    ensures m in g[(c.pointers + c.others)[i]].contains ==> m in (c.pointers + c.others)[..i]
  {
    var out, p := c.pointers + c.others, |c.pointers|;
    if i < p {
      assert out[i] in c.pointers;
      assert g[out[i]].contains == [];
    } else {
      assert out[i] == c.others[i - p];
      assert out[..i] == c.pointers + c.others[..i - p];
    }
  }

  lemma FoundIsClosed(g: Types, c: Collected)
    requires Closed(g) && Sorted(g, c)
    ensures ClosedUnder(g, [], c.found)
  {
    forall n, m | n in c.found && n in g && m in g[n].contains ensures m in c.found {
      if n in c.others {
        var i :| 0 <= i < |c.others| && c.others[i] == n;
      }
    }
  }

  lemma {:induction false} MoreFuel(g: Types, fuel: nat, more: nat, n: Name, c: Collected)
    requires Closed(g) && n in g && fuel <= more && Visit(g, fuel, n, c).Some?
    ensures Visit(g, more, n, c) == Visit(g, fuel, n, c)
    decreases fuel, 0
  {
    MoreToSpell(g, fuel, more, n);
    if n !in c.found {
      MoreFuelAll(g, fuel - 1, more - 1, g[n].contains, c);
    }
  }

  lemma {:induction false} MoreFuelAll(g: Types, fuel: nat, more: nat, names: seq<Name>, c: Collected)
    requires Closed(g) && (forall n | n in names :: n in g) && fuel <= more && VisitAll(g, fuel, names, c).Some?
    ensures VisitAll(g, more, names, c) == VisitAll(g, fuel, names, c)
    decreases fuel, |names|
  {
    if names != [] {
      var init, last := names[..|names| - 1], names[|names| - 1];
      MoreFuelAll(g, fuel, more, init, c);
      MoreFuel(g, fuel, more, last, VisitAll(g, fuel, init, c).value);
    }
  }

  /** Three types that contain one another in turn are in no order. */
  lemma CyclesNeverEnd(g: Types, n: Name, m: Name, k: Name, order: seq<Name>)
    requires n in g && m in g && k in g && m in g[n].contains && k in g[m].contains && n in g[k].contains
    requires Ordered(g, order)
    ensures n !in order
  {
    if n in order {
      ContainedIsEarlier(g, order, n, m);
      ContainedIsEarlier(g, order, m, k);
      ContainedIsEarlier(g, order, k, n);
      assert false;
    }
  }

  /** `type Tree struct { children []Tree }` is legal Go, and the traversal never ends on it, although
      all names are finite. */
  lemma TreesNeverEnd(g: Types)
    requires Closed(g) && "Tree" in g && "struct" in g && "[]Tree" in g
    requires g["Tree"] == TypeNode(false, ["struct"], ["struct"]) && g["struct"] == TypeNode(false, ["[]Tree"], [])
    requires g["[]Tree"] == TypeNode(false, ["Tree"], ["Tree"])
    ensures forall fuel :: VisitAll(g, fuel, ["Tree"], NOTHING).None?
    ensures NameEnds(g, 3, "[]Tree")
  {
    TerminatesExactly(g, ["Tree"]);
    if WellFounded(g, ["Tree"]) {
      var order, spelling :| Witness(g, ["Tree"], order, spelling);
      assert "Tree" in ["Tree"];
      CyclesNeverEnd(g, "Tree", "struct", "[]Tree", order);
    }
    assert NameEnds(g, 1, "struct");
    assert NameEnds(g, 2, "Tree");
  }

  /** `type C chan C` and `type P *P` are legal Go. Containment ends at the channel or pointer type, but
      the name does not, and neither does the traversal. */
  lemma NamesNeverEnd(g: Types, n: Name, m: Name)
    requires Closed(g) && n in g && m in g
    requires g[n] == TypeNode(false, [m], [m]) && g[m].contains == [] && g[m].mentions == [n]
    ensures Ordered(g, [m, n])
    ensures forall fuel :: VisitAll(g, fuel, [n], NOTHING).None?
  {
    assert [m, n][..1] == [m];
    TerminatesExactly(g, [n]);
    if WellFounded(g, [n]) {
      var order, spelling :| Witness(g, [n], order, spelling);
      assert n in [n];
      ContainedIsEarlier(Spelled(g), spelling, n, m);
      ContainedIsEarlier(Spelled(g), spelling, m, n);
      assert false;
    }
  }

  /** The traversal as cgen runs it, on a found-set and two lists that grow. */
  class TypeCollector {
    const types: Types
    var foundTypeSet: set<Name>
    var pointerTypes: seq<Name>
    var nonPointerTypes: seq<Name>

    constructor (types: Types)
      ensures this.types == types && Model() == NOTHING
    {
      this.types := types;
      foundTypeSet, pointerTypes, nonPointerTypes := {}, [], [];
    }

    ghost function Model(): Collected
      reads this
    {
      Collected(foundTypeSet, pointerTypes, nonPointerTypes)
    }

    /** Terminates because containment is well-founded and names are finite: `order` and `spelling` show it. */
    method VisitType(name: Name, ghost order: seq<Name>, ghost spelling: seq<Name>)
      requires Closed(types) && Witness(types, [name], order, spelling) && name in types
      modifies this
      ensures forall fuel: nat | FirstIndex(order, name) + |spelling| < fuel ::
                Visit(types, fuel, name, old(Model())) == Some(Model())
      decreases FirstIndex(order, name)
    {
      assert name in [name];
      forall fuel: nat | |spelling| < fuel ensures NameEnds(types, fuel, name) {
        NameSucceeds(types, spelling, fuel, name);
      }
      if name in foundTypeSet {
        return;
      }
      var node := types[name];
      ghost var start, rank := Model(), FirstIndex(order, name) + |spelling|;
      for i := 0 to |node.contains|
        invariant forall fuel: nat | rank <= fuel :: VisitAll(types, fuel, node.contains[..i], start) == Some(Model())
      {
        ContainedIsEarlier(types, order, name, node.contains[i]);
        assert node.contains[..i + 1][..i] == node.contains[..i];
        VisitType(node.contains[i], order, spelling);
      }
      assert node.contains[..|node.contains|] == node.contains;
      assert forall fuel: nat | rank <= fuel :: VisitAll(types, fuel, node.contains, start) == Some(Model());
      foundTypeSet := foundTypeSet + {name};
      if node.isPointer {
        pointerTypes := pointerTypes + [name];
      } else {
        nonPointerTypes := nonPointerTypes + [name];
      }
    }

    /** `retrieveOrderedTypes`: visits every type of the package; the result lists pointers first. */
    method RetrieveOrderedTypes(names: seq<Name>, ghost order: seq<Name>, ghost spelling: seq<Name>)
      returns (out: seq<Name>)
      requires Closed(types) && (forall n | n in names :: n in types) && Model() == NOTHING
      requires Witness(types, names, order, spelling)
      modifies this
      ensures forall fuel: nat | |order| + |spelling| <= fuel :: VisitAll(types, fuel, names, NOTHING) == Some(Model())
      ensures out == Model().pointers + Model().others
    {
      for i := 0 to |names|
        invariant forall fuel: nat | |order| + |spelling| <= fuel ::
                    VisitAll(types, fuel, names[..i], NOTHING) == Some(Model())
      {
        assert names[..i + 1][..i] == names[..i];
        VisitType(names[i], order, spelling);
      }
      assert names[..|names|] == names;
      out := pointerTypes + nonPointerTypes;
    }
  }
}
