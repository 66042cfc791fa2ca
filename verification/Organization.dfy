/** Organisation units and the one relation every traversal is about: who reaches whom by parent links. */
module Organization {
  import opened Wrappers

  type Id = string

  datatype Unit = Unit(id: Id, name: string, level: int, parent: Option<Id>, division: Option<string>,
                       enabled: bool, leaders: set<string>, sortOrder: int)

  type Units = map<Id, Unit>

  /** Units by id; a later row with the same id wins. */
  function ById(units: seq<Unit>): Units {
    if units == [] then map[] else ById(units[..|units| - 1])[units[|units| - 1].id := units[|units| - 1]]
  }

  predicate UniqueIds(units: seq<Unit>) {
    forall i, j :: 0 <= i < j < |units| ==> units[i].id != units[j].id
  }

  ghost predicate Keyed(m: Units) {
    forall k <- m :: m[k].id == k
  }

  lemma {:induction false} ByIdHolds(units: seq<Unit>)
    ensures Keyed(ById(units))
    ensures forall k :: k in ById(units) ==> ById(units)[k] in units
    ensures forall u <- units :: u.id in ById(units)
    ensures UniqueIds(units) ==> forall u <- units :: ById(units)[u.id] == u
  {
    if units != [] {
      var init, last := units[..|units| - 1], units[|units| - 1];
      assert units == init + [last];
      ByIdHolds(init);
    }
  }

  // ----- Parent links -----

  /** The unit n links above id, if the links lead that far. */
  function Ancestor(m: Units, id: Id, n: nat): Option<Id>
    decreases n
  {
    if id !in m then None
    else if n == 0 then Some(id)
    else if m[id].parent.None? then None
    else Ancestor(m, m[id].parent.value, n - 1)
  }

  /** `ancestor` is id itself or lies above it. */
  ghost predicate Reaches(m: Units, id: Id, ancestor: Id) {
    exists n: nat :: Ancestor(m, id, n) == Some(ancestor)
  }

  lemma ReachesSelf(m: Units, id: Id)
    requires id in m
    ensures Reaches(m, id, id)
  {
    assert Ancestor(m, id, 0) == Some(id);
  }

  lemma ReachesThroughParent(m: Units, id: Id, ancestor: Id)
    requires id in m && m[id].parent.Some? && Reaches(m, m[id].parent.value, ancestor)
    ensures Reaches(m, id, ancestor)
  {
    var n: nat :| Ancestor(m, m[id].parent.value, n) == Some(ancestor);
    assert Ancestor(m, id, n + 1) == Some(ancestor);
  }

  /** A set that holds a unit's reached ancestor, and each unit whose parent it holds, holds the unit. */
  lemma {:induction false} ClosedUnderChildren(m: Units, s: set<Id>, id: Id, n: nat)
    requires Ancestor(m, id, n).Some? && Ancestor(m, id, n).value in s
    requires forall k <- m :: m[k].parent.Some? && m[k].parent.value in s && m[k].parent.value in m ==> k in s
    ensures id in s
    decreases n
  {
    if n > 0 {
      ClosedUnderChildren(m, s, m[id].parent.value, n - 1);
    }
  }

  // ----- Walking up -----

  /** The ids met by following parent links until they end or come back. */
  function Walk(m: Units, id: Id, visited: set<Id>): (met: seq<Id>)
    requires visited <= m.Keys
    ensures forall x <- met :: x in m
    decreases |m.Keys - visited|
  {
    if id !in m || id in visited then []
    else
      assert m.Keys - (visited + {id}) < m.Keys - visited;
      SmallerSet(m.Keys - (visited + {id}), m.Keys - visited);
      [id] + (if m[id].parent.Some? then Walk(m, m[id].parent.value, visited + {id}) else [])
  }

  lemma SmallerSet<T>(a: set<T>, b: set<T>)
    requires a < b
    ensures |a| < |b|
  {
    var x :| x in b && x !in a;
    assert b == a + {x} + (b - a - {x});
  }

  /** Everything met is reached. */
  lemma {:induction false} WalkReaches(m: Units, id: Id, visited: set<Id>, x: Id)
    requires visited <= m.Keys && x in Walk(m, id, visited)
    ensures Reaches(m, id, x)
    decreases |m.Keys - visited|
  {
    if x == id {
      ReachesSelf(m, id);
    } else {
      SmallerSet(m.Keys - (visited + {id}), m.Keys - visited);
      WalkReaches(m, m[id].parent.value, visited + {id}, x);
      ReachesThroughParent(m, id, x);
    }
  }

  /** The walk only stops where links end or at a unit it has met. */
  lemma {:induction false} WalkIsClosed(m: Units, id: Id, visited: set<Id>, x: Id)
    requires visited <= m.Keys && x in Walk(m, id, visited) && x in m && m[x].parent.Some? && m[x].parent.value in m
    ensures m[x].parent.value in Walk(m, id, visited) || m[x].parent.value in visited
    decreases |m.Keys - visited|
  {
    SmallerSet(m.Keys - (visited + {id}), m.Keys - visited);
    if x == id {
      var p := m[id].parent.value;
      assert p in visited + {id} || p in Walk(m, p, visited + {id});
    } else {
      WalkIsClosed(m, m[id].parent.value, visited + {id}, x);
    }
  }

  lemma {:induction false} WalkMeetsAncestors(m: Units, id: Id, n: nat)
    requires Ancestor(m, id, n).Some?
    ensures Ancestor(m, id, n).value in Walk(m, id, {})
    decreases n
  {
    if n > 0 {
      AncestorStep(m, id, n - 1);
      WalkMeetsAncestors(m, id, n - 1);
      WalkIsClosed(m, id, {}, Ancestor(m, id, n - 1).value);
    }
  }

  /** The last link instead of the first. */
  lemma {:induction false} AncestorStep(m: Units, id: Id, n: nat)
    requires Ancestor(m, id, n + 1).Some?
    ensures Ancestor(m, id, n).Some? && Ancestor(m, id, n).value in m
    ensures m[Ancestor(m, id, n).value].parent == Ancestor(m, id, n + 1) && Ancestor(m, id, n + 1).value in m
    decreases n
  {
    if n > 0 {
      AncestorStep(m, m[id].parent.value, n - 1);
    }
  }

  /** On any parent graph, cycles included, the walk meets exactly what is reachable. */
  lemma WalkIsReachability(m: Units, id: Id, x: Id)
    ensures x in Walk(m, id, {}) <==> Reaches(m, id, x)
  {
    if x in Walk(m, id, {}) {
      WalkReaches(m, id, {}, x);
    }
    if Reaches(m, id, x) {
      var n: nat :| Ancestor(m, id, n) == Some(x);
      WalkMeetsAncestors(m, id, n);
    }
  }

  // ----- Forests -----

  /** Every parent exists one level above; only top units have none. */
  ghost predicate Forest(units: seq<Unit>) {
    && UniqueIds(units)
    && forall u <- units :: 1 <= u.level <= 5 &&
         (if u.parent.None? then u.level == 1
          else u.parent.value in ById(units) && ById(units)[u.parent.value].level == u.level - 1)
  }

  lemma {:induction false} AncestorLevel(units: seq<Unit>, id: Id, n: nat)
    requires Forest(units) && Ancestor(ById(units), id, n).Some?
    ensures id in ById(units) && Ancestor(ById(units), id, n).value in ById(units)
    ensures ById(units)[id].level == ById(units)[Ancestor(ById(units), id, n).value].level + n
    decreases n
  {
    ByIdHolds(units);
    if n > 0 {
      AncestorLevel(units, ById(units)[id].parent.value, n - 1);
    }
  }
}
