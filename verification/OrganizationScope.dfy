/** The organisation part of a session's claims: managed units and the divisions below a role's scope. */
module OrganizationScope {
  import opened Wrappers
  import opened Organization

  // ----- Closing a set of ids under children, in place -----

  /** A unit whose parent may bring it in. */
  predicate Follows(u: Unit, ids: set<Id>, onlyEnabled: bool) {
    (onlyEnabled ==> u.enabled) && u.parent.Some? && u.parent.value in ids
  }

  predicate Closed(units: seq<Unit>, ids: set<Id>, onlyEnabled: bool) {
    forall u <- units :: Follows(u, ids, onlyEnabled) ==> u.id in ids
  }

  /** n links, each through a row that may follow, lead from id up into the starting set. */
  ghost predicate Linked(units: seq<Unit>, start: set<Id>, onlyEnabled: bool, id: Id, n: nat)
    decreases n
  {
    if n == 0 then id in start
    else exists u <- units :: u.id == id && (onlyEnabled ==> u.enabled) && u.parent.Some?
                           && Linked(units, start, onlyEnabled, u.parent.value, n - 1)
  }

  ghost predicate InClosure(units: seq<Unit>, start: set<Id>, onlyEnabled: bool, id: Id) {
    exists n: nat :: Linked(units, start, onlyEnabled, id, n)
  }

  /** A row that follows a linked one is linked. */
  lemma FollowerIsLinked(units: seq<Unit>, start: set<Id>, onlyEnabled: bool, ids: set<Id>, u: Unit)
    requires u in units && Follows(u, ids, onlyEnabled)
    requires forall x <- ids :: InClosure(units, start, onlyEnabled, x)
    ensures InClosure(units, start, onlyEnabled, u.id)
  {
    var n: nat :| Linked(units, start, onlyEnabled, u.parent.value, n);
    assert Linked(units, start, onlyEnabled, u.id, n + 1);
  }

  /** The closure is the least closed set: every closed set around the start holds it. */
  lemma {:induction false} ClosureIsLeast(units: seq<Unit>, start: set<Id>, onlyEnabled: bool, ids: set<Id>, id: Id, n: nat)
    requires start <= ids && Closed(units, ids, onlyEnabled) && Linked(units, start, onlyEnabled, id, n)
    ensures id in ids
    decreases n
  {
    if n > 0 {
      var u :| u in units && u.id == id && (onlyEnabled ==> u.enabled) && u.parent.Some?
            && Linked(units, start, onlyEnabled, u.parent.value, n - 1);
      ClosureIsLeast(units, start, onlyEnabled, ids, u.parent.value, n - 1);
      assert Follows(u, ids, onlyEnabled);
    }
  }

  /** Passes over the rows until one adds nothing: whatever the row order, the result is the least closed set. */
  method Closure(units: seq<Unit>, start: set<Id>, onlyEnabled: bool) returns (ids: set<Id>)
    ensures start <= ids && Closed(units, ids, onlyEnabled)
    ensures forall x :: x in ids <==> InClosure(units, start, onlyEnabled, x)
  {
    ids := start;
    forall x | x in start ensures InClosure(units, start, onlyEnabled, x) {
      assert Linked(units, start, onlyEnabled, x, 0);
    }
    ghost var everything := start + set u <- units :: u.id;
    var changed := true;
    while changed
      invariant start <= ids <= everything
      invariant forall x <- ids :: InClosure(units, start, onlyEnabled, x)
      invariant !changed ==> Closed(units, ids, onlyEnabled)
      decreases |everything - ids| + if changed then 1 else 0
    {
      var before := ids;
      ids, changed := Pass(units, start, ids, onlyEnabled);
      if changed {
        assert everything - ids < everything - before;
        SmallerSet(everything - ids, everything - before);
      }
    }
    forall x | InClosure(units, start, onlyEnabled, x) ensures x in ids {
      var n: nat :| Linked(units, start, onlyEnabled, x, n);
      ClosureIsLeast(units, start, onlyEnabled, ids, x, n);
    }
  }

  /** One pass of the loop. */
  method Pass(units: seq<Unit>, ghost start: set<Id>, ids: set<Id>, onlyEnabled: bool) returns (grown: set<Id>, changed: bool)
    requires forall x <- ids :: InClosure(units, start, onlyEnabled, x)
    ensures ids <= grown <= ids + set u <- units :: u.id
    ensures forall x <- grown :: InClosure(units, start, onlyEnabled, x)
    ensures changed <==> grown != ids
    ensures !changed ==> Closed(units, ids, onlyEnabled)
  {
    grown, changed := ids, false;
    for i := 0 to |units|
      invariant ids <= grown <= ids + set u <- units :: u.id
      invariant forall x <- grown :: InClosure(units, start, onlyEnabled, x)
      invariant changed <==> grown != ids
      invariant !changed ==> forall j :: 0 <= j < i ==> Follows(units[j], ids, onlyEnabled) ==> units[j].id in ids
    {
      var unit := units[i];
      if Follows(unit, grown, onlyEnabled) && unit.id !in grown {
        FollowerIsLinked(units, start, onlyEnabled, grown, unit);
        grown, changed := grown + {unit.id}, true;
      }
    }
  }

  /** The order and repetition of rows make no difference. */
  lemma {:induction false} RowOrderIsIrrelevant(a: seq<Unit>, b: seq<Unit>, start: set<Id>, onlyEnabled: bool, id: Id, n: nat)
    requires forall u :: u in a <==> u in b
    ensures Linked(a, start, onlyEnabled, id, n) <==> Linked(b, start, onlyEnabled, id, n)
    decreases n
  {
    if n > 0 {
      forall u | u in a && u.parent.Some?
        ensures Linked(a, start, onlyEnabled, u.parent.value, n - 1) <==> Linked(b, start, onlyEnabled, u.parent.value, n - 1)
      {
        RowOrderIsIrrelevant(a, b, start, onlyEnabled, u.parent.value, n - 1);
      }
    }
  }

  /** From one existing unit and through all rows, linked is reaching. */
  lemma {:induction false} LinkedIsAncestor(units: seq<Unit>, root: Id, onlyEnabled: bool, id: Id, n: nat)
    requires UniqueIds(units) && root in ById(units)
    requires onlyEnabled ==> forall u <- units :: u.enabled
    ensures Linked(units, {root}, onlyEnabled, id, n) <==> Ancestor(ById(units), id, n) == Some(root)
    decreases n
  {
    var m := ById(units);
    ByIdHolds(units);
    if n > 0 && id in m && m[id].parent.Some? {
      LinkedIsAncestor(units, root, onlyEnabled, m[id].parent.value, n - 1);
    }
  }

  /** The closure of one unit holds exactly the units that reach it. */
  lemma ClosureIsReachability(units: seq<Unit>, root: Id, onlyEnabled: bool, id: Id)
    requires UniqueIds(units) && root in ById(units)
    requires onlyEnabled ==> forall u <- units :: u.enabled
    ensures InClosure(units, {root}, onlyEnabled, id) <==> Reaches(ById(units), id, root)
  {
    if InClosure(units, {root}, onlyEnabled, id) {
      var n: nat :| Linked(units, {root}, onlyEnabled, id, n);
      LinkedIsAncestor(units, root, onlyEnabled, id, n);
    }
    if Reaches(ById(units), id, root) {
      var n: nat :| Ancestor(ById(units), id, n) == Some(root);
      LinkedIsAncestor(units, root, onlyEnabled, id, n);
    }
  }

  // ----- Managed units -----

  /** The enabled units the user leads. */
  function Led(units: seq<Unit>, user: string): set<Id> {
    set u <- units | u.enabled && user in u.leaders :: u.id
  }

  /** Led units and, through enabled units only, everything below them. */
  method ManagedUnits(units: seq<Unit>, user: string) returns (managed: set<Id>)
    ensures forall x :: x in managed <==> InClosure(units, Led(units, user), true, x)
  {
    managed := Closure(units, Led(units, user), true);
  }

  /** Every managed unit is enabled and lies below, or is, an enabled unit the user leads. */
  lemma {:induction false} ManagedIsBelowLed(units: seq<Unit>, user: string, id: Id, n: nat)
    requires UniqueIds(units) && Linked(units, Led(units, user), true, id, n)
    ensures id in ById(units) && ById(units)[id].enabled
    ensures Ancestor(ById(units), id, n).Some? && Ancestor(ById(units), id, n).value in Led(units, user)
    decreases n
  {
    ByIdHolds(units);
    if n > 0 {
      var u :| u in units && u.id == id && u.enabled && u.parent.Some? && Linked(units, Led(units, user), true, u.parent.value, n - 1);
      ManagedIsBelowLed(units, user, u.parent.value, n - 1);
    }
  }

  // ----- The scope search -----

  /** Rows whose id is listed, in row order. */
  function Listed(units: seq<Unit>, ids: seq<Id>): seq<Unit> {
    if units == [] then []
    else
      var last := units[|units| - 1];
      Listed(units[..|units| - 1], ids) + (if last.id in ids then [last] else [])
  }

  lemma {:induction false} ListedHolds(units: seq<Unit>, ids: seq<Id>)
    ensures forall u :: u in Listed(units, ids) <==> u in units && u.id in ids
    ensures UniqueIds(units) ==> UniqueIds(Listed(units, ids))
  {
    if units != [] {
      var init, last := units[..|units| - 1], units[|units| - 1];
      assert units == init + [last];
      ListedHolds(init, ids);
    }
  }

  /** The ids of a unit's children, in row order. */
  function ChildIds(units: seq<Unit>, id: Id): seq<Id> {
    if units == [] then []
    else
      var last := units[|units| - 1];
      ChildIds(units[..|units| - 1], id) + (if last.parent == Some(id) then [last.id] else [])
  }

  lemma {:induction false} ChildIdsHold(units: seq<Unit>, id: Id)
    ensures forall x :: x in ChildIds(units, id) <==> exists c <- units :: c.parent == Some(id) && c.id == x
  {
    if units != [] {
      var init, last := units[..|units| - 1], units[|units| - 1];
      assert units == init + [last];
      ChildIdsHold(init, id);
    }
  }

  /** The children of all the rows listed, row by row. */
  function Frontier(units: seq<Unit>, layer: seq<Unit>): seq<Id> {
    if layer == [] then [] else Frontier(units, layer[..|layer| - 1]) + ChildIds(units, layer[|layer| - 1].id)
  }

  lemma {:induction false} FrontierHolds(units: seq<Unit>, layer: seq<Unit>)
    ensures forall x :: x in Frontier(units, layer) <==> exists u <- layer, c <- units :: c.parent == Some(u.id) && c.id == x
  {
    if layer != [] {
      var init, last := layer[..|layer| - 1], layer[|layer| - 1];
      assert layer == init + [last];
      FrontierHolds(units, init);
      ChildIdsHold(units, last.id);
    }
  }

  /** The ids k links below the root. */
  ghost predicate IsLayer(m: Units, root: Id, ids: seq<Id>, k: nat) {
    forall x :: x in ids <==> Ancestor(m, x, k) == Some(root)
  }

  /** The children of layer k are layer k + 1. */
  lemma NextLayer(units: seq<Unit>, root: Id, ids: seq<Id>, k: nat)
    requires UniqueIds(units) && IsLayer(ById(units), root, ids, k)
    ensures IsLayer(ById(units), root, Frontier(units, Listed(units, ids)), k + 1)
  {
    var m := ById(units);
    ByIdHolds(units);
    var next := Frontier(units, Listed(units, ids));
    ListedHolds(units, ids);
    FrontierHolds(units, Listed(units, ids));
    forall x ensures x in next <==> Ancestor(m, x, k + 1) == Some(root) {
      if x in next {
        var u, c :| u in Listed(units, ids) && c in units && c.parent == Some(u.id) && c.id == x;
        assert m[x] == c;
      }
      if Ancestor(m, x, k + 1) == Some(root) {
        var c := m[x];
        assert Ancestor(m, c.parent.value, k) == Some(root);
        var u := m[c.parent.value];
        assert u in Listed(units, ids) && c in units;
      }
    }
  }

  /** Rows at distances below k. */
  ghost predicate Nearer(m: Units, root: Id, id: Id, k: nat) {
    exists j: nat :: j < k && Ancestor(m, id, j) == Some(root)
  }

  ghost predicate IsNearer(units: seq<Unit>, root: Id, subtree: seq<Unit>, k: nat) {
    UniqueIds(subtree) && forall u :: u in subtree <==> u in units && Nearer(ById(units), root, u.id, k)
  }

  /** The root does not lie above itself. */
  ghost predicate OffCycle(m: Units, root: Id) {
    forall n: nat :: n > 0 ==> Ancestor(m, root, n) != Some(root)
  }

  /** A unit at two distances from the root puts the root above itself. */
  lemma {:induction false} TwoDistances(m: Units, root: Id, id: Id, j: nat, k: nat)
    requires j < k && Ancestor(m, id, j) == Some(root) && Ancestor(m, id, k) == Some(root)
    ensures Ancestor(m, root, k - j) == Some(root)
    decreases j
  {
    if j > 0 {
      TwoDistances(m, root, m[id].parent.value, j - 1, k - 1);
    }
  }

  /** A layer adds rows that were not listed before, and at least one if it is not empty. */
  lemma AddLayer(units: seq<Unit>, root: Id, subtree: seq<Unit>, ids: seq<Id>, k: nat)
    requires UniqueIds(units) && OffCycle(ById(units), root)
    requires IsNearer(units, root, subtree, k) && IsLayer(ById(units), root, ids, k)
    ensures IsNearer(units, root, subtree + Listed(units, ids), k + 1)
    ensures ids != [] ==> Listed(units, ids) != []
  {
    var m := ById(units);
    var layer := Listed(units, ids);
    ByIdHolds(units);
    ListedHolds(units, ids);
    forall u, v | u in subtree && v in layer ensures u.id != v.id {
      var j: nat :| j < k && Ancestor(m, u.id, j) == Some(root);
      if u.id == v.id {
        TwoDistances(m, root, u.id, j, k);
      }
    }
    forall u ensures u in subtree + layer <==> u in units && Nearer(m, root, u.id, k + 1) {
      if u in layer {
        assert Ancestor(m, u.id, k) == Some(root);
      }
      if Nearer(m, root, u.id, k + 1) {
        var j: nat :| j < k + 1 && Ancestor(m, u.id, j) == Some(root);
        assert j < k || u.id in ids;
      }
    }
    if ids != [] {
      assert ids[0] in ids;
      assert m[ids[0]] in layer;
    }
  }

  lemma {:induction false} RowsOfSet(rows: seq<Unit>)
    ensures |(set u <- rows)| <= |rows|
    ensures UniqueIds(rows) ==> |(set u <- rows)| == |rows|
  {
    if rows != [] {
      var init, last := rows[..|rows| - 1], rows[|rows| - 1];
      assert rows == init + [last];
      RowsOfSet(init);
      assert (set u <- rows) == (set u <- init) + {last};
    }
  }

  /** Rows listed once are no more than there are. */
  lemma DistinctRowsFit(units: seq<Unit>, rows: seq<Unit>)
    requires UniqueIds(rows) && forall u <- rows :: u in units
    ensures |rows| <= |units|
  {
    RowsOfSet(rows);
    RowsOfSet(units);
    SubsetSize(set u <- rows, set u <- units);
  }

  lemma SubsetSize<T>(a: set<T>, b: set<T>)
    requires a <= b
    ensures |a| <= |b|
  {
    if a != b {
      SmallerSet(a, b);
    }
  }

  /** The breadth-first search of a scope: when the root is on no cycle it ends, and lists each unit at or below the
      root once. */
  method Subtree(units: seq<Unit>, root: Id) returns (subtree: seq<Unit>)
    requires UniqueIds(units) && root in ById(units) && OffCycle(ById(units), root)
    ensures UniqueIds(subtree)
    ensures forall u :: u in subtree <==> u in units && Reaches(ById(units), u.id, root)
  {
    hide IsLayer, IsNearer, Listed, Frontier, OffCycle;
    ghost var k := 0;
    subtree := [];
    var frontier := [root];
    SearchStarts(units, root);
    while frontier != []
      invariant IsLayer(ById(units), root, frontier, k) && IsNearer(units, root, subtree, k)
      decreases |units| - |subtree|
    {
      NextLayer(units, root, frontier, k);
      AddLayer(units, root, subtree, frontier, k);
      NearerFits(units, root, subtree + Listed(units, frontier), k + 1);
      var layer;
      layer, frontier := Round(units, frontier);
      subtree := subtree + layer;
      k := k + 1;
    }
    SearchEnds(units, root, subtree, k);
  }

  lemma NearerFits(units: seq<Unit>, root: Id, subtree: seq<Unit>, k: nat)
    requires IsNearer(units, root, subtree, k)
    ensures |subtree| <= |units|
  {
    DistinctRowsFit(units, subtree);
  }

  lemma SearchStarts(units: seq<Unit>, root: Id)
    requires root in ById(units)
    ensures IsLayer(ById(units), root, [root], 0) && IsNearer(units, root, [], 0)
  {
  }

  lemma SearchEnds(units: seq<Unit>, root: Id, subtree: seq<Unit>, k: nat)
    requires IsLayer(ById(units), root, [], k) && IsNearer(units, root, subtree, k)
    ensures UniqueIds(subtree)
    ensures forall u :: u in subtree <==> u in units && Reaches(ById(units), u.id, root)
  {
    forall u | u in units && Reaches(ById(units), u.id, root) ensures Nearer(ById(units), root, u.id, k) {
      var n: nat :| Ancestor(ById(units), u.id, n) == Some(root);
      EmptyLayerIsLast(units, root, u.id, k, n);
    }
  }

  /** Beyond an empty layer there is nothing. */
  lemma {:induction false} EmptyLayerIsLast(units: seq<Unit>, root: Id, id: Id, k: nat, n: nat)
    requires IsLayer(ById(units), root, [], k) && Ancestor(ById(units), id, n) == Some(root)
    ensures n < k
    decreases n
  {
    var m := ById(units);
    if n > k {
      EmptyLayerIsLast(units, root, m[id].parent.value, k, n - 1);
    } else {
      assert n == k ==> id in [];
    }
  }

  // ----- Exactly when the search ends -----

  /** The frontier after k rounds. */
  function FrontierAfter(units: seq<Unit>, root: Id, k: nat): seq<Id> {
    if k == 0 then [root] else Frontier(units, Listed(units, FrontierAfter(units, root, k - 1)))
  }

  lemma {:induction false} FrontierIsLayer(units: seq<Unit>, root: Id, k: nat)
    requires UniqueIds(units) && root in ById(units)
    ensures IsLayer(ById(units), root, FrontierAfter(units, root, k), k)
  {
    hide IsLayer, IsNearer, Listed, Frontier;
    if k == 0 {
      SearchStarts(units, root);
    } else {
      FrontierIsLayer(units, root, k - 1);
      NextLayer(units, root, FrontierAfter(units, root, k - 1), k - 1);
    }
  }

  /** On a cycle every layer has a unit that also lies above the root. */
  lemma {:induction false} CycleFillsLayers(m: Units, root: Id, n: nat, k: nat) returns (x: Id, j: nat)
    requires n > 0 && Ancestor(m, root, n) == Some(root)
    ensures Ancestor(m, x, k) == Some(root)
    ensures j > 0 && Ancestor(m, root, j) == Some(x)
  {
    if k == 0 {
      x, j := root, n;
      AncestorStep(m, root, n - 1);
    } else {
      var y, i := CycleFillsLayers(m, root, n, k - 1);
      AncestorStep(m, root, i - 1);
      x := Ancestor(m, root, i - 1).value;
      j := if i == 1 then n else i - 1;
    }
  }

  /** Off a cycle the rounds before round k, none of them empty, have listed at least k rows. */
  lemma {:induction false} RoundsListRows(units: seq<Unit>, root: Id, k: nat) returns (subtree: seq<Unit>)
    requires UniqueIds(units) && root in ById(units) && OffCycle(ById(units), root)
    requires forall i: nat :: i < k ==> FrontierAfter(units, root, i) != []
    ensures IsNearer(units, root, subtree, k) && |subtree| >= k
  {
    hide IsLayer, IsNearer, Listed, Frontier, OffCycle;
    if k == 0 {
      subtree := [];
      SearchStarts(units, root);
    } else {
      subtree := RoundsListRows(units, root, k - 1);
      var ids := FrontierAfter(units, root, k - 1);
      assert ids != [];
      FrontierIsLayer(units, root, k - 1);
      AddLayer(units, root, subtree, ids, k - 1);
      subtree := subtree + Listed(units, ids);
    }
  }

  /** An empty frontier stays empty. */
  lemma {:induction false} EmptyStaysEmpty(units: seq<Unit>, root: Id, i: nat, k: nat)
    requires i <= k && FrontierAfter(units, root, i) == []
    ensures FrontierAfter(units, root, k) == []
    decreases k
  {
    hide Listed, Frontier;
    if i < k {
      EmptyStaysEmpty(units, root, i, k - 1);
      NothingListed(units);
    }
  }

  lemma {:induction false} NothingListed(units: seq<Unit>)
    ensures Listed(units, []) == [] && Frontier(units, []) == []
  {
    if units != [] {
      NothingListed(units[..|units| - 1]);
    }
  }

  /** The frontier becomes empty exactly when the root does not lie above itself, and then within as many rounds as
      there are rows. */
  lemma SearchEndsExactly(units: seq<Unit>, root: Id)
    requires UniqueIds(units) && root in ById(units)
    ensures (exists k: nat :: FrontierAfter(units, root, k) == []) <==> OffCycle(ById(units), root)
    ensures OffCycle(ById(units), root) ==> FrontierAfter(units, root, |units|) == []
  {
    var m := ById(units);
    if OffCycle(m, root) {
      if forall i: nat :: i <= |units| ==> FrontierAfter(units, root, i) != [] {
        var subtree := RoundsListRows(units, root, |units| + 1);
        NearerFits(units, root, subtree, |units| + 1);
      } else {
        var i: nat :| i <= |units| && FrontierAfter(units, root, i) == [];
        EmptyStaysEmpty(units, root, i, |units|);
      }
    } else {
      var n: nat :| n > 0 && Ancestor(m, root, n) == Some(root);
      forall k: nat ensures FrontierAfter(units, root, k) != [] {
        var x, j := CycleFillsLayers(m, root, n, k);
        FrontierIsLayer(units, root, k);
        assert x in FrontierAfter(units, root, k);
      }
    }
  }

  /** Units kept one level below their parents are on no cycle. */
  lemma ForestIsOffCycle(units: seq<Unit>, root: Id)
    requires Forest(units)
    ensures OffCycle(ById(units), root)
  {
    forall n: nat | n > 0 ensures Ancestor(ById(units), root, n) != Some(root) {
      if Ancestor(ById(units), root, n).Some? {
        AncestorLevel(units, root, n);
      }
    }
  }

  /** One round: the rows of the current frontier, and the frontier they leave. */
  method Round(units: seq<Unit>, current: seq<Id>) returns (layer: seq<Unit>, frontier: seq<Id>)
    ensures layer == Listed(units, current) && frontier == Frontier(units, layer)
  {
    layer, frontier := [], [];
    for i := 0 to |units|
      invariant layer == Listed(units[..i], current) && frontier == Frontier(units, layer)
    {
      var unit := units[i];
      assert units[..i + 1][..i] == units[..i];
      if unit.id in current {
        assert (layer + [unit])[..|layer|] == layer;
        layer := layer + [unit];
        frontier := frontier + ChildIds(units, unit.id);
      }
    }
    assert units[..|units|] == units;
  }

  /** A division counts when it is present and not empty. */
  predicate HasDivision(u: Unit, d: string) {
    u.division == Some(d) && d != ""
  }

  ghost predicate AnyHasDivision(units: seq<Unit>, d: string) {
    exists u <- units :: HasDivision(u, d)
  }

  /** What one organisation scope adds to the session's divisions; a scope on a missing unit adds nothing. */
  method AddDivisions(units: seq<Unit>, selected: Id, divisions: set<string>) returns (r: set<string>)
    requires UniqueIds(units) && OffCycle(ById(units), selected)
    ensures forall d :: d in r <==> d in divisions || exists u <- units :: HasDivision(u, d) && Reaches(ById(units), u.id, selected)
  {
    r := divisions;
    if selected !in ById(units) {
      forall u | u in units ensures !Reaches(ById(units), u.id, selected) {
        ReachedExists(ById(units), u.id, selected);
      }
      return;
    }
    var subtree := Subtree(units, selected);
    for i := 0 to |subtree|
      invariant forall d :: d in r <==> d in divisions || AnyHasDivision(subtree[..i], d)
    {
      var unit := subtree[i];
      assert subtree[..i + 1] == subtree[..i] + [unit];
      forall d ensures AnyHasDivision(subtree[..i + 1], d) <==> AnyHasDivision(subtree[..i], d) || HasDivision(unit, d) {
      }
      if unit.division.Some? && unit.division.value != "" {
        r := r + {unit.division.value};
      }
    }
    assert subtree[..|subtree|] == subtree;
  }

  lemma ReachedExists(m: Units, id: Id, x: Id)
    ensures Reaches(m, id, x) ==> x in m
  {
    if Reaches(m, id, x) {
      var n: nat :| Ancestor(m, id, n) == Some(x);
      if n > 0 {
        AncestorStep(m, id, n - 1);
      }
    }
  }
}
