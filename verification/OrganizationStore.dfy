/** Creating, changing and deleting organisation units keeps them a forest. */
module OrganizationStore {
  import opened Wrappers
  import opened Text
  import opened Organization
  import opened OrganizationScope

  // ----- Requests -----

  /** A missing field is None; a level that is no integer is None; an absent or empty parent id is None. */
  datatype NewUnit = NewUnit(name: Option<string>, level: Option<int>, parent: Option<Id>, division: Option<string>,
                             sortOrder: Option<int>)

  datatype Patch = Patch(name: Option<string>, division: Option<Option<string>>, sortOrder: Option<int>, enabled: Option<bool>)

  datatype Error = NameOrLevel | ParentRequired | ParentNotAdjacent | NoSuchUnit

  /** The trimmed text, unless nothing is left of it. */
  function TrimmedOrNull(s: Option<string>): Option<string> {
    if s.Some? && Trim(s.value) != "" then Some(Trim(s.value)) else None
  }

  // ----- The forest by rows -----

  /** The row of a parent, one level above. */
  ghost predicate HasParentRow(units: seq<Unit>, u: Unit) {
    exists p <- units :: Some(p.id) == u.parent && p.level == u.level - 1
  }

  ghost predicate ForestRows(units: seq<Unit>) {
    && UniqueIds(units)
    && forall u <- units :: 1 <= u.level <= 5 && (if u.parent.None? then u.level == 1 else HasParentRow(units, u))
  }

  lemma ForestByRows(units: seq<Unit>)
    ensures Forest(units) <==> ForestRows(units)
  {
    var m := ById(units);
    ByIdHolds(units);
    if ForestRows(units) {
      forall u | u in units && u.parent.Some? ensures u.parent.value in m && m[u.parent.value].level == u.level - 1 {
        var p :| p in units && Some(p.id) == u.parent && p.level == u.level - 1;
        assert m[p.id] == p;
      }
    }
    if Forest(units) {
      forall u | u in units && u.parent.Some? ensures HasParentRow(units, u) {
        assert m[u.parent.value] in units;
      }
    }
  }

  // ----- What each request means -----

  /** The checks of createOrganizationUnit, in their order. */
  function Refusal(units: seq<Unit>, body: NewUnit): Option<Error> {
    if TrimmedOrNull(body.name).None? || body.level.None? || !(1 <= body.level.value <= 5) then Some(NameOrLevel)
    else if body.level.value > 1 && body.parent.None? then Some(ParentRequired)
    else if body.parent.Some?
         && (body.parent.value !in ById(units) || ById(units)[body.parent.value].level != body.level.value - 1) then Some(ParentNotAdjacent)
    else None
  }

  function Created(id: Id, body: NewUnit): Unit
    requires TrimmedOrNull(body.name).Some? && body.level.Some?
  {
    Unit(id, TrimmedOrNull(body.name).value, body.level.value, body.parent, TrimmedOrNull(body.division), true, {},
         body.sortOrder.GetOr(0))
  }

  /** A changed unit keeps its id, level and parent. */
  function Patched(u: Unit, patch: Patch): (r: Unit)
    ensures r.id == u.id && r.level == u.level && r.parent == u.parent && r.leaders == u.leaders
  {
    u.(name := if patch.name.Some? then Trim(patch.name.value) else u.name,
       division := if patch.division.None? then u.division
                   else if patch.division.value == Some("") then None else patch.division.value,
       sortOrder := patch.sortOrder.GetOr(u.sortOrder),
       enabled := patch.enabled.GetOr(u.enabled))
  }

  /** Each field of a patch takes effect by itself: names are trimmed, an empty division clears it, absent fields stay. */
  lemma PatchSets(u: Unit, patch: Patch)
    ensures var r := Patched(u, patch);
      && r.id == u.id && r.level == u.level && r.parent == u.parent && r.leaders == u.leaders
      && (patch.name == None ==> r.name == u.name) && (forall n :: patch.name == Some(n) ==> r.name == Trim(n))
      && (patch.enabled == None ==> r.enabled == u.enabled) && (forall e :: patch.enabled == Some(e) ==> r.enabled == e)
      && (patch.sortOrder == None ==> r.sortOrder == u.sortOrder) && (forall n :: patch.sortOrder == Some(n) ==> r.sortOrder == n)
      && (patch.division == None ==> r.division == u.division)
      && (patch.division in {Some(None), Some(Some(""))} ==> r.division == None)
      && (forall d :: patch.division == Some(Some(d)) && d != "" ==> r.division == Some(d))
  {
    hide Trim;
  }

  /** A new unit is enabled and led by nobody; its division is trimmed, or none if nothing is left; it sorts at 0 unless told. */
  lemma CreationSets(id: Id, body: NewUnit)
    requires TrimmedOrNull(body.name).Some? && body.level.Some?
    ensures var r := Created(id, body);
      && r.id == id && body.name.Some? && r.name == Trim(body.name.value) != "" && r.level == body.level.value && r.parent == body.parent
      && r.enabled && r.leaders == {}
      && (body.sortOrder == None ==> r.sortOrder == 0) && (forall n :: body.sortOrder == Some(n) ==> r.sortOrder == n)
      && (body.division == None ==> r.division == None)
      && (forall d :: body.division == Some(d) ==> r.division == if Trim(d) == "" then None else Some(Trim(d)))
  {
    hide Trim;
  }

  /** A unit is refused exactly for lack of a name or a level of 1 to 5, for a missing parent above level 1, or for a
      parent that is not one level above, in this order. */
  lemma RefusedExactly(units: seq<Unit>, body: NewUnit)
    requires UniqueIds(units)
    ensures var named := body.name.Some? && Trim(body.name.value) != "" && body.level.Some? && body.level.value in {1, 2, 3, 4, 5};
      && (Refusal(units, body) == Some(NameOrLevel) <==> !named)
      && (Refusal(units, body) == Some(ParentRequired) <==> named && body.level.value != 1 && body.parent == None)
      && (Refusal(units, body) == Some(ParentNotAdjacent) <==>
            named && body.parent != None && forall p <- units :: Some(p.id) == body.parent ==> p.level + 1 != body.level.value)
      && Refusal(units, body) != Some(NoSuchUnit)
  {
    hide Trim;
    ByIdHolds(units);
  }

  function PatchedRows(units: seq<Unit>, id: Id, patch: Patch): (r: seq<Unit>)
    ensures |r| == |units| && forall i :: 0 <= i < |r| ==> r[i] == if units[i].id == id then Patched(units[i], patch) else units[i]
  {
    if units == [] then []
    else
      var last := units[|units| - 1];
      PatchedRows(units[..|units| - 1], id, patch) + [if last.id == id then Patched(last, patch) else last]
  }

  function Without(units: seq<Unit>, gone: set<Id>): (r: seq<Unit>)
    ensures forall u :: u in r <==> u in units && u.id !in gone
    ensures UniqueIds(units) ==> UniqueIds(r)
  {
    if units == [] then []
    else
      var last := units[|units| - 1];
      assert units == units[..|units| - 1] + [last];
      Without(units[..|units| - 1], gone) + (if last.id in gone then [] else [last])
  }

  /** A unit and everything below it. */
  ghost function Branch(units: seq<Unit>, id: Id): set<Id> {
    set u <- units | Reaches(ById(units), u.id, id) :: u.id
  }

  // ----- Each request keeps the forest -----

  lemma GrowthKeepsForest(units: seq<Unit>, u: Unit)
    requires Forest(units) && u.id !in ById(units) && 1 <= u.level <= 5
    requires if u.parent.None? then u.level == 1
             else u.parent.value in ById(units) && ById(units)[u.parent.value].level == u.level - 1
    ensures Forest(units + [u])
  {
    var grown := units + [u];
    ByIdHolds(units);
    assert grown[..|units|] == units;
    assert ById(grown) == ById(units)[u.id := u];
    forall i | 0 <= i < |units| ensures units[i].id != u.id {
      assert units[i] in units;
    }
  }

  lemma CreateKeepsForest(units: seq<Unit>, id: Id, body: NewUnit)
    requires Forest(units) && id !in ById(units) && Refusal(units, body).None?
    ensures Forest(units + [Created(id, body)])
  {
    hide Trim;
    GrowthKeepsForest(units, Created(id, body));
  }


  predicate SamePlace(u: Unit, v: Unit) {
    u.id == v.id && u.level == v.level && u.parent == v.parent
  }

  lemma SamePlacesKeepForest(units: seq<Unit>, changed: seq<Unit>)
    requires Forest(units) && |changed| == |units| && forall i :: 0 <= i < |units| ==> SamePlace(units[i], changed[i])
    ensures Forest(changed) && ById(changed).Keys == ById(units).Keys
  {
    SamePlacesById(units, changed);
    forall i | 0 <= i < |changed|
      ensures 1 <= changed[i].level <= 5
      ensures if changed[i].parent.None? then changed[i].level == 1
              else changed[i].parent.value in ById(changed) && ById(changed)[changed[i].parent.value].level == changed[i].level - 1
    {
      assert units[i] in units && SamePlace(units[i], changed[i]);
      if units[i].parent.Some? {
        assert SamePlace(ById(units)[units[i].parent.value], ById(changed)[units[i].parent.value]);
      }
    }
    forall i, j | 0 <= i < j < |changed| ensures changed[i].id != changed[j].id {
      assert SamePlace(units[i], changed[i]) && SamePlace(units[j], changed[j]);
    }
  }

  lemma {:induction false} SamePlacesById(units: seq<Unit>, changed: seq<Unit>)
    requires |changed| == |units| && forall i :: 0 <= i < |units| ==> SamePlace(units[i], changed[i])
    ensures ById(changed).Keys == ById(units).Keys
    ensures forall k <- ById(units) :: SamePlace(ById(units)[k], ById(changed)[k])
  {
    if units != [] {
      SamePlacesById(units[..|units| - 1], changed[..|units| - 1]);
      assert SamePlace(units[|units| - 1], changed[|units| - 1]);
    }
  }

  lemma UpdateKeepsForest(units: seq<Unit>, id: Id, patch: Patch)
    requires Forest(units)
    ensures Forest(PatchedRows(units, id, patch)) && ById(PatchedRows(units, id, patch)).Keys == ById(units).Keys
  {
    hide Trim;
    SamePlacesKeepForest(units, PatchedRows(units, id, patch));
  }

  /** A branch goes as a whole, so no kept unit loses its parent. */
  lemma DeleteKeepsForest(units: seq<Unit>, id: Id)
    requires Forest(units)
    ensures Forest(Without(units, Branch(units, id)))
  {
    ForestByRows(units);
    ByIdHolds(units);
    var kept := Without(units, Branch(units, id));
    forall v | v in kept && v.parent.Some? ensures HasParentRow(kept, v) {
      var p :| p in units && Some(p.id) == v.parent && p.level == v.level - 1;
      GoneIsBranch(units, id, v);
      GoneIsBranch(units, id, p);
      ChildOfReaching(ById(units), v.id, id);
      assert p in kept;
    }
    ForestByRows(kept);
  }

  lemma ChildOfReaching(m: Units, id: Id, ancestor: Id)
    requires id in m && m[id].parent.Some?
    ensures Reaches(m, m[id].parent.value, ancestor) ==> Reaches(m, id, ancestor)
  {
    if Reaches(m, m[id].parent.value, ancestor) {
      ReachesThroughParent(m, id, ancestor);
    }
  }

  lemma GoneIsBranch(units: seq<Unit>, id: Id, p: Unit)
    requires UniqueIds(units) && p in units
    ensures p.id in Branch(units, id) <==> Reaches(ById(units), p.id, id)
  {
  }

  // ----- Runs -----

  datatype Request = Create(id: Id, body: NewUnit) | Update(id: Id, patch: Patch) | Delete(id: Id)

  /** A refused request changes nothing. */
  ghost function Apply(units: seq<Unit>, request: Request): seq<Unit> {
    match request
    case Create(id, body) => if id in ById(units) || Refusal(units, body).Some? then units else units + [Created(id, body)]
    case Update(id, patch) => PatchedRows(units, id, patch)
    case Delete(id) => if id in ById(units) then Without(units, Branch(units, id)) else units
  }

  ghost function Run(units: seq<Unit>, requests: seq<Request>): seq<Unit> {
    if requests == [] then units else Apply(Run(units, requests[..|requests| - 1]), requests[|requests| - 1])
  }

  /** From no units at all, every sequence of requests leaves a forest. */
  lemma {:induction false} RunsKeepForest(requests: seq<Request>)
    ensures Forest(Run([], requests))
  {
    if requests != [] {
      var units, request := Run([], requests[..|requests| - 1]), requests[|requests| - 1];
      RunsKeepForest(requests[..|requests| - 1]);
      match request {
        case Create(id, body) =>
          if id !in ById(units) && Refusal(units, body).None? {
            CreateKeepsForest(units, id, body);
          }
        case Update(id, patch) => UpdateKeepsForest(units, id, patch);
        case Delete(id) => DeleteKeepsForest(units, id);
      }
    }
  }

  /** After any run, deleting a unit takes exactly the branch: what stays neither is it nor reaches it. */
  lemma DeleteTakesTheBranch(requests: seq<Request>, id: Id, u: Unit)
    requires id in ById(Run([], requests))
    ensures var units := Run([], requests);
      u in Apply(units, Delete(id)) <==> u in units && !Reaches(ById(units), u.id, id)
    ensures id !in ById(Apply(Run([], requests), Delete(id)))
  {
    var units := Run([], requests);
    var kept := Apply(units, Delete(id));
    RunsKeepForest(requests);
    if u in units {
      GoneIsBranch(units, id, u);
    }
    ByIdHolds(units);
    ByIdHolds(kept);
    ReachesSelf(ById(units), id);
    assert ById(units)[id] in units;
  }

  // ----- Names -----

  predicate BlanksName(request: Request) {
    request.Update? && request.patch.name.Some? && Trim(request.patch.name.value) == ""
  }

  predicate AllNamed(units: seq<Unit>) {
    forall u <- units :: u.name != ""
  }

  /** Where all units are named, a request leaves one unnamed exactly if it patches the name of an existing unit to blank. */
  lemma BlankedExactly(units: seq<Unit>, request: Request)
    requires AllNamed(units)
    ensures AllNamed(Apply(units, request)) <==> !(BlanksName(request) && exists u <- units :: u.id == request.id)
  {
    hide Trim;
    match request {
      case Create(id, body) =>
      case Delete(id) =>
      case Update(id, patch) =>
        var changed := PatchedRows(units, id, patch);
        if BlanksName(request) {
          if u :| u in units && u.id == id {
            var i :| 0 <= i < |units| && units[i] == u;
            assert changed[i] in changed && changed[i].name == "";
          } else {
            assert changed == units;
          }
        }
    }
  }

  /** So names stay as long as no request blanks one. */
  lemma {:induction false} RunsKeepNames(requests: seq<Request>)
    requires forall r <- requests :: !BlanksName(r)
    ensures AllNamed(Run([], requests))
  {
    if requests != [] {
      var last := requests[|requests| - 1];
      assert last in requests;
      assert forall r <- requests[..|requests| - 1] :: r in requests;
      RunsKeepNames(requests[..|requests| - 1]);
      BlankedExactly(Run([], requests[..|requests| - 1]), last);
    }
  }

  /** Two accepted requests that leave a unit without a name. */
  lemma NameCanBeBlanked() returns (requests: seq<Request>, u: Unit)
    ensures u in Run([], requests) && u.name == ""
  {
    var body := NewUnit(Some("A"), Some(1), None, None, None);
    var patch := Patch(Some(" "), None, None, None);
    var create, update := Create("1", body), Update("1", patch);
    requests := [create, update];
    assert requests[..1] == [create] && [create][..0] == [];
    assert Trim("A") == "A" && Trim(" ") == "" by {
      TrimExamples();
    }
    var unit := Created("1", body);
    assert Apply([], create) == [unit];
    assert Run([], [create]) == [unit];
    u := Patched(unit, patch);
    var changed := PatchedRows([unit], "1", patch);
    assert changed[0] == u;
    assert Run([], requests) == changed;
  }

  lemma TrimExamples()
    ensures Trim("A") == "A" && Trim(" ") == ""
  {
    assert " "[1..] == "";
  }

  // ----- The store -----


  datatype Scope = Scope(role: string, unit: Id)

  ghost predicate ScopesExist(scopes: set<Scope>, units: seq<Unit>) {
    forall s <- scopes :: s.unit in ById(units)
  }

  /** The scopes on kept units. */
  function ScopesWithout(scopes: set<Scope>, gone: set<Id>): set<Scope> {
    set s <- scopes | s.unit !in gone
  }

  lemma ScopesStillExist(scopes: set<Scope>, units: seq<Unit>, gone: set<Id>)
    requires ScopesExist(scopes, units)
    ensures ScopesExist(ScopesWithout(scopes, gone), Without(units, gone))
  {
    ByIdHolds(units);
    ByIdHolds(Without(units, gone));
    forall s | s in ScopesWithout(scopes, gone) ensures s.unit in ById(Without(units, gone)) {
      assert ById(units)[s.unit] in Without(units, gone);
    }
  }

  class Store {
    var units: seq<Unit>
    var scopes: set<Scope>

    ghost predicate Valid()
      reads this
    {
      Forest(units) && ScopesExist(scopes, units)
    }

    /** `id` is the key the database generates. */
    method CreateOrganizationUnit(id: Id, body: NewUnit) returns (r: Result<Unit, Error>)
      requires Valid() && id !in ById(units)
      modifies this`units
      ensures Valid() && units == Apply(old(units), Create(id, body))
      ensures r.Err? ==> units == old(units) && Refusal(units, body) == Some(r.error)
      ensures r.Ok? ==> units == old(units) + [r.value] && r.value.id == id && r.value.enabled
      ensures r.Ok? ==> r.value.name != "" && Trimmed(r.value.name)
      ensures r.Ok? ==> Some(r.value.level) == body.level && r.value.parent == body.parent
    {
      ForestByRows(units);
      if TrimmedOrNull(body.name).None? || body.level.None? || !(1 <= body.level.value <= 5) {
        return Err(NameOrLevel);
      }
      if body.level.value > 1 && body.parent.None? {
        return Err(ParentRequired);
      }
      if body.parent.Some? {
        var parent := Find(body.parent.value);
        if parent.None? || parent.value.level != body.level.value - 1 {
          return Err(ParentNotAdjacent);
        }
      }
      var unit := Created(id, body);
      CreateKeepsForest(units, id, body);
      ghost var _, _ := TrimIsCore(body.name.value);
      ByIdHolds(units + [unit]);
      ByIdHolds(units);
      units := units + [unit];
      r := Ok(unit);
    }

    method Find(id: Id) returns (r: Option<Unit>)
      ensures r == if id in ById(units) then Some(ById(units)[id]) else None
    {
      r := None;
      for i := 0 to |units|
        invariant r == if id in ById(units[..i]) then Some(ById(units[..i])[id]) else None
      {
        assert units[..i + 1][..i] == units[..i];
        if units[i].id == id {
          r := Some(units[i]);
        }
      }
      assert units[..|units|] == units;
    }

    /** Parents and levels are never patched; a name may be patched to blank. */
    method UpdateOrganizationUnit(id: Id, patch: Patch)
      requires Valid()
      modifies this`units
      ensures Valid() && units == Apply(old(units), Update(id, patch))
      ensures |units| == |old(units)|
      ensures forall i :: 0 <= i < |units| ==> SamePlace(units[i], old(units[i])) && (units[i].id != id ==> units[i] == old(units[i]))
    {
      hide Trim;
      UpdateKeepsForest(units, id, patch);
      units := PatchedRows(units, id, patch);
    }

    /** The whole branch goes, with every role scope on it; the answer is how many units went. */
    method DeleteOrganizationUnit(id: Id) returns (r: Result<nat, Error>)
      requires Valid()
      modifies this
      ensures Valid()
      ensures r.Err? <==> id !in ById(old(units))
      ensures r.Err? ==> r.error == NoSuchUnit && units == old(units) && scopes == old(scopes)
      ensures r.Ok? ==> r.value == |Branch(old(units), id)| && units == Apply(old(units), Delete(id))
      ensures r.Ok? ==> scopes == ScopesWithout(old(scopes), Branch(old(units), id))
    {
      var row := Find(id);
      if row.None? {
        return Err(NoSuchUnit);
      }
      var ids := Closure(units, {id}, false);
      ClosureIsBranch(units, id, ids);
      DeleteKeepsForest(units, id);
      ScopesStillExist(scopes, units, ids);
      scopes := ScopesWithout(scopes, ids);
      units := Without(units, ids);
      r := Ok(|ids|);
    }
  }

  /** The delete loop collects exactly the branch. */
  lemma ClosureIsBranch(units: seq<Unit>, id: Id, ids: set<Id>)
    requires UniqueIds(units) && id in ById(units)
    requires forall x :: x in ids <==> InClosure(units, {id}, false, x)
    ensures ids == Branch(units, id)
  {
    ByIdHolds(units);
    forall x ensures x in ids <==> x in Branch(units, id) {
      ClosureIsReachability(units, id, false, x);
      if Reaches(ById(units), x, id) {
        var n: nat :| Ancestor(ById(units), x, n) == Some(id);
        assert ById(units)[x] in units;
      }
    }
  }

  /** The four traversals name one set: delete closure, scope search, managed units (when all units are
      enabled and only the root is led), and the walk up. */
  lemma TraversalsAgree(units: seq<Unit>, root: Id, u: Unit, subtree: seq<Unit>, ids: set<Id>, managed: set<Id>)
    requires UniqueIds(units) && root in ById(units) && u in units && forall v <- units :: v.enabled
    requires forall v :: v in subtree <==> v in units && Reaches(ById(units), v.id, root)
    requires forall x :: x in ids <==> InClosure(units, {root}, false, x)
    requires forall x :: x in managed <==> InClosure(units, {root}, true, x)
    ensures (u in subtree <==> u.id in ids) && (u.id in ids <==> u.id in managed)
    ensures u.id in ids <==> root in Walk(ById(units), u.id, {})
  {
    ClosureIsReachability(units, root, false, u.id);
    ClosureIsReachability(units, root, true, u.id);
    WalkIsReachability(ById(units), u.id, root);
  }
}
