/**
 What each result of the R&D evaluator says about the source rows, in terms of the rows alone: for every
 status and reason, the rows that give it, and the same for the evaluated parts of a line.
 */
module ProgressMeaning {
  import opened Wrappers
  import opened ProgressFacts
  import opened ProgressProbe

  // ----- Plant rows -----

  ghost predicate HasNoPlant(line: Line, plants: set<Plant>) {
    forall p <- plants :: line.item != Some(p.item)
  }

  ghost predicate HasPlants(line: Line, plants: set<Plant>) {
    exists p <- plants, q <- plants :: p != q && line.item == Some(p.item) && line.item == Some(q.item)
  }

  /** The plant row of the line's item, and the only one. */
  ghost predicate IsPlant(line: Line, plants: set<Plant>, plant: Plant) {
    plant in plants && line.item == Some(plant.item) && forall p <- plants :: line.item == Some(p.item) ==> p == plant
  }

  predicate IsPurchased(plant: Plant) {
    plant.property == Some("P") && plant.control == Some("0")
  }

  predicate IsMade(plant: Plant, control: string) {
    plant.property == Some("M") && plant.control == Some(control)
  }

  // ----- BOMs -----

  predicate IsBomOf(f: Bom, line: Line, plant: Plant) {
    line.item == Some(f.head.item) && f.head.org == plant.org
  }

  /** The detail is approved, has come into effect, and has not expired. */
  predicate IsInForce(d: BomDetail, asOf: Time) {
    && d.approve == Some("Y")
    && (match d.effective case Some(from) => from <= asOf case None => false)
    && (match d.expiry case Some(to) => asOf <= to case None => true)
  }

  ghost predicate IsUsable(f: Bom, line: Line, plant: Plant, asOf: Time) {
    IsBomOf(f, line, plant) && f.head.approve == Some("Y") && exists d <- f.details :: IsInForce(d, asOf)
  }

  ghost predicate HasUsableBoms(line: Line, plant: Plant, boms: set<Bom>, asOf: Time) {
    exists f <- boms, g <- boms :: f != g && IsUsable(f, line, plant, asOf) && IsUsable(g, line, plant, asOf)
  }

  ghost predicate IsUsedBom(f: Bom, line: Line, plant: Plant, boms: set<Bom>, asOf: Time) {
    f in boms && IsUsable(f, line, plant, asOf) && forall g <- boms :: IsUsable(g, line, plant, asOf) ==> g == f
  }

  ghost predicate HasUsedBom(line: Line, plant: Plant, boms: set<Bom>, asOf: Time) {
    exists f <- boms :: IsUsedBom(f, line, plant, boms, asOf)
  }

  ghost predicate HasNoUsableBom(line: Line, plant: Plant, boms: set<Bom>, asOf: Time) {
    forall f <- boms :: !IsUsable(f, line, plant, asOf)
  }

  ghost predicate HasApprovedBom(line: Line, plant: Plant, boms: set<Bom>) {
    exists f <- boms :: IsBomOf(f, line, plant) && f.head.approve == Some("Y")
  }

  ghost predicate HasApprovedDetail(line: Line, plant: Plant, boms: set<Bom>) {
    exists f <- boms, d <- f.details :: IsBomOf(f, line, plant) && f.head.approve == Some("Y") && d.approve == Some("Y")
  }

  // ----- Routings -----

  /** The routing the plant row names, or those for the item, plant and feature. */
  predicate IsRouteOf(r: Routing, line: Line, plant: Plant) {
    match plant.standard
    case Some(id) => r.id == id
    case None => line.item == Some(r.head.item) && r.head.org == plant.org && r.head.feature == line.feature
  }

  ghost predicate HasRoute(line: Line, plant: Plant, routes: set<Routing>) {
    exists r <- routes :: IsRouteOf(r, line, plant)
  }

  ghost predicate IsOnlyRoute(r: Routing, line: Line, plant: Plant, routes: set<Routing>) {
    r in routes && IsRouteOf(r, line, plant) && forall q <- routes :: IsRouteOf(q, line, plant) ==> q == r
  }

  predicate IsApprovedRoute(r: Routing, line: Line, plant: Plant) {
    IsRouteOf(r, line, plant) && r.head.approve == Some("Y")
  }

  ghost predicate HasApprovedRoute(line: Line, plant: Plant, routes: set<Routing>) {
    exists r <- routes :: IsApprovedRoute(r, line, plant)
  }

  ghost predicate HasApprovedRoutes(line: Line, plant: Plant, routes: set<Routing>) {
    exists r <- routes, q <- routes :: r != q && IsApprovedRoute(r, line, plant) && IsApprovedRoute(q, line, plant)
  }

  /** The approved routing that counts: the named one, or the only approved one. */
  ghost predicate IsUsedRoute(r: Routing, line: Line, plant: Plant, routes: set<Routing>) {
    r in routes && IsApprovedRoute(r, line, plant) && forall q <- routes :: IsApprovedRoute(q, line, plant) ==> q == r
  }

  ghost predicate HasStandard(line: Line, plant: Plant, routes: set<Routing>) {
    exists r <- routes :: IsOnlyRoute(r, line, plant, routes)
  }

  /** The plant row names a routing that does not exist, or there are several to choose from. */
  ghost predicate IsUnclear(line: Line, plant: Plant, routes: set<Routing>) {
    if plant.standard.Some? then !HasStandard(line, plant, routes) else HasApprovedRoutes(line, plant, routes)
  }

  predicate IsOperation(d: RoutingDetail) {
    d.approve == Some("Y")
  }

  predicate IsUnknownOperation(d: RoutingDetail) {
    d.approve == Some("Y") && (d.operation == None || !d.operationExists)
  }

  // ----- The decision table -----

  /** The rows that give a line this status for this reason. */
  ghost predicate Says(f: Final, line: Line, plants: set<Plant>, boms: set<Bom>, routes: set<Routing>, asOf: Time) {
    match f.reason
    case MISSING_ITEM => f.status == RD_ABNORMAL && line.itemCode == None
    case MISSING_ITEM_PLANT => f.status == RD_ABNORMAL && line.itemCode != None && HasNoPlant(line, plants)
    case MULTIPLE_ITEM_PLANT_ROWS => f.status == RD_ABNORMAL && line.itemCode != None && HasPlants(line, plants)
    case _ => line.itemCode != None && exists plant <- plants :: IsPlant(line, plants, plant) && PlantSays(f, line, plant, boms, routes, asOf)
  }

  ghost predicate PlantSays(f: Final, line: Line, plant: Plant, boms: set<Bom>, routes: set<Routing>, asOf: Time) {
    match f.reason
    case PURCHASE_ITEM_WITHOUT_ROUTING => f.status == RD_NOT_APPLICABLE && IsPurchased(plant)
    case UNSUPPORTED_ITEM_RULE_COMBINATION => f.status == RD_ABNORMAL && !IsPurchased(plant) && !IsMade(plant, "1") && !IsMade(plant, "2")
    case MULTIPLE_ACTIVE_BOMS => f.status == RD_ABNORMAL && (IsMade(plant, "1") || IsMade(plant, "2")) && HasUsableBoms(line, plant, boms, asOf)
    case UNSUPPORTED_FEATURE_ROUTING => f.status == RD_ABNORMAL && IsMade(plant, "2") && !HasUsableBoms(line, plant, boms, asOf)
    case STANDARD_ROUTING_NOT_FOUND =>
      f.status == RD_ABNORMAL && IsMade(plant, "1") && !HasUsableBoms(line, plant, boms, asOf) && plant.standard != None && !HasStandard(line, plant, routes)
    case MULTIPLE_ACTIVE_ROUTINGS =>
      f.status == RD_ABNORMAL && IsMade(plant, "1") && !HasUsableBoms(line, plant, boms, asOf) && plant.standard == None && HasApprovedRoutes(line, plant, routes)
    case NO_BOM | BOM_NOT_APPROVED | NO_EFFECTIVE_BOM_DETAIL | BOM_NO_APPROVED_DETAILS =>
      IsMade(plant, "1") && !IsUnclear(line, plant, routes) && HasNoUsableBom(line, plant, boms, asOf) && DesignSays(f, line, plant, boms)
    case _ => IsMade(plant, "1") && HasUsedBom(line, plant, boms, asOf) && !IsUnclear(line, plant, routes) && RoutingSays(f, line, plant, routes)
  }

  /** No BOM can be used: none is there, none is approved, or none of the approved ones has a detail in force. */
  ghost predicate DesignSays(f: Final, line: Line, plant: Plant, boms: set<Bom>) {
    match f.reason
    case NO_BOM => f.status == RD_NOT_STARTED && forall b <- boms :: !IsBomOf(b, line, plant)
    case BOM_NOT_APPROVED => f.status == DESIGN_IN_PROGRESS && (exists b <- boms :: IsBomOf(b, line, plant)) && !HasApprovedBom(line, plant, boms)
    case NO_EFFECTIVE_BOM_DETAIL => f.status == DESIGN_IN_PROGRESS && HasApprovedDetail(line, plant, boms)
    case BOM_NO_APPROVED_DETAILS => f.status == DESIGN_IN_PROGRESS && HasApprovedBom(line, plant, boms) && !HasApprovedDetail(line, plant, boms)
    case _ => false
  }

  /** One BOM is used and the choice of routing is clear: how far the routing has come. */
  ghost predicate RoutingSays(f: Final, line: Line, plant: Plant, routes: set<Routing>) {
    match f.reason
    case NO_ROUTING => f.status == WAITING_ROUTING && plant.standard == None && !HasRoute(line, plant, routes)
    case ROUTING_NOT_APPROVED => f.status == ROUTING_IN_PROGRESS && HasRoute(line, plant, routes) && !HasApprovedRoute(line, plant, routes)
    case ROUTING_NO_APPROVED_OPERATIONS =>
      f.status == ROUTING_IN_PROGRESS && exists r <- routes :: IsUsedRoute(r, line, plant, routes) && forall d <- r.details :: !IsOperation(d)
    case INVALID_OPERATION_REFERENCE =>
      f.status == ROUTING_IN_PROGRESS && exists r <- routes :: IsUsedRoute(r, line, plant, routes) && exists d <- r.details :: IsUnknownOperation(d)
    case REASON_RD_COMPLETE =>
      && f.status == RD_COMPLETE
      && exists r <- routes ::
           IsUsedRoute(r, line, plant, routes) && (exists d <- r.details :: IsOperation(d)) && forall d <- r.details :: !IsUnknownOperation(d)
    case _ => false
  }

  // ----- Counting -----

  lemma TwoMembers<T>(s: set<T>) returns (x: T, y: T)
    requires |s| > 1
    ensures x in s && y in s && x != y
  {
    x := Member(s);
    assert |s - {x}| >= 1;
    y := Member(s - {x});
  }

  lemma SeveralIf<T>(s: set<T>, x: T, y: T)
    requires x in s && y in s && x != y
    ensures |s| > 1
  {
    assert {x, y} <= s && |{x, y}| == 2;
    assert s == {x, y} + (s - {x, y});
  }

  lemma OneIf<T>(s: set<T>, x: T)
    requires x in s && forall y <- s :: y == x
    ensures |s| == 1 && Only(s) == x
  {
    assert s == {x};
  }

  lemma OneIs<T>(s: set<T>)
    requires |s| == 1
    ensures Only(s) in s && forall y <- s :: y == Only(s)
  {
    forall y | y in s ensures y == Only(s) {
      OnlyIs(s, y);
    }
  }

  lemma PlantCounts(line: Line, plants: set<Plant>)
    ensures PlantsOf(plants, line.item) == {} <==> HasNoPlant(line, plants)
    ensures |PlantsOf(plants, line.item)| > 1 <==> HasPlants(line, plants)
    ensures |PlantsOf(plants, line.item)| == 1 ==> IsPlant(line, plants, Only(PlantsOf(plants, line.item)))
  {
    var mine := PlantsOf(plants, line.item);
    assert HasNoPlant(line, plants) ==> mine == {};
    assert forall p <- plants :: line.item == Some(p.item) ==> p in mine;
    if |mine| > 1 {
      var p, q := TwoMembers(mine);
    }
    if p, q :| p in plants && q in plants && p != q && line.item == Some(p.item) && line.item == Some(q.item) {
      SeveralIf(mine, p, q);
    }
    if |mine| == 1 {
      OneIs(mine);
    }
  }

  lemma PlantIs(line: Line, plants: set<Plant>, plant: Plant)
    requires IsPlant(line, plants, plant)
    ensures |PlantsOf(plants, line.item)| == 1 && Only(PlantsOf(plants, line.item)) == plant
  {
    OneIf(PlantsOf(plants, line.item), plant);
  }

  lemma UsableIsActive(line: Line, plant: Plant, boms: set<Bom>, asOf: Time, f: Bom)
    ensures f in ActiveBoms(ScopedBoms(boms, line.item, plant), asOf) <==> f in boms && IsUsable(f, line, plant, asOf)
  {
    assert forall d :: d in ActiveDetails(f, asOf) <==> d in f.details && IsInForce(d, asOf);
  }

  lemma SeveralBoms(line: Line, plant: Plant, boms: set<Bom>, asOf: Time)
    ensures |ActiveBoms(ScopedBoms(boms, line.item, plant), asOf)| > 1 <==> HasUsableBoms(line, plant, boms, asOf)
  {
    hide IsUsable, ScopedBoms, ActiveBoms;
    var active := ActiveBoms(ScopedBoms(boms, line.item, plant), asOf);
    if |active| > 1 {
      var f, g := TwoMembers(active);
      UsableIsActive(line, plant, boms, asOf, f);
      UsableIsActive(line, plant, boms, asOf, g);
    }
    if f, g :| f in boms && g in boms && f != g && IsUsable(f, line, plant, asOf) && IsUsable(g, line, plant, asOf) {
      UsableIsActive(line, plant, boms, asOf, f);
      UsableIsActive(line, plant, boms, asOf, g);
      SeveralIf(active, f, g);
    }
  }

  lemma OneBom(line: Line, plant: Plant, boms: set<Bom>, asOf: Time)
    ensures var active := ActiveBoms(ScopedBoms(boms, line.item, plant), asOf);
            && (|active| == 1 <==> HasUsedBom(line, plant, boms, asOf))
            && (|active| == 1 ==> IsUsedBom(Only(active), line, plant, boms, asOf))
            && (active == {} <==> HasNoUsableBom(line, plant, boms, asOf))
            && (|active| == 0 <==> active == {})
  {
    hide IsUsable, ScopedBoms, ActiveBoms;
    var active := ActiveBoms(ScopedBoms(boms, line.item, plant), asOf);
    forall f ensures f in active <==> f in boms && IsUsable(f, line, plant, asOf) {
      UsableIsActive(line, plant, boms, asOf, f);
    }
    if |active| == 1 {
      OneIs(active);
    }
    if f :| IsUsedBom(f, line, plant, boms, asOf) {
      OneIf(active, f);
    }
  }

  lemma UnusedBoms(line: Line, plant: Plant, boms: set<Bom>)
    ensures var scoped := ScopedBoms(boms, line.item, plant);
            && (scoped == {} <==> forall b <- boms :: !IsBomOf(b, line, plant))
            && (ApprovedFacts(scoped) == {} <==> !HasApprovedBom(line, plant, boms))
            && ((exists f <- ApprovedFacts(scoped), d <- f.details :: d.approve == YES) <==> HasApprovedDetail(line, plant, boms))
  {
    var scoped := ScopedBoms(boms, line.item, plant);
    assert forall f :: f in scoped <==> f in boms && IsBomOf(f, line, plant);
    assert forall f :: f in ApprovedFacts(scoped) <==> f in boms && IsBomOf(f, line, plant) && f.head.approve == Some("Y");
  }

  lemma ScopedRoute(line: Line, plant: Plant, routes: set<Routing>, r: Routing)
    ensures r in ScopedRoutes(routes, line, plant) <==> r in routes && IsRouteOf(r, line, plant)
    ensures r in ApprovedRoutings(ScopedRoutes(routes, line, plant)) <==> r in routes && IsApprovedRoute(r, line, plant)
  {
  }

  lemma RouteCounts(line: Line, plant: Plant, routes: set<Routing>)
    ensures var scoped := ScopedRoutes(routes, line, plant);
            && (scoped == {} <==> !HasRoute(line, plant, routes))
            && (|scoped| == 1 <==> HasStandard(line, plant, routes))
            && (|scoped| == 1 ==> IsOnlyRoute(Only(scoped), line, plant, routes))
  {
    hide IsRouteOf, ScopedRoutes;
    var scoped := ScopedRoutes(routes, line, plant);
    forall r ensures r in scoped <==> r in routes && IsRouteOf(r, line, plant) {
      ScopedRoute(line, plant, routes, r);
    }
    if |scoped| == 1 {
      OneIs(scoped);
    }
    if r :| IsOnlyRoute(r, line, plant, routes) {
      OneIf(scoped, r);
    }
  }

  lemma ApprovedRouteCounts(line: Line, plant: Plant, routes: set<Routing>)
    ensures var approved := ApprovedRoutings(ScopedRoutes(routes, line, plant));
            && (|approved| > 1 <==> HasApprovedRoutes(line, plant, routes))
            && (approved == {} <==> !HasApprovedRoute(line, plant, routes))
            && (|approved| == 0 <==> approved == {})
            && (|approved| == 1 ==> IsUsedRoute(Only(approved), line, plant, routes))
  {
    hide IsApprovedRoute, ScopedRoutes, ApprovedRoutings;
    var approved := ApprovedRoutings(ScopedRoutes(routes, line, plant));
    forall r ensures r in approved <==> r in routes && IsApprovedRoute(r, line, plant) {
      ScopedRoute(line, plant, routes, r);
    }
    if |approved| == 1 {
      OneIs(approved);
    }
    if |approved| > 1 {
      var r, q := TwoMembers(approved);
    }
    if r, q :| r in routes && q in routes && r != q && IsApprovedRoute(r, line, plant) && IsApprovedRoute(q, line, plant) {
      SeveralIf(approved, r, q);
    }
  }

  lemma UsedRouteIs(line: Line, plant: Plant, routes: set<Routing>, r: Routing)
    requires IsUsedRoute(r, line, plant, routes)
    ensures |ApprovedRoutings(ScopedRoutes(routes, line, plant))| == 1 && Only(ApprovedRoutings(ScopedRoutes(routes, line, plant))) == r
  {
    hide IsApprovedRoute, ScopedRoutes, ApprovedRoutings;
    var approved := ApprovedRoutings(ScopedRoutes(routes, line, plant));
    forall q ensures q in approved <==> q in routes && IsApprovedRoute(q, line, plant) {
      ScopedRoute(line, plant, routes, q);
    }
    OneIf(approved, r);
  }

  /** How far a chosen routing has come, row by row. */
  lemma Operations(r: Routing)
    ensures ApprovedOperations(r) == {} <==> forall d <- r.details :: !IsOperation(d)
    ensures DanglingOperations(r) == {} <==> forall d <- r.details :: !IsUnknownOperation(d)
  {
    assert forall d :: d in ApprovedOperations(r) <==> d in r.details && IsOperation(d);
    assert forall d :: d in DanglingOperations(r) <==> d in r.details && IsUnknownOperation(d);
  }

  /** The design part of a made item, against the rows. */
  lemma DesignStands(line: Line, plant: Plant, boms: set<Bom>, asOf: Time)
    ensures var d := DesignOf(ScopedBoms(boms, line.item, plant), asOf);
      && (HasUsableBoms(line, plant, boms, asOf) ==> d.status == ABNORMAL && d.reason == MULTIPLE_ACTIVE_BOMS)
      && (HasUsedBom(line, plant, boms, asOf) ==> d.status == COMPLETE)
      && (HasNoUsableBom(line, plant, boms, asOf) ==>
            && d.status in {NOT_STARTED, IN_PROGRESS}
            && DesignSays(Final(if d.status == NOT_STARTED then RD_NOT_STARTED else DESIGN_IN_PROGRESS, d.reason), line, plant, boms))
      && (HasUsableBoms(line, plant, boms, asOf) || HasUsedBom(line, plant, boms, asOf) || HasNoUsableBom(line, plant, boms, asOf))
  {
    SeveralBoms(line, plant, boms, asOf);
    OneBom(line, plant, boms, asOf);
    UnusedBoms(line, plant, boms);
    assert ActiveBoms(ScopedBoms(boms, line.item, plant), asOf) <= ScopedBoms(boms, line.item, plant);
    hide HasUsableBoms, HasUsedBom, HasNoUsableBom, HasApprovedBom, HasApprovedDetail, ScopedBoms, ActiveBoms, ApprovedFacts, IsUsedBom;
  }

  lemma OneDesign(line: Line, plant: Plant, boms: set<Bom>, asOf: Time)
    ensures !(HasUsableBoms(line, plant, boms, asOf) && HasUsedBom(line, plant, boms, asOf))
    ensures !(HasUsableBoms(line, plant, boms, asOf) && HasNoUsableBom(line, plant, boms, asOf))
    ensures !(HasUsedBom(line, plant, boms, asOf) && HasNoUsableBom(line, plant, boms, asOf))
  {
    hide IsUsable;
  }

  /** DesignSays gives one answer. */
  lemma DesignSaysOne(f: Final, g: Final, line: Line, plant: Plant, boms: set<Bom>)
    requires DesignSays(f, line, plant, boms) && DesignSays(g, line, plant, boms)
    ensures f == g
  {
  }

  /** What a routing that counts says. */
  lemma UsedRouteSays(line: Line, plant: Plant, routes: set<Routing>, r: Routing, source: Source)
    requires IsUsedRoute(r, line, plant, routes)
    ensures RoutingCandidateOf(r, source).status in {IN_PROGRESS, COMPLETE}
    ensures RoutingSays(RoutingFinal(RoutingCandidateOf(r, source)), line, plant, routes)
  {
    Operations(r);
    assert r.head.approve == Some("Y");
    hide IsApprovedRoute, ApprovedOperations, DanglingOperations, IsOperation, IsUnknownOperation;
  }

  /** The routing part of an item made under control 1, against the rows. */
  lemma RoutingStands(line: Line, plant: Plant, routes: set<Routing>)
    ensures var r := RoutingOf(Some("1"), plant.standard, ScopedRoutes(routes, line, plant));
      && (IsUnclear(line, plant, routes) ==>
            r.status == ABNORMAL && r.reason == if plant.standard.Some? then STANDARD_ROUTING_NOT_FOUND else MULTIPLE_ACTIVE_ROUTINGS)
      && (!IsUnclear(line, plant, routes) ==>
            && r.status in {NOT_STARTED, IN_PROGRESS, COMPLETE}
            && RoutingSays(RoutingFinal(r), line, plant, routes))
  {
    var scoped := ScopedRoutes(routes, line, plant);
    var approved := ApprovedRoutings(scoped);
    RouteCounts(line, plant, routes);
    ApprovedRouteCounts(line, plant, routes);
    hide IsRouteOf, HasStandard, HasApprovedRoutes, ScopedRoutes, ApprovedRoutings, RoutingCandidateOf, IsUsedRoute;
    if plant.standard.Some? {
      if |scoped| == 1 {
        var r := Only(scoped);
        OnlyRouteUsed(line, plant, routes, r);
        if r.head.approve == Some("Y") {
          UsedRouteSays(line, plant, routes, r, STANDARD_ROUTING_REFERENCE);
        } else {
          CandidateColumns(r, STANDARD_ROUTING_REFERENCE);
        }
      }
    } else if |approved| == 1 {
      UsedRouteSays(line, plant, routes, Only(approved), ITEM_PLANT_MATCH);
    }
  }

  lemma CandidateColumns(r: Routing, source: Source)
    ensures RoutingCandidateOf(r, source).selected == Some(r.id) && RoutingCandidateOf(r, source).source == Some(source)
    ensures r.head.approve != Some("Y") ==> RoutingCandidateOf(r, source) == Component(IN_PROGRESS, ROUTING_NOT_APPROVED, Some(r.id), 0, Some(source))
  {
  }

  lemma OnlyRouteUsed(line: Line, plant: Plant, routes: set<Routing>, r: Routing)
    requires IsOnlyRoute(r, line, plant, routes)
    ensures if r.head.approve == Some("Y") then IsUsedRoute(r, line, plant, routes) else HasRoute(line, plant, routes) && !HasApprovedRoute(line, plant, routes)
  {
  }

  function RoutingFinal(r: Component): Final {
    if r.status == NOT_STARTED then Final(WAITING_ROUTING, r.reason)
    else if r.status == IN_PROGRESS then Final(ROUTING_IN_PROGRESS, r.reason)
    else Final(RD_COMPLETE, REASON_RD_COMPLETE)
  }

  lemma RoutingSaysOne(f: Final, g: Final, line: Line, plant: Plant, routes: set<Routing>)
    requires RoutingSays(f, line, plant, routes) && RoutingSays(g, line, plant, routes)
    ensures f == g
  {
    if r, q :| IsUsedRoute(r, line, plant, routes) && IsUsedRoute(q, line, plant, routes) && r != q {
      assert false;
    }
    assert forall r :: IsUsedRoute(r, line, plant, routes) ==> HasApprovedRoute(line, plant, routes) && HasRoute(line, plant, routes);
    hide IsUsedRoute, HasRoute, HasApprovedRoute;
  }

  lemma PlantSaysOne(f: Final, g: Final, line: Line, plant: Plant, boms: set<Bom>, routes: set<Routing>, asOf: Time)
    requires PlantSays(f, line, plant, boms, routes, asOf) && PlantSays(g, line, plant, boms, routes, asOf)
    ensures f == g
  {
    hide HasUsableBoms, HasUsedBom, HasNoUsableBom, HasStandard, HasApprovedRoutes, RoutingSays, DesignSays;
    OneDesign(line, plant, boms, asOf);
    if RoutingSays(f, line, plant, routes) && RoutingSays(g, line, plant, routes) {
      RoutingSaysOne(f, g, line, plant, routes);
    }
    if DesignSays(f, line, plant, boms) && DesignSays(g, line, plant, boms) {
      DesignSaysOne(f, g, line, plant, boms);
    }
  }

  lemma SaysReasons(f: Final, line: Line, plant: Plant, boms: set<Bom>, routes: set<Routing>)
    ensures DesignSays(f, line, plant, boms) ==> f.reason in {NO_BOM, BOM_NOT_APPROVED, NO_EFFECTIVE_BOM_DETAIL, BOM_NO_APPROVED_DETAILS}
    ensures RoutingSays(f, line, plant, routes) ==>
      f.reason in {NO_ROUTING, ROUTING_NOT_APPROVED, ROUTING_NO_APPROVED_OPERATIONS, INVALID_OPERATION_REFERENCE, REASON_RD_COMPLETE}
  {
    hide HasApprovedBom, HasApprovedDetail, HasRoute, HasApprovedRoute, IsUsedRoute;
  }

  /** The decision over a design and a routing that stand as the rows say. */
  lemma MadeSays(line: Line, plant: Plant, boms: set<Bom>, routes: set<Routing>, asOf: Time)
    requires IsMade(plant, "1")
    ensures var design, routing := DesignOf(ScopedBoms(boms, line.item, plant), asOf), RoutingOf(Some("1"), plant.standard, ScopedRoutes(routes, line, plant));
      PlantSays(CalculateRdStatus(ItemRule(false, true), design, routing), line, plant, boms, routes, asOf)
  {
    DesignStands(line, plant, boms, asOf);
    OneDesign(line, plant, boms, asOf);
    RoutingStands(line, plant, routes);
    var design, routing := DesignOf(ScopedBoms(boms, line.item, plant), asOf), RoutingOf(Some("1"), plant.standard, ScopedRoutes(routes, line, plant));
    SaysReasons(Final(if design.status == NOT_STARTED then RD_NOT_STARTED else DESIGN_IN_PROGRESS, design.reason), line, plant, boms, routes);
    SaysReasons(RoutingFinal(routing), line, plant, boms, routes);
    hide HasUsableBoms, HasUsedBom, HasNoUsableBom, HasStandard, HasApprovedRoutes, RoutingSays, DesignSays, ScopedBoms, ScopedRoutes, DesignOf, RoutingOf;
  }

  /** Features are not supported, whatever the routings. */
  lemma FeatureSays(line: Line, plant: Plant, boms: set<Bom>, routes: set<Routing>, asOf: Time)
    requires IsMade(plant, "2")
    ensures var design := DesignOf(ScopedBoms(boms, line.item, plant), asOf);
      PlantSays(CalculateRdStatus(ItemRule(false, true), design, Plainly(ABNORMAL, UNSUPPORTED_FEATURE_ROUTING)), line, plant, boms, routes, asOf)
  {
    hide HasUsableBoms, HasUsedBom, HasNoUsableBom, ScopedBoms, DesignOf, DesignSays;
    DesignStands(line, plant, boms, asOf);
    OneDesign(line, plant, boms, asOf);
  }

  lemma PlantResultSays(line: Line, plant: Plant, boms: set<Bom>, routes: set<Routing>, asOf: Time)
    ensures PlantSays(PlantResult(line, plant, ScopedBoms(boms, line.item, plant), ScopedRoutes(routes, line, plant), asOf).final,
                      line, plant, boms, routes, asOf)
  {
    hide ScopedBoms, ScopedRoutes, DesignOf, HeadOf, TimesOf;
    if IsMade(plant, "1") {
      hide RoutingOf, CalculateRdStatus, PlantSays;
      MadeSays(line, plant, boms, routes, asOf);
    } else if IsMade(plant, "2") {
      hide CalculateRdStatus, PlantSays;
      FeatureSays(line, plant, boms, routes, asOf);
    } else {
      hide RoutingOf;
    }
  }

  /**
   Every status and reason, and no other, is given exactly by the rows the table names: one line of the table
   applies to each line of each order, and it decides.
   */
  lemma FinalMeansExactly(line: Line, plants: set<Plant>, boms: set<Bom>, routes: set<Routing>, asOf: Time, f: Final)
    ensures ResultOf(line, plants, boms, routes, asOf).final == f <==> Says(f, line, plants, boms, routes, asOf)
  {
    hide HasNoPlant, HasPlants, IsPlant, PlantSays, PlantResult, ScopedBoms, ScopedRoutes, PlantsOf;
    var mine := PlantsOf(plants, line.item);
    PlantCounts(line, plants);
    EmptyCardinality(mine);
    if line.itemCode.Some? && |mine| == 1 {
      var plant := Only(mine);
      PlantResultSays(line, plant, boms, routes, asOf);
      assert plant in plants by { PlantIsListed(line, plants, plant); }
      forall p | IsPlant(line, plants, p) ensures p == plant {
        PlantIs(line, plants, p);
      }
      var given := ResultOf(line, plants, boms, routes, asOf).final;
      if PlantSays(f, line, plant, boms, routes, asOf) {
        PlantSaysOne(f, given, line, plant, boms, routes, asOf);
      }
      PlantReasons(f, line, plant, boms, routes, asOf);
      PlantReasons(given, line, plant, boms, routes, asOf);
    }
    forall p | IsPlant(line, plants, p) ensures |mine| == 1 {
      PlantIs(line, plants, p);
    }
  }

  lemma PlantIsListed(line: Line, plants: set<Plant>, plant: Plant)
    requires IsPlant(line, plants, plant)
    ensures plant in plants
  {
  }

  lemma PlantReasons(f: Final, line: Line, plant: Plant, boms: set<Bom>, routes: set<Routing>, asOf: Time)
    ensures PlantSays(f, line, plant, boms, routes, asOf) ==> f.reason !in {MISSING_ITEM, MISSING_ITEM_PLANT, MULTIPLE_ITEM_PLANT_ROWS}
  {
    hide HasUsableBoms, HasUsedBom, HasNoUsableBom, HasStandard, HasApprovedRoutes, DesignSays;
    SaysReasons(f, line, plant, boms, routes);
    hide RoutingSays;
  }

  // ----- The other columns of a result -----

  /** A line whose item has this one plant row. */
  ghost predicate IsPlanted(line: Line, plants: set<Plant>, plant: Plant) {
    line.itemCode != None && IsPlant(line, plants, plant)
  }

  lemma PlantedResult(line: Line, plants: set<Plant>, plant: Plant, boms: set<Bom>, routes: set<Routing>, asOf: Time)
    requires IsPlanted(line, plants, plant)
    ensures ResultOf(line, plants, boms, routes, asOf)
         == PlantResult(line, plant, ScopedBoms(boms, line.item, plant), ScopedRoutes(routes, line, plant), asOf)
  {
    hide PlantResult, ScopedBoms, ScopedRoutes;
    PlantIs(line, plants, plant);
  }

  ghost predicate IsOnlyBom(f: Bom, line: Line, plant: Plant, boms: set<Bom>) {
    f in boms && IsBomOf(f, line, plant) && forall g <- boms :: IsBomOf(g, line, plant) ==> g == f
  }

  ghost predicate IsOnlyApprovedBom(f: Bom, line: Line, plant: Plant, boms: set<Bom>) {
    && f in boms && IsBomOf(f, line, plant) && f.head.approve == Some("Y")
    && forall g <- boms :: IsBomOf(g, line, plant) && g.head.approve == Some("Y") ==> g == f
  }

  /** The BOM named where none is in use: the only one there is, or the only approved one. */
  ghost predicate NamesBom(selected: Option<Id>, line: Line, plant: Plant, boms: set<Bom>) {
    match selected
    case Some(id) => if HasApprovedBom(line, plant, boms) then exists f :: IsOnlyApprovedBom(f, line, plant, boms) && f.id == id
                     else exists f :: IsOnlyBom(f, line, plant, boms) && f.id == id
    case None => if HasApprovedBom(line, plant, boms) then forall f :: !IsOnlyApprovedBom(f, line, plant, boms)
                 else forall f :: !IsOnlyBom(f, line, plant, boms)
  }

  lemma NamedBom(line: Line, plant: Plant, boms: set<Bom>)
    ensures var scoped := ScopedBoms(boms, line.item, plant);
            NamesBom(if ApprovedFacts(scoped) == {} then IdIfOnly(scoped) else IdIfOnly(ApprovedFacts(scoped)), line, plant, boms)
  {
    var scoped := ScopedBoms(boms, line.item, plant);
    var approved := ApprovedFacts(scoped);
    UnusedBoms(line, plant, boms);
    assert forall f :: f in scoped <==> f in boms && IsBomOf(f, line, plant);
    assert forall f :: f in approved <==> f in boms && IsBomOf(f, line, plant) && f.head.approve == Some("Y");
    hide ScopedBoms, ApprovedFacts, IsBomOf, HasApprovedBom;
    if |scoped| == 1 {
      OneIs(scoped);
      assert IsOnlyBom(Only(scoped), line, plant, boms);
    }
    if |approved| == 1 {
      OneIs(approved);
      assert IsOnlyApprovedBom(Only(approved), line, plant, boms);
    }
    forall f | IsOnlyBom(f, line, plant, boms) ensures |scoped| == 1 {
      OneIf(scoped, f);
    }
    forall f | IsOnlyApprovedBom(f, line, plant, boms) ensures |approved| == 1 {
      OneIf(approved, f);
    }
  }

  lemma MadeDesign(line: Line, plants: set<Plant>, plant: Plant, boms: set<Bom>, routes: set<Routing>, asOf: Time)
    requires IsPlanted(line, plants, plant) && (IsMade(plant, "1") || IsMade(plant, "2"))
    ensures ResultOf(line, plants, boms, routes, asOf).design == DesignOf(ScopedBoms(boms, line.item, plant), asOf)
    ensures ResultOf(line, plants, boms, routes, asOf).routing == RoutingOf(plant.control, plant.standard, ScopedRoutes(routes, line, plant))
  {
    hide IsPlanted, ScopedBoms, ScopedRoutes, DesignOf, RoutingOf, ResultOf, HeadOf, TimesOf, CalculateRdStatus;
    PlantedResult(line, plants, plant, boms, routes, asOf);
  }

  /** A made item's design columns: no BOM is named when several are usable; one that is used with its details in force;
      and with none usable, the only one or the only approved one, if there is one. */
  lemma DesignColumns(line: Line, plants: set<Plant>, plant: Plant, boms: set<Bom>, routes: set<Routing>, asOf: Time)
    requires IsPlanted(line, plants, plant) && (IsMade(plant, "1") || IsMade(plant, "2"))
    ensures var c := ResultOf(line, plants, boms, routes, asOf).design;
      && (HasUsableBoms(line, plant, boms, asOf) ==> c == Component(ABNORMAL, MULTIPLE_ACTIVE_BOMS, None, 0, None))
      && (forall f :: IsUsedBom(f, line, plant, boms, asOf) ==>
            c == Component(COMPLETE, DESIGN_BOM_COMPLETE, Some(f.id), |set d <- f.details | IsInForce(d, asOf)|, None))
      && (HasNoUsableBom(line, plant, boms, asOf) ==>
            && c.status in {NOT_STARTED, IN_PROGRESS} && c.validCount == 0 && c.source == None
            && DesignSays(Final(if c.status == NOT_STARTED then RD_NOT_STARTED else DESIGN_IN_PROGRESS, c.reason), line, plant, boms)
            && NamesBom(c.selected, line, plant, boms))
  {
    hide IsPlanted, ResultOf, IsUsedBom, HasUsableBoms, HasNoUsableBom, DesignSays, NamesBom, DesignOf, ScopedBoms, IsInForce, IsMade;
    MadeDesign(line, plants, plant, boms, routes, asOf);
    DesignStands(line, plant, boms, asOf);
    DesignOfSeveral(line, plant, boms, asOf);
    DesignOfNone(line, plant, boms, asOf);
    forall f | IsUsedBom(f, line, plant, boms, asOf)
      ensures DesignOf(ScopedBoms(boms, line.item, plant), asOf)
           == Component(COMPLETE, DESIGN_BOM_COMPLETE, Some(f.id), |set d <- f.details | IsInForce(d, asOf)|, None)
    {
      DesignOfOne(line, plant, boms, asOf, f);
    }
  }

  lemma DesignOfSeveral(line: Line, plant: Plant, boms: set<Bom>, asOf: Time)
    ensures HasUsableBoms(line, plant, boms, asOf) ==>
      DesignOf(ScopedBoms(boms, line.item, plant), asOf) == Component(ABNORMAL, MULTIPLE_ACTIVE_BOMS, None, 0, None)
  {
    SeveralBoms(line, plant, boms, asOf);
    assert ActiveBoms(ScopedBoms(boms, line.item, plant), asOf) <= ScopedBoms(boms, line.item, plant);
    hide ScopedBoms, ActiveBoms, ApprovedFacts, HasUsableBoms;
  }

  lemma DesignOfOne(line: Line, plant: Plant, boms: set<Bom>, asOf: Time, f: Bom)
    requires IsUsedBom(f, line, plant, boms, asOf)
    ensures DesignOf(ScopedBoms(boms, line.item, plant), asOf)
         == Component(COMPLETE, DESIGN_BOM_COMPLETE, Some(f.id), |set d <- f.details | IsInForce(d, asOf)|, None)
  {
    UsedBomIs(line, plant, boms, asOf, f);
    assert ActiveBoms(ScopedBoms(boms, line.item, plant), asOf) <= ScopedBoms(boms, line.item, plant);
    hide ScopedBoms, ActiveBoms, ApprovedFacts, IsUsedBom, ActiveDetails;
  }

  lemma DesignOfNone(line: Line, plant: Plant, boms: set<Bom>, asOf: Time)
    ensures HasNoUsableBom(line, plant, boms, asOf) ==>
      var c := DesignOf(ScopedBoms(boms, line.item, plant), asOf);
      c.validCount == 0 && c.source == None && NamesBom(c.selected, line, plant, boms)
  {
    OneBom(line, plant, boms, asOf);
    NamedBom(line, plant, boms);
    assert ApprovedFacts({}) == {};
    hide ScopedBoms, ActiveBoms, ApprovedFacts, HasNoUsableBom, NamesBom, IsUsedBom, HasUsedBom, ActiveDetails;
  }

  lemma UsedBomIs(line: Line, plant: Plant, boms: set<Bom>, asOf: Time, f: Bom)
    requires IsUsedBom(f, line, plant, boms, asOf)
    ensures var active := ActiveBoms(ScopedBoms(boms, line.item, plant), asOf); |active| == 1 && Only(active) == f
    ensures ActiveDetails(f, asOf) == set d <- f.details | IsInForce(d, asOf)
  {
    hide IsUsable, ScopedBoms, ActiveBoms;
    var active := ActiveBoms(ScopedBoms(boms, line.item, plant), asOf);
    forall g ensures g in active <==> g in boms && IsUsable(g, line, plant, asOf) {
      UsableIsActive(line, plant, boms, asOf, g);
    }
    OneIf(active, f);
  }

  /** The routing named where none is approved: the only one there is. */
  ghost predicate NamesRoute(selected: Option<Id>, line: Line, plant: Plant, routes: set<Routing>) {
    match selected
    case Some(id) => exists r :: IsOnlyRoute(r, line, plant, routes) && r.id == id
    case None => forall r :: !IsOnlyRoute(r, line, plant, routes)
  }

  /** A made item's routing columns: where from; nothing if the choice is unclear; the routing that counts with its
      approved operations that exist; and with none approved the only one, if there is only one. */
  lemma RoutingColumns(line: Line, plants: set<Plant>, plant: Plant, boms: set<Bom>, routes: set<Routing>, asOf: Time)
    requires IsPlanted(line, plants, plant) && IsMade(plant, "1")
    ensures var c := ResultOf(line, plants, boms, routes, asOf).routing;
      && c.source == Some(if plant.standard.Some? then STANDARD_ROUTING_REFERENCE else ITEM_PLANT_MATCH)
      && (IsUnclear(line, plant, routes) ==> c.status == ABNORMAL && c.selected == None && c.validCount == 0)
      && (!IsUnclear(line, plant, routes) ==>
            && c.status in {NOT_STARTED, IN_PROGRESS, COMPLETE} && RoutingSays(RoutingFinal(c), line, plant, routes)
            && (forall r :: IsUsedRoute(r, line, plant, routes) ==>
                  c.selected == Some(r.id) && c.validCount == |set d <- r.details | IsOperation(d) && !IsUnknownOperation(d)|)
            && (!HasApprovedRoute(line, plant, routes) ==> c.validCount == 0 && NamesRoute(c.selected, line, plant, routes)))
  {
    hide IsPlanted, ResultOf, IsUsedRoute, IsUnclear, RoutingSays, NamesRoute, RoutingOf, ScopedRoutes, IsOperation, IsUnknownOperation, HasApprovedRoute;
    MadeDesign(line, plants, plant, boms, routes, asOf);
    RoutingStands(line, plant, routes);
    RoutingOfUnused(line, plant, routes);
    if !IsUnclear(line, plant, routes) {
      forall r | IsUsedRoute(r, line, plant, routes)
        ensures var c := RoutingOf(Some("1"), plant.standard, ScopedRoutes(routes, line, plant));
                c.selected == Some(r.id) && c.validCount == |set d <- r.details | IsOperation(d) && !IsUnknownOperation(d)|
                && c.source == Some(if plant.standard.Some? then STANDARD_ROUTING_REFERENCE else ITEM_PLANT_MATCH)
      {
        RoutingOfUsed(line, plant, routes, r);
      }
    }
  }

  lemma KnownOperations(r: Routing, source: Source)
    requires r.head.approve == Some("Y")
    ensures var c := RoutingCandidateOf(r, source);
      c.selected == Some(r.id) && c.source == Some(source) && c.validCount == |set d <- r.details | IsOperation(d) && !IsUnknownOperation(d)|
  {
    var known := set d <- r.details | IsOperation(d) && !IsUnknownOperation(d);
    assert known == ApprovedOperations(r) - DanglingOperations(r);
    assert DanglingOperations(r) == {} ==> known == ApprovedOperations(r);
    assert ApprovedOperations(r) == {} ==> known == {};
  }

  lemma RoutingOfUsed(line: Line, plant: Plant, routes: set<Routing>, r: Routing)
    requires IsUsedRoute(r, line, plant, routes) && !IsUnclear(line, plant, routes)
    ensures var c := RoutingOf(Some("1"), plant.standard, ScopedRoutes(routes, line, plant));
      c.selected == Some(r.id) && c.validCount == |set d <- r.details | IsOperation(d) && !IsUnknownOperation(d)|
      && c.source == Some(if plant.standard.Some? then STANDARD_ROUTING_REFERENCE else ITEM_PLANT_MATCH)
  {
    var scoped := ScopedRoutes(routes, line, plant);
    RouteCounts(line, plant, routes);
    UsedRouteIs(line, plant, routes, r);
    KnownOperations(r, STANDARD_ROUTING_REFERENCE);
    KnownOperations(r, ITEM_PLANT_MATCH);
    assert ApprovedRoutings(scoped) <= scoped && r.head.approve == Some("Y");
    assert |scoped| == 1 ==> Only(scoped) == r;
    hide ScopedRoutes, ApprovedRoutings, RoutingCandidateOf, IsUsedRoute, IsOnlyRoute, HasRoute, IsOperation, IsUnknownOperation, HasApprovedRoutes;
  }

  lemma RoutingOfUnused(line: Line, plant: Plant, routes: set<Routing>)
    ensures var c := RoutingOf(Some("1"), plant.standard, ScopedRoutes(routes, line, plant));
      && c.source == Some(if plant.standard.Some? then STANDARD_ROUTING_REFERENCE else ITEM_PLANT_MATCH)
      && (IsUnclear(line, plant, routes) ==> c.selected == None && c.validCount == 0)
      && (!IsUnclear(line, plant, routes) && !HasApprovedRoute(line, plant, routes) ==> c.validCount == 0 && NamesRoute(c.selected, line, plant, routes))
  {
    var scoped := ScopedRoutes(routes, line, plant);
    RouteCounts(line, plant, routes);
    ApprovedRouteCounts(line, plant, routes);
    NamedRoute(line, plant, routes);
    assert |ApprovedRoutings(scoped)| == 1 ==> HasApprovedRoute(line, plant, routes);
    if |scoped| == 1 {
      var r := Only(scoped);
      assert IsRouteOf(r, line, plant) && r in routes;
      assert !HasApprovedRoute(line, plant, routes) ==> r.head.approve != Some("Y");
      CandidateColumns(r, STANDARD_ROUTING_REFERENCE);
    }
    if |ApprovedRoutings(scoped)| == 1 {
      CandidateColumns(Only(ApprovedRoutings(scoped)), ITEM_PLANT_MATCH);
    }
    hide ScopedRoutes, ApprovedRoutings, RoutingCandidateOf, IsUsedRoute, IsOnlyRoute, IsRouteOf, HasRoute, HasApprovedRoutes, HasApprovedRoute, NamesRoute, HasStandard;
  }

  lemma NamedRoute(line: Line, plant: Plant, routes: set<Routing>)
    ensures NamesRoute(IdIfOnly(ScopedRoutes(routes, line, plant)), line, plant, routes)
  {
    var scoped := ScopedRoutes(routes, line, plant);
    RouteCounts(line, plant, routes);
    hide ScopedRoutes, IsRouteOf;
    if |scoped| == 1 {
      assert IsOnlyRoute(Only(scoped), line, plant, routes);
    }
  }

  /** The columns of the BOM and the routing named are those of the rows with these ids. */
  lemma HeadColumns(line: Line, plants: set<Plant>, plant: Plant, boms: set<Bom>, routes: set<Routing>, asOf: Time)
    requires IsPlanted(line, plants, plant)
    requires (forall f <- boms, g <- boms :: f.id == g.id ==> f == g) && (forall r <- routes, q <- routes :: r.id == q.id ==> r == q)
    ensures var result := ResultOf(line, plants, boms, routes, asOf);
      && (forall f <- boms :: IsBomOf(f, line, plant) && result.design.selected == Some(f.id) ==> result.bom == Some((f.id, f.head)))
      && (forall r <- routes :: IsRouteOf(r, line, plant) && result.routing.selected == Some(r.id) ==> result.route == Some((r.id, r.head)))
      && (result.design.selected == None ==> result.bom == None) && (result.routing.selected == None ==> result.route == None)
      && result.line == line && result.plant == Some(plant)
  {
    PlantedResult(line, plants, plant, boms, routes, asOf);
    var scopedBoms, scopedRoutes := ScopedBoms(boms, line.item, plant), ScopedRoutes(routes, line, plant);
    assert forall f :: f in scopedBoms <==> f in boms && IsBomOf(f, line, plant);
    assert forall r :: r in scopedRoutes <==> r in routes && IsRouteOf(r, line, plant);
    hide ScopedBoms, ScopedRoutes, IsBomOf, IsRouteOf, ResultOf, DesignFor, RoutingFor, CalculateRdStatus, TimesOf;
    forall f <- scopedBoms ensures HeadOf(scopedBoms, Some(f.id)) == Some((f.id, f.head)) {
      HeadWithId(scopedBoms, f);
    }
    forall r <- scopedRoutes ensures HeadOf(scopedRoutes, Some(r.id)) == Some((r.id, r.head)) {
      HeadWithId(scopedRoutes, r);
    }
    NoHead(scopedBoms);
    NoHead(scopedRoutes);
  }

  lemma HeadWithId<H, D>(s: set<Facts<H, D>>, f: Facts<H, D>)
    requires f in s && forall g <- s :: g.id == f.id ==> g == f
    ensures HeadOf(s, Some(f.id)) == Some((f.id, f.head))
  {
    var hits := set g <- s | Some(g.id) == Some(f.id);
    OneIf(hits, f);
  }

  lemma NoHead<H, D>(s: set<Facts<H, D>>)
    ensures HeadOf(s, None) == None
  {
    assert (set f <- s | Some(f.id) == None) == {};
  }

  /** A time of creation or change of one of the rows. */
  ghost predicate IsRowTime(t: Time, line: Line, plant: Plant, boms: set<Bom>, routes: set<Routing>) {
    || (exists f <- boms :: IsBomOf(f, line, plant) && Some(t) in {f.head.created, f.head.modified})
    || (exists f <- boms, d <- f.details :: IsBomOf(f, line, plant) && Some(t) in {d.created, d.modified})
    || (exists r <- routes :: IsRouteOf(r, line, plant) && Some(t) in {r.head.created, r.head.modified})
    || (exists r <- routes, d <- r.details :: IsRouteOf(r, line, plant) && Some(t) in {d.created, d.modified})
  }

  /** The last change is the latest time of any BOM or routing row in scope, used or not. */
  lemma LastModifiedColumn(line: Line, plants: set<Plant>, plant: Plant, boms: set<Bom>, routes: set<Routing>, asOf: Time)
    requires IsPlanted(line, plants, plant)
    ensures var last := ResultOf(line, plants, boms, routes, asOf).lastModified;
      && (last == None <==> forall t :: !IsRowTime(t, line, plant, boms, routes))
      && (last != None ==> IsRowTime(last.value, line, plant, boms, routes) && forall t :: IsRowTime(t, line, plant, boms, routes) ==> t <= last.value)
  {
    PlantedResult(line, plants, plant, boms, routes, asOf);
    hide ResultOf, DesignFor, RoutingFor, CalculateRdStatus, HeadOf;
    var times := TimesOf(ScopedBoms(boms, line.item, plant), ScopedRoutes(routes, line, plant));
    forall t ensures t in times <==> IsRowTime(t, line, plant, boms, routes) {
      RowTimes(line, plant, boms, routes, t);
    }
  }

  lemma RowTimes(line: Line, plant: Plant, boms: set<Bom>, routes: set<Routing>, t: Time)
    ensures t in TimesOf(ScopedBoms(boms, line.item, plant), ScopedRoutes(routes, line, plant)) <==> IsRowTime(t, line, plant, boms, routes)
  {
    var scopedBoms, scopedRoutes := ScopedBoms(boms, line.item, plant), ScopedRoutes(routes, line, plant);
    assert forall f :: f in scopedBoms <==> f in boms && IsBomOf(f, line, plant);
    assert forall r :: r in scopedRoutes <==> r in routes && IsRouteOf(r, line, plant);
    hide ScopedBoms, ScopedRoutes, IsBomOf, IsRouteOf, BomTimes, RoutingTimes;
    forall f ensures t in BomTimes(f) <==> Some(t) in {f.head.created, f.head.modified} || exists d <- f.details :: Some(t) in {d.created, d.modified} {
      BomTime(f, t);
    }
    forall r ensures t in RoutingTimes(r) <==> Some(t) in {r.head.created, r.head.modified} || exists d <- r.details :: Some(t) in {d.created, d.modified} {
      RoutingTime(r, t);
    }
    TimesAre(scopedBoms, scopedRoutes, t);
  }

  lemma TimesAre(boms: set<Bom>, routes: set<Routing>, t: Time)
    ensures t in TimesOf(boms, routes) <==> (exists f <- boms :: t in BomTimes(f)) || (exists r <- routes :: t in RoutingTimes(r))
  {
    hide BomTimes, RoutingTimes;
  }

  lemma StampedIs(o: Option<Time>, t: Time)
    ensures t in Stamped(o) <==> o == Some(t)
  {
  }

  lemma BomTime(f: Bom, t: Time)
    ensures t in BomTimes(f) <==> Some(t) in {f.head.created, f.head.modified} || exists d <- f.details :: Some(t) in {d.created, d.modified}
  {
    hide Stamped;
    forall o: Option<Time> ensures t in Stamped(o) <==> o == Some(t) {
      StampedIs(o, t);
    }
    if d :| d in f.details && Some(t) in {d.created, d.modified} {
      assert t in Stamped(d.created) + Stamped(d.modified);
    }
  }

  lemma RoutingTime(r: Routing, t: Time)
    ensures t in RoutingTimes(r) <==> Some(t) in {r.head.created, r.head.modified} || exists d <- r.details :: Some(t) in {d.created, d.modified}
  {
    hide Stamped;
    forall o: Option<Time> ensures t in Stamped(o) <==> o == Some(t) {
      StampedIs(o, t);
    }
    if d :| d in r.details && Some(t) in {d.created, d.modified} {
      assert t in Stamped(d.created) + Stamped(d.modified);
    }
  }
}
