/**
 The R&D progress evaluator.  Each evaluation is given twice: as the probe computes it from lists of
 rows, and as a function of the facts alone, which no row order can reach.
 */
module ProgressProbe {
  import opened Wrappers
  import opened ProgressFacts

  datatype ComponentStatus = NOT_APPLICABLE | NOT_STARTED | IN_PROGRESS | COMPLETE | ABNORMAL

  datatype RdStatus = RD_NOT_APPLICABLE | RD_NOT_STARTED | DESIGN_IN_PROGRESS | WAITING_ROUTING
                    | ROUTING_IN_PROGRESS | RD_COMPLETE | RD_ABNORMAL

  datatype Reason =
    | NO_BOM | MULTIPLE_ACTIVE_BOMS | DESIGN_BOM_COMPLETE | BOM_NOT_APPROVED | NO_EFFECTIVE_BOM_DETAIL | BOM_NO_APPROVED_DETAILS
    | ROUTING_NOT_APPROVED | ROUTING_NO_APPROVED_OPERATIONS | INVALID_OPERATION_REFERENCE | ROUTING_COMPLETE
    | ROUTING_NOT_APPLICABLE | UNSUPPORTED_FEATURE_ROUTING | UNSUPPORTED_ROUTING_CONTROL | STANDARD_ROUTING_NOT_FOUND
    | NO_ROUTING | MULTIPLE_ACTIVE_ROUTINGS
    | REASON_NOT_APPLICABLE | MISSING_ITEM | MISSING_ITEM_PLANT | MULTIPLE_ITEM_PLANT_ROWS
    | PURCHASE_ITEM_WITHOUT_ROUTING | UNSUPPORTED_ITEM_RULE_COMBINATION
    | UNEXPECTED_DESIGN_STATUS | UNEXPECTED_ROUTING_STATUS | REASON_RD_COMPLETE

  datatype Source = STANDARD_ROUTING_REFERENCE | ITEM_PLANT_MATCH

  /** ComponentEvaluation without its texts. */
  datatype Component = Component(status: ComponentStatus, reason: Reason, selected: Option<Id>, validCount: nat, source: Option<Source>)

  datatype ItemRule = ItemRule(itemNotApplicable: bool, supported: bool)

  datatype Final = Final(status: RdStatus, reason: Reason)

  /** One entry of calculate_results: the line with everything evaluated for it. */
  datatype LineResult = LineResult(line: Line, plant: Option<Plant>, design: Component, routing: Component, final: Final,
                                   bom: Option<(Id, BomHead)>, route: Option<(Id, RoutingHead)>, lastModified: Option<Time>)

  function Plainly(status: ComponentStatus, reason: Reason): Component {
    Component(status, reason, None, 0, None)
  }

  // ----- Rules -----

  /** bom_detail_is_active */
  predicate IsActive(d: BomDetail, asOf: Time) {
    d.approve == YES && d.effective.Some? && d.effective.value <= asOf && (d.expiry.None? || d.expiry.value >= asOf)
  }

  function DetermineItemRule(property: Option<string>, control: Option<string>): ItemRule {
    if property == Some("P") && control == Some("0") then ItemRule(true, true)
    else if property == Some("M") && (control == Some("1") || control == Some("2")) then ItemRule(false, true)
    else ItemRule(false, false)
  }

  function CalculateRdStatus(rule: ItemRule, design: Component, routing: Component): Final {
    if rule.itemNotApplicable then Final(RD_NOT_APPLICABLE, PURCHASE_ITEM_WITHOUT_ROUTING)
    else if !rule.supported then Final(RD_ABNORMAL, UNSUPPORTED_ITEM_RULE_COMBINATION)
    else if design.status == ABNORMAL then Final(RD_ABNORMAL, design.reason)
    else if routing.status == ABNORMAL then Final(RD_ABNORMAL, routing.reason)
    else if design.status == NOT_STARTED then Final(RD_NOT_STARTED, design.reason)
    else if design.status == IN_PROGRESS then Final(DESIGN_IN_PROGRESS, design.reason)
    else if design.status != COMPLETE then Final(RD_ABNORMAL, UNEXPECTED_DESIGN_STATUS)
    else if routing.status == NOT_STARTED then Final(WAITING_ROUTING, routing.reason)
    else if routing.status == IN_PROGRESS then Final(ROUTING_IN_PROGRESS, routing.reason)
    else if routing.status == COMPLETE || routing.status == NOT_APPLICABLE then Final(RD_COMPLETE, REASON_RD_COMPLETE)
    else Final(RD_ABNORMAL, UNEXPECTED_ROUTING_STATUS)
  }

  // ----- Evaluation of facts -----

  ghost function ActiveDetails(f: Bom, asOf: Time): set<BomDetail> {
    set d <- f.details | IsActive(d, asOf)
  }

  ghost predicate IsActiveBom(f: Bom, asOf: Time) {
    f.head.approve == YES && ActiveDetails(f, asOf) != {}
  }

  ghost function ActiveBoms(boms: set<Bom>, asOf: Time): set<Bom> {
    set f <- boms | IsActiveBom(f, asOf)
  }

  ghost function ApprovedFacts(boms: set<Bom>): set<Bom> {
    set f <- boms | f.head.approve == YES
  }

  ghost function IdIfOnly<H, D>(s: set<Facts<H, D>>): Option<Id> {
    if |s| == 1 then Some(Only(s).id) else None
  }

  ghost function DesignOf(boms: set<Bom>, asOf: Time): Component {
    var active := ActiveBoms(boms, asOf);
    var approved := ApprovedFacts(boms);
    if boms == {} then Plainly(NOT_STARTED, NO_BOM)
    else if |active| > 1 then Plainly(ABNORMAL, MULTIPLE_ACTIVE_BOMS)
    else if |active| == 1 then
      Component(COMPLETE, DESIGN_BOM_COMPLETE, Some(Only(active).id), |ActiveDetails(Only(active), asOf)|, None)
    else if approved == {} then Component(IN_PROGRESS, BOM_NOT_APPROVED, IdIfOnly(boms), 0, None)
    else
      Component(IN_PROGRESS,
                if exists f <- approved, d <- f.details :: d.approve == YES then NO_EFFECTIVE_BOM_DETAIL else BOM_NO_APPROVED_DETAILS,
                IdIfOnly(approved), 0, None)
  }

  predicate IsApproved(d: RoutingDetail) {
    d.approve == YES
  }

  predicate IsDangling(d: RoutingDetail) {
    d.operation.None? || !d.operationExists
  }

  ghost function ApprovedOperations(f: Routing): set<RoutingDetail> {
    set d <- f.details | IsApproved(d)
  }

  ghost function DanglingOperations(f: Routing): set<RoutingDetail> {
    set d <- f.details | IsApproved(d) && IsDangling(d)
  }

  ghost function RoutingCandidateOf(f: Routing, source: Source): Component {
    var approved := ApprovedOperations(f);
    var invalid := DanglingOperations(f);
    if f.head.approve != YES then Component(IN_PROGRESS, ROUTING_NOT_APPROVED, Some(f.id), 0, Some(source))
    else if approved == {} then Component(IN_PROGRESS, ROUTING_NO_APPROVED_OPERATIONS, Some(f.id), 0, Some(source))
    else if invalid != {} then Component(IN_PROGRESS, INVALID_OPERATION_REFERENCE, Some(f.id), |approved - invalid|, Some(source))
    else Component(COMPLETE, ROUTING_COMPLETE, Some(f.id), |approved|, Some(source))
  }

  ghost function ApprovedRoutings(routes: set<Routing>): set<Routing> {
    set f <- routes | f.head.approve == YES
  }

  ghost function RoutingOf(control: Option<string>, standard: Option<Id>, scoped: set<Routing>): Component {
    var approved := ApprovedRoutings(scoped);
    if control == Some("0") then Plainly(NOT_APPLICABLE, ROUTING_NOT_APPLICABLE)
    else if control == Some("2") then Plainly(ABNORMAL, UNSUPPORTED_FEATURE_ROUTING)
    else if control != Some("1") then Plainly(ABNORMAL, UNSUPPORTED_ROUTING_CONTROL)
    else if standard.Some? then
      if |scoped| == 1 then RoutingCandidateOf(Only(scoped), STANDARD_ROUTING_REFERENCE)
      else Component(ABNORMAL, STANDARD_ROUTING_NOT_FOUND, None, 0, Some(STANDARD_ROUTING_REFERENCE))
    else if scoped == {} then Component(NOT_STARTED, NO_ROUTING, None, 0, Some(ITEM_PLANT_MATCH))
    else if |approved| > 1 then Component(ABNORMAL, MULTIPLE_ACTIVE_ROUTINGS, None, 0, Some(ITEM_PLANT_MATCH))
    else if |approved| == 1 then RoutingCandidateOf(Only(approved), ITEM_PLANT_MATCH)
    else Component(IN_PROGRESS, ROUTING_NOT_APPROVED, IdIfOnly(scoped), 0, Some(ITEM_PLANT_MATCH))
  }

  // ----- Scope of a line -----

  ghost function PlantsOf(plants: set<Plant>, item: Option<Id>): set<Plant> {
    set p <- plants | item == Some(p.item)
  }

  ghost function ScopedBoms(boms: set<Bom>, item: Option<Id>, plant: Plant): set<Bom> {
    set f <- boms | item == Some(f.head.item) && f.head.org == plant.org
  }

  ghost function ScopedRoutes(routes: set<Routing>, line: Line, plant: Plant): set<Routing> {
    if plant.standard.Some? then set f <- routes | f.id == plant.standard.value
    else set f <- routes | line.item == Some(f.head.item) && f.head.org == plant.org && f.head.feature == line.feature
  }

  ghost function HeadOf<H, D>(s: set<Facts<H, D>>, id: Option<Id>): Option<(Id, H)> {
    var hits := set f <- s | Some(f.id) == id;
    if |hits| == 1 then Some((Only(hits).id, Only(hits).head)) else None
  }

  ghost function BomTimes(f: Bom): set<Time> {
    Stamped(f.head.created) + Stamped(f.head.modified) + (set d, t | d in f.details && t in Stamped(d.created) + Stamped(d.modified) :: t)
  }

  ghost function RoutingTimes(f: Routing): set<Time> {
    Stamped(f.head.created) + Stamped(f.head.modified) + (set d, t | d in f.details && t in Stamped(d.created) + Stamped(d.modified) :: t)
  }

  ghost function TimesOf(boms: set<Bom>, routes: set<Routing>): set<Time> {
    (set f, t | f in boms && t in BomTimes(f) :: t) + (set f, t | f in routes && t in RoutingTimes(f) :: t)
  }

  ghost function Broken(line: Line, reason: Reason): LineResult {
    LineResult(line, None, Plainly(ABNORMAL, reason), Plainly(ABNORMAL, reason), Final(RD_ABNORMAL, reason), None, None, None)
  }

  ghost function DesignFor(rule: ItemRule, scoped: set<Bom>, asOf: Time): Component {
    if rule.itemNotApplicable then Plainly(NOT_APPLICABLE, REASON_NOT_APPLICABLE)
    else if !rule.supported then Plainly(ABNORMAL, UNSUPPORTED_ITEM_RULE_COMBINATION)
    else DesignOf(scoped, asOf)
  }

  ghost function RoutingFor(rule: ItemRule, plant: Plant, scoped: set<Routing>): Component {
    if rule.itemNotApplicable then Plainly(NOT_APPLICABLE, REASON_NOT_APPLICABLE)
    else if !rule.supported then Plainly(ABNORMAL, UNSUPPORTED_ITEM_RULE_COMBINATION)
    else RoutingOf(plant.control, plant.standard, scoped)
  }

  /** The evaluation of a line whose item has exactly this plant row. */
  ghost function PlantResult(line: Line, plant: Plant, boms: set<Bom>, routes: set<Routing>, asOf: Time): LineResult {
    var rule := DetermineItemRule(plant.property, plant.control);
    var design := DesignFor(rule, boms, asOf);
    var routing := RoutingFor(rule, plant, routes);
    LineResult(line, Some(plant), design, routing, CalculateRdStatus(rule, design, routing),
               HeadOf(boms, design.selected), HeadOf(routes, routing.selected), Latest(TimesOf(boms, routes)))
  }

  /** The evaluation of a line as a function of the facts. */
  ghost function ResultOf(line: Line, plants: set<Plant>, boms: set<Bom>, routes: set<Routing>, asOf: Time): LineResult {
    var mine := PlantsOf(plants, line.item);
    if line.itemCode.None? then Broken(line, MISSING_ITEM)
    else if mine == {} then Broken(line, MISSING_ITEM_PLANT)
    else if |mine| > 1 then Broken(line, MULTIPLE_ITEM_PLANT_ROWS)
    else
      var plant := Only(mine);
      PlantResult(line, plant, ScopedBoms(boms, line.item, plant), ScopedRoutes(routes, line, plant), asOf)
  }

  // ----- What the statuses mean -----

  /** The routing a line's plant selects is finished: approved, with approved operations that all exist. */
  ghost predicate RoutingFinished(f: Routing) {
    f.head.approve == YES && ApprovedOperations(f) != {} && DanglingOperations(f) == {}
  }

  /** The one routing that counts: the standard one, or the only approved one in scope. */
  ghost predicate SelectedRoutingFinished(standard: Option<Id>, scoped: set<Routing>) {
    var chosen := if standard.Some? then scoped else ApprovedRoutings(scoped);
    |chosen| == 1 && RoutingFinished(Only(chosen))
  }

  /** What R&D completion is supposed to mean, in terms of the source rows only. */
  ghost predicate Finished(line: Line, plants: set<Plant>, boms: set<Bom>, routes: set<Routing>, asOf: Time) {
    && line.itemCode.Some?
    && |PlantsOf(plants, line.item)| == 1
    && var plant := Only(PlantsOf(plants, line.item));
       && plant.property == Some("M") && plant.control == Some("1")
       && |ActiveBoms(ScopedBoms(boms, line.item, plant), asOf)| == 1
       && SelectedRoutingFinished(plant.standard, ScopedRoutes(routes, line, plant))
  }

  lemma EmptyCardinality<T>(s: set<T>)
    ensures |s| == 0 <==> s == {}
  {
  }

  lemma DesignCompleteIffOneActiveBom(boms: set<Bom>, asOf: Time)
    ensures DesignOf(boms, asOf).status == COMPLETE <==> |ActiveBoms(boms, asOf)| == 1
    ensures DesignOf(boms, asOf).status != NOT_APPLICABLE
  {
    if |ActiveBoms(boms, asOf)| == 1 {
      assert Only(ActiveBoms(boms, asOf)) in boms;
    }
  }

  lemma RoutingCompleteIffSelectedFinished(control: Option<string>, standard: Option<Id>, scoped: set<Routing>)
    ensures RoutingOf(control, standard, scoped).status == COMPLETE <==> control == Some("1") && SelectedRoutingFinished(standard, scoped)
    ensures RoutingOf(control, standard, scoped).status == NOT_APPLICABLE <==> control == Some("0")
  {
    var approved := ApprovedRoutings(scoped);
    if |approved| == 1 {
      assert Only(approved) in scoped;
    }
  }

  lemma CompleteMeansFinished(line: Line, plants: set<Plant>, boms: set<Bom>, routes: set<Routing>, asOf: Time)
    ensures ResultOf(line, plants, boms, routes, asOf).final.status == RD_COMPLETE <==> Finished(line, plants, boms, routes, asOf)
  {
    var mine := PlantsOf(plants, line.item);
    EmptyCardinality(mine);
    if line.itemCode.Some? && |mine| == 1 {
      var plant := Only(mine);
      DesignCompleteIffOneActiveBom(ScopedBoms(boms, line.item, plant), asOf);
      RoutingCompleteIffSelectedFinished(plant.control, plant.standard, ScopedRoutes(routes, line, plant));
    }
  }

  /** The two "unexpected" reasons are never given by calculate_results. */
  lemma UnexpectedReasonsAreUnreachable(line: Line, plants: set<Plant>, boms: set<Bom>, routes: set<Routing>, asOf: Time)
    ensures IsExpected(ResultOf(line, plants, boms, routes, asOf).final.reason)
  {
    hide PlantsOf, ScopedBoms, ScopedRoutes, DesignFor, RoutingFor, Only;
    var mine := PlantsOf(plants, line.item);
    if line.itemCode.Some? && mine != {} && |mine| <= 1 {
      var plant := Only(mine);
      var rule := DetermineItemRule(plant.property, plant.control);
      DesignReasons(rule, ScopedBoms(boms, line.item, plant), asOf);
      RoutingReasons(rule, plant, ScopedRoutes(routes, line, plant));
    }
  }

  predicate IsExpected(reason: Reason) {
    reason != UNEXPECTED_DESIGN_STATUS && reason != UNEXPECTED_ROUTING_STATUS
  }

  lemma DesignReasons(rule: ItemRule, boms: set<Bom>, asOf: Time)
    ensures IsExpected(DesignFor(rule, boms, asOf).reason)
    ensures DesignFor(rule, boms, asOf).status == NOT_APPLICABLE ==> rule.itemNotApplicable
  {
  }

  lemma RoutingReasons(rule: ItemRule, plant: Plant, scoped: set<Routing>)
    ensures IsExpected(RoutingFor(rule, plant, scoped).reason)
  {
  }

  // ----- Evaluation of rows: components -----

  function ActiveAt(asOf: Time): BomDetail -> bool {
    (d: BomDetail) => IsActive(d, asOf)
  }

  function ActiveApprovedAt(asOf: Time): BomCandidate -> bool {
    (c: BomCandidate) => c.head.approve == YES && Filter(c.details, ActiveAt(asOf)) != []
  }

  function ApprovedBom(): BomCandidate -> bool {
    (c: BomCandidate) => c.head.approve == YES
  }

  function Approved(): RoutingDetail -> bool {
    (d: RoutingDetail) => IsApproved(d)
  }

  function ApprovedAndDangling(): RoutingDetail -> bool {
    (d: RoutingDetail) => IsApproved(d) && IsDangling(d)
  }

  lemma ActiveDetailsOf(c: BomCandidate, asOf: Time)
    requires NoDuplicates(c.details)
    ensures |Filter(c.details, ActiveAt(asOf))| == |ActiveDetails(ToFacts(c), asOf)|
    ensures Filter(c.details, ActiveAt(asOf)) != [] <==> ActiveDetails(ToFacts(c), asOf) != {}
  {
    FilterCount(c.details, ActiveAt(asOf));
    assert Kept(c.details, ActiveAt(asOf)) == ActiveDetails(ToFacts(c), asOf);
    EmptyCardinality(ActiveDetails(ToFacts(c), asOf));
  }

  /** A list of candidates against a set of facts: same size, and its single element is the set's. */
  lemma ListAgainstFacts<H, D>(s: seq<Candidate<H, D>>, facts: set<Facts<H, D>>)
    requires Keyed(s) && AllFacts(s) == facts
    ensures |s| == |facts| && (s == [] <==> facts == {})
    ensures |s| == 1 ==> Only(facts) == ToFacts(s[0])
  {
    FactsCount(s);
    EmptyCardinality(facts);
    if |s| == 1 {
      assert s[0] in s;
      OnlyIs(facts, ToFacts(s[0]));
    }
  }

  function SelectedIfOnly<H, D>(s: seq<Candidate<H, D>>): Option<Id> {
    if |s| == 1 then Some(s[0].id) else None
  }

  /** evaluate_design_bom */
  method EvaluateDesignBom(candidates: seq<BomCandidate>, asOf: Time) returns (r: Component)
    requires Keyed(candidates)
    ensures r == DesignOf(AllFacts(candidates), asOf)
  {
    ghost var facts := AllFacts(candidates);
    var activeApproved: seq<BomCandidate> := [];
    for n := 0 to |candidates|
      invariant activeApproved == Filter(candidates[..n], ActiveApprovedAt(asOf))
    {
      assert candidates[..n + 1][..n] == candidates[..n];
      if ActiveApprovedAt(asOf)(candidates[n]) {
        activeApproved := activeApproved + [candidates[n]];
      }
    }
    assert candidates[..|candidates|] == candidates;
    ListAgainstFacts(candidates, facts);
    ActiveApprovedFacts(candidates, asOf);
    if candidates == [] {
      return Plainly(NOT_STARTED, NO_BOM);
    }
    if |activeApproved| > 1 {
      return Plainly(ABNORMAL, MULTIPLE_ACTIVE_BOMS);
    }
    if |activeApproved| == 1 {
      var selected := activeApproved[0];
      assert selected in activeApproved;
      FilterMember(candidates, ActiveApprovedAt(asOf), selected);
      ActiveDetailsOf(selected, asOf);
      return Component(COMPLETE, DESIGN_BOM_COMPLETE, Some(selected.id), |Filter(selected.details, ActiveAt(asOf))|, None);
    }
    r := EvaluateUnfinishedBom(candidates, asOf);
  }

  /** The rest of evaluate_design_bom: there are BOMs, none of them approved and active. */
  method EvaluateUnfinishedBom(candidates: seq<BomCandidate>, ghost asOf: Time) returns (r: Component)
    requires Keyed(candidates) && candidates != [] && ActiveBoms(AllFacts(candidates), asOf) == {}
    ensures r == DesignOf(AllFacts(candidates), asOf)
  {
    ghost var facts := AllFacts(candidates);
    ListAgainstFacts(candidates, facts);
    var approved := Filter(candidates, ApprovedBom());
    FilterKeyed(candidates, ApprovedBom());
    FactsOfFilter(candidates, ApprovedBom(), (f: Bom) => f.head.approve == YES);
    ListAgainstFacts(approved, ApprovedFacts(facts));
    if approved == [] {
      return Component(IN_PROGRESS, BOM_NOT_APPROVED, SelectedIfOnly(candidates), 0, None);
    }
    var hasApprovedDetail := exists c <- approved :: exists d <- c.details :: d.approve == YES;
    assert hasApprovedDetail <==> exists f <- ApprovedFacts(facts), d <- f.details :: d.approve == YES by {
      SomeDetailOfFacts(approved, ApprovedFacts(facts));
    }
    r := Component(IN_PROGRESS, if hasApprovedDetail then NO_EFFECTIVE_BOM_DETAIL else BOM_NO_APPROVED_DETAILS,
                   SelectedIfOnly(approved), 0, None);
  }

  lemma ActiveApprovedFacts(candidates: seq<BomCandidate>, asOf: Time)
    requires Keyed(candidates)
    ensures AllFacts(Filter(candidates, ActiveApprovedAt(asOf))) == ActiveBoms(AllFacts(candidates), asOf)
    ensures |Filter(candidates, ActiveApprovedAt(asOf))| == |ActiveBoms(AllFacts(candidates), asOf)|
    ensures |Filter(candidates, ActiveApprovedAt(asOf))| == 1 ==> Only(ActiveBoms(AllFacts(candidates), asOf)) == ToFacts(Filter(candidates, ActiveApprovedAt(asOf))[0])
  {
    forall c | c in candidates ensures ActiveApprovedAt(asOf)(c) == IsActiveBom(ToFacts(c), asOf) {
      ActiveDetailsOf(c, asOf);
    }
    FactsOfFilter(candidates, ActiveApprovedAt(asOf), f => IsActiveBom(f, asOf));
    FilterKeyed(candidates, ActiveApprovedAt(asOf));
    ListAgainstFacts(Filter(candidates, ActiveApprovedAt(asOf)), ActiveBoms(AllFacts(candidates), asOf));
  }

  lemma SomeDetailOfFacts(s: seq<BomCandidate>, facts: set<Bom>)
    requires AllFacts(s) == facts
    ensures (exists c <- s :: exists d <- c.details :: d.approve == YES) <==> exists f <- facts, d <- f.details :: d.approve == YES
  {
    if c, d :| c in s && d in c.details && d.approve == YES {
      assert ToFacts(c) in facts && d in ToFacts(c).details;
    }
    if f, d :| f in facts && d in f.details && d.approve == YES {
      var c :| c in s && ToFacts(c) == f;
      assert d in c.details;
    }
  }

  /** evaluate_routing_candidate */
  function EvaluateRoutingCandidate(c: RoutingCandidate, source: Source): (r: Component)
    requires NoDuplicates(c.details)
    ensures r == RoutingCandidateOf(ToFacts(c), source)
  {
    var approved := Filter(c.details, Approved());
    var invalid := Filter(c.details, ApprovedAndDangling());
    RoutingCounts(c);
    if c.head.approve != YES then Component(IN_PROGRESS, ROUTING_NOT_APPROVED, Some(c.id), 0, Some(source))
    else if approved == [] then Component(IN_PROGRESS, ROUTING_NO_APPROVED_OPERATIONS, Some(c.id), 0, Some(source))
    else if invalid != [] then Component(IN_PROGRESS, INVALID_OPERATION_REFERENCE, Some(c.id), |approved| - |invalid|, Some(source))
    else Component(COMPLETE, ROUTING_COMPLETE, Some(c.id), |approved|, Some(source))
  }

  lemma RoutingCounts(c: RoutingCandidate)
    requires NoDuplicates(c.details)
    ensures |Filter(c.details, Approved())| == |ApprovedOperations(ToFacts(c))|
    ensures |Filter(c.details, ApprovedAndDangling())| == |DanglingOperations(ToFacts(c))|
    ensures |ApprovedOperations(ToFacts(c)) - DanglingOperations(ToFacts(c))| == |ApprovedOperations(ToFacts(c))| - |DanglingOperations(ToFacts(c))|
    ensures ApprovedOperations(ToFacts(c)) == {} <==> |ApprovedOperations(ToFacts(c))| == 0
    ensures DanglingOperations(ToFacts(c)) == {} <==> |DanglingOperations(ToFacts(c))| == 0
  {
    var f := ToFacts(c);
    FilterCount(c.details, Approved());
    assert Kept(c.details, Approved()) == ApprovedOperations(f);
    FilterCount(c.details, ApprovedAndDangling());
    assert Kept(c.details, ApprovedAndDangling()) == DanglingOperations(f);
    assert ApprovedOperations(f) == (ApprovedOperations(f) - DanglingOperations(f)) + DanglingOperations(f);
    EmptyCardinality(ApprovedOperations(f));
    EmptyCardinality(DanglingOperations(f));
  }
}
