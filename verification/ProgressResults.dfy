/** calculate_results: the evaluator over lists of loaded rows, proved to be the function of the facts. */
module ProgressResults {
  import opened Wrappers
  import opened ProgressFacts
  import opened ProgressProbe

  // ----- Grouping rows -----

  function HasKey<T>(keyOf: T -> Id, key: Id): T -> bool {
    (x: T) => keyOf(x) == key
  }

  function Bucket<T>(m: map<Id, seq<T>>, key: Id): seq<T> {
    if key in m then m[key] else []
  }

  /** Rows are appended to the list of their key. */
  method GroupRows<T>(rows: seq<T>, keyOf: T -> Id) returns (grouped: map<Id, seq<T>>)
    ensures forall k :: Bucket(grouped, k) == Filter(rows, HasKey(keyOf, k))
  {
    grouped := map[];
    for n := 0 to |rows|
      invariant forall k :: Bucket(grouped, k) == Filter(rows[..n], HasKey(keyOf, k))
    {
      assert rows[..n + 1][..n] == rows[..n];
      var key := keyOf(rows[n]);
      ghost var before := grouped;
      grouped := grouped[key := Bucket(grouped, key) + [rows[n]]];
      forall k ensures Bucket(grouped, k) == Filter(rows[..n + 1], HasKey(keyOf, k)) {
        assert Bucket(before, k) == Filter(rows[..n], HasKey(keyOf, k));
      }
    }
    assert rows[..|rows|] == rows;
  }

  /** Routings by id. */
  method IndexRoutings(routings: seq<RoutingCandidate>) returns (byId: map<Id, RoutingCandidate>)
    requires Keyed(routings)
    ensures forall k :: k in byId ==> byId[k] in routings && byId[k].id == k
    ensures forall r <- routings :: r.id in byId && byId[r.id] == r
  {
    byId := map[];
    for n := 0 to |routings|
      invariant forall k :: k in byId ==> byId[k] in routings[..n] && byId[k].id == k
      invariant forall r <- routings[..n] :: r.id in byId && byId[r.id] == r
    {
      byId := byId[routings[n].id := routings[n]];
    }
  }

  // ----- Scope of a line, from lists -----

  lemma PlantsOfRows(plants: seq<Plant>, item: Id, mine: seq<Plant>)
    requires NoDuplicates(plants) && mine == Filter(plants, HasKey((p: Plant) => p.item, item))
    ensures var facts := PlantsOf(SetOf(plants), Some(item));
            |mine| == |facts| && (mine == [] <==> facts == {}) && (|mine| == 1 ==> Only(facts) == mine[0])
  {
    var facts := PlantsOf(SetOf(plants), Some(item));
    var mineIs := HasKey((p: Plant) => p.item, item);
    FilterCount(plants, mineIs);
    assert Kept(plants, mineIs) == facts;
    EmptyCardinality(facts);
    if |mine| == 1 {
      assert mine[0] in mine;
      FilterMember(plants, mineIs, mine[0]);
      OnlyIs(facts, mine[0]);
    }
  }

  function OwnedBy(org: Option<Id>): BomCandidate -> bool {
    (c: BomCandidate) => c.head.org == org
  }

  lemma ScopedBomsOfRows(boms: seq<BomCandidate>, item: Id, plant: Plant, scoped: seq<BomCandidate>)
    requires Keyed(boms)
    requires scoped == Filter(Filter(boms, HasKey((c: BomCandidate) => c.head.item, item)), OwnedBy(plant.org))
    ensures Keyed(scoped) && AllFacts(scoped) == ScopedBoms(AllFacts(boms), Some(item), plant)
  {
    var ofItem := HasKey((c: BomCandidate) => c.head.item, item);
    FilterKeyed(boms, ofItem);
    FilterKeyed(Filter(boms, ofItem), OwnedBy(plant.org));
    FactsOfFilter(boms, ofItem, (f: Bom) => f.head.item == item);
    FactsOfFilter(Filter(boms, ofItem), OwnedBy(plant.org), (f: Bom) => f.head.org == plant.org);
  }

  function MadeFor(org: Option<Id>, feature: Option<Id>): RoutingCandidate -> bool {
    (c: RoutingCandidate) => c.head.org == org && c.head.feature == feature
  }

  lemma ScopedRoutesOfRows(routings: seq<RoutingCandidate>, line: Line, plant: Plant, scoped: seq<RoutingCandidate>)
    requires Keyed(routings) && line.item.Some? && plant.standard.None?
    requires scoped == Filter(Filter(routings, HasKey((c: RoutingCandidate) => c.head.item, line.item.value)), MadeFor(plant.org, line.feature))
    ensures Keyed(scoped) && AllFacts(scoped) == ScopedRoutes(AllFacts(routings), line, plant)
  {
    var ofItem := HasKey((c: RoutingCandidate) => c.head.item, line.item.value);
    FilterKeyed(routings, ofItem);
    FilterKeyed(Filter(routings, ofItem), MadeFor(plant.org, line.feature));
    FactsOfFilter(routings, ofItem, (f: Routing) => f.head.item == line.item.value);
    FactsOfFilter(Filter(routings, ofItem), MadeFor(plant.org, line.feature), (f: Routing) => f.head.org == plant.org && f.head.feature == line.feature);
  }

  ghost predicate Indexes(byId: map<Id, RoutingCandidate>, routings: seq<RoutingCandidate>) {
    && (forall k :: k in byId ==> byId[k] in routings && byId[k].id == k)
    && (forall r <- routings :: r.id in byId && byId[r.id] == r)
  }

  lemma StandardRouteOfRows(routings: seq<RoutingCandidate>, byId: map<Id, RoutingCandidate>, line: Line, plant: Plant)
    requires Keyed(routings) && Indexes(byId, routings) && plant.standard.Some?
    ensures var scoped := if plant.standard.value in byId then [byId[plant.standard.value]] else [];
            Keyed(scoped) && AllFacts(scoped) == ScopedRoutes(AllFacts(routings), line, plant)
  {
    var id := plant.standard.value;
    var scoped := if id in byId then [byId[id]] else [];
    forall f | f in ScopedRoutes(AllFacts(routings), line, plant) ensures f in AllFacts(scoped) {
      var c :| c in routings && ToFacts(c) == f;
      assert byId[c.id] == c && c in scoped;
    }
    forall f | f in AllFacts(scoped) ensures f in ScopedRoutes(AllFacts(routings), line, plant) {
      var c :| c in scoped && ToFacts(c) == f;
      assert c in routings;
    }
    assert AllFacts(scoped) == ScopedRoutes(AllFacts(routings), line, plant);
  }

  function ApprovedRouting(): RoutingCandidate -> bool {
    (c: RoutingCandidate) => c.head.approve == YES
  }

  lemma ApprovedRoutingsOfRows(candidates: seq<RoutingCandidate>)
    requires Keyed(candidates)
    ensures var approved := Filter(candidates, ApprovedRouting());
            var facts := ApprovedRoutings(AllFacts(candidates));
            && |approved| == |facts| && (|approved| == 1 ==> Only(facts) == ToFacts(approved[0]) && NoDuplicates(approved[0].details))
  {
    var approved := Filter(candidates, ApprovedRouting());
    FilterKeyed(candidates, ApprovedRouting());
    FactsOfFilter(candidates, ApprovedRouting(), (f: Routing) => f.head.approve == YES);
    assert AllFacts(approved) == ApprovedRoutings(AllFacts(candidates));
    ListAgainstFacts(approved, ApprovedRoutings(AllFacts(candidates)));
    assert |approved| == 1 ==> approved[0] in approved;
  }

  /** evaluate_routing; `candidates` already holds the standard routing when there is one. */
  function EvaluateRouting(control: Option<string>, standard: Option<Id>, candidates: seq<RoutingCandidate>,
                           byId: map<Id, RoutingCandidate>): (r: Component)
    requires Keyed(candidates)
    requires standard.Some? ==> candidates == if standard.value in byId then [byId[standard.value]] else []
    ensures r == RoutingOf(control, standard, AllFacts(candidates))
  {
    ListAgainstFacts(candidates, AllFacts(candidates));
    ApprovedRoutingsOfRows(candidates);
    if control == Some("0") then Plainly(NOT_APPLICABLE, ROUTING_NOT_APPLICABLE)
    else if control == Some("2") then Plainly(ABNORMAL, UNSUPPORTED_FEATURE_ROUTING)
    else if control != Some("1") then Plainly(ABNORMAL, UNSUPPORTED_ROUTING_CONTROL)
    else if standard.Some? then
      if standard.value !in byId then Component(ABNORMAL, STANDARD_ROUTING_NOT_FOUND, None, 0, Some(STANDARD_ROUTING_REFERENCE))
      else
        assert candidates[0] in candidates;
        EvaluateRoutingCandidate(byId[standard.value], STANDARD_ROUTING_REFERENCE)
    else if candidates == [] then Component(NOT_STARTED, NO_ROUTING, None, 0, Some(ITEM_PLANT_MATCH))
    else
      var approved := Filter(candidates, ApprovedRouting());
      if |approved| > 1 then Component(ABNORMAL, MULTIPLE_ACTIVE_ROUTINGS, None, 0, Some(ITEM_PLANT_MATCH))
      else if |approved| == 1 then EvaluateRoutingCandidate(approved[0], ITEM_PLANT_MATCH)
      else Component(IN_PROGRESS, ROUTING_NOT_APPROVED, SelectedIfOnly(candidates), 0, Some(ITEM_PLANT_MATCH))
  }

  /** The first candidate with the selected id. */
  function FirstWithId<H, D>(s: seq<Candidate<H, D>>, id: Option<Id>): (r: Option<(Id, H)>)
    requires Keyed(s)
    ensures r == HeadOf(AllFacts(s), id)
    decreases |s|
  {
    if s == [] then
      EmptyCardinality(set f <- AllFacts(s) | Some(f.id) == id);
      None
    else
      assert s[0] in s && s == [s[0]] + s[1..];
      HeadOfCons(s[0], s[1..], id);
      if Some(s[0].id) == id then Some((s[0].id, s[0].head)) else FirstWithId(s[1..], id)
  }

  lemma HeadOfCons<H, D>(c: Candidate<H, D>, rest: seq<Candidate<H, D>>, id: Option<Id>)
    requires Keyed([c] + rest)
    ensures HeadOf(AllFacts([c] + rest), id) == if Some(c.id) == id then Some((c.id, c.head)) else HeadOf(AllFacts(rest), id)
  {
    var s := [c] + rest;
    assert s[0] == c && forall i :: 0 <= i < |rest| ==> s[i + 1] == rest[i];
    assert forall r <- rest :: r.id != c.id;
    var hits := set f <- AllFacts(s) | Some(f.id) == id;
    if Some(c.id) == id {
      assert hits == {ToFacts(c)};
      OnlyIs(hits, ToFacts(c));
    } else {
      assert hits == set f <- AllFacts(rest) | Some(f.id) == id;
    }
  }

  // ----- Latest modification -----

  ghost function Present(times: seq<Option<Time>>): set<Time> {
    set t, o | o in times && t in Stamped(o) :: t
  }

  lemma PresentAppend(a: seq<Option<Time>>, b: seq<Option<Time>>)
    ensures Present(a + b) == Present(a) + Present(b)
  {
  }

  /** max_datetime */
  method MaxDatetime(values: seq<Option<Time>>) returns (r: Option<Time>)
    ensures IsLatest(Present(values), r)
  {
    r := None;
    for n := 0 to |values|
      invariant IsLatest(Present(values[..n]), r)
    {
      assert values[..n + 1] == values[..n] + [values[n]];
      PresentAppend(values[..n], [values[n]]);
      assert Present([values[n]]) == Stamped(values[n]);
      if values[n].Some? && (r.None? || r.value < values[n].value) {
        r := values[n];
      }
    }
    assert values[..|values|] == values;
  }

  lemma FactsAppend<H, D>(s: seq<Candidate<H, D>>, n: nat)
    requires n < |s|
    ensures AllFacts(s[..n + 1]) == AllFacts(s[..n]) + {ToFacts(s[n])}
  {
    assert s[..n + 1] == s[..n] + [s[n]];
  }

  /** rd_last_modified_at */
  method RdLastModifiedAt(boms: seq<BomCandidate>, routes: seq<RoutingCandidate>) returns (r: Option<Time>)
    ensures r == Latest(TimesOf(AllFacts(boms), AllFacts(routes)))
  {
    var timestamps: seq<Option<Time>> := [];
    for n := 0 to |boms|
      invariant Present(timestamps) == TimesOf(AllFacts(boms[..n]), {})
    {
      var more := BomTimestamps(boms[n]);
      PresentAppend(timestamps, more);
      timestamps := timestamps + more;
      FactsAppend(boms, n);
      TimesAppend(AllFacts(boms[..n]), {ToFacts(boms[n])}, {}, {});
      assert TimesOf({ToFacts(boms[n])}, {}) == BomTimes(ToFacts(boms[n]));
    }
    assert boms[..|boms|] == boms;
    for n := 0 to |routes|
      invariant Present(timestamps) == TimesOf(AllFacts(boms), AllFacts(routes[..n]))
    {
      var more := RoutingTimestamps(routes[n]);
      PresentAppend(timestamps, more);
      timestamps := timestamps + more;
      FactsAppend(routes, n);
      TimesAppend(AllFacts(boms), {}, AllFacts(routes[..n]), {ToFacts(routes[n])});
      assert TimesOf({}, {ToFacts(routes[n])}) == RoutingTimes(ToFacts(routes[n]));
    }
    assert routes[..|routes|] == routes;
    r := MaxDatetime(timestamps);
  }

  lemma TimesAppend(a: set<Bom>, b: set<Bom>, c: set<Routing>, d: set<Routing>)
    ensures TimesOf(a + b, c + d) == TimesOf(a, c) + TimesOf(b, d)
    ensures a + {} == a && c + {} == c
  {
  }

  method BomTimestamps(c: BomCandidate) returns (times: seq<Option<Time>>)
    ensures Present(times) == BomTimes(ToFacts(c))
  {
    times := [c.head.created, c.head.modified];
    ghost var base := Stamped(c.head.created) + Stamped(c.head.modified);
    for n := 0 to |c.details|
      invariant Present(times) == base + (set d, t | d in c.details[..n] && t in Stamped(d.created) + Stamped(d.modified) :: t)
    {
      var d := c.details[n];
      PresentAppend(times, [d.created, d.modified]);
      assert Present([d.created, d.modified]) == Stamped(d.created) + Stamped(d.modified);
      assert c.details[..n + 1] == c.details[..n] + [d];
      times := times + [d.created, d.modified];
    }
  }

  method RoutingTimestamps(c: RoutingCandidate) returns (times: seq<Option<Time>>)
    ensures Present(times) == RoutingTimes(ToFacts(c))
  {
    times := [c.head.created, c.head.modified];
    ghost var base := Stamped(c.head.created) + Stamped(c.head.modified);
    for n := 0 to |c.details|
      invariant Present(times) == base + (set d, t | d in c.details[..n] && t in Stamped(d.created) + Stamped(d.modified) :: t)
    {
      var d := c.details[n];
      PresentAppend(times, [d.created, d.modified]);
      assert Present([d.created, d.modified]) == Stamped(d.created) + Stamped(d.modified);
      assert c.details[..n + 1] == c.details[..n] + [d];
      times := times + [d.created, d.modified];
    }
  }

  // ----- The evaluator -----

  function Standing(line: Line, reason: Reason): LineResult {
    var broken := Plainly(ABNORMAL, reason);
    LineResult(line, None, broken, broken, Final(RD_ABNORMAL, reason), None, None, None)
  }

  /** The branch of calculate_results for a line with exactly one plant row. */
  method EvaluatePlantLine(line: Line, plant: Plant, scopedBoms: seq<BomCandidate>, scopedRoutes: seq<RoutingCandidate>,
                           byId: map<Id, RoutingCandidate>, asOf: Time) returns (result: LineResult)
    requires Keyed(scopedBoms) && Keyed(scopedRoutes)
    requires plant.standard.Some? ==> scopedRoutes == if plant.standard.value in byId then [byId[plant.standard.value]] else []
    ensures result == PlantResult(line, plant, AllFacts(scopedBoms), AllFacts(scopedRoutes), asOf)
  {
    var rule := DetermineItemRule(plant.property, plant.control);
    var design, routing;
    if rule.itemNotApplicable {
      design := Plainly(NOT_APPLICABLE, REASON_NOT_APPLICABLE);
      routing := Plainly(NOT_APPLICABLE, REASON_NOT_APPLICABLE);
    } else if !rule.supported {
      design := Plainly(ABNORMAL, UNSUPPORTED_ITEM_RULE_COMBINATION);
      routing := design;
    } else {
      design := EvaluateDesignBom(scopedBoms, asOf);
      routing := EvaluateRouting(plant.control, plant.standard, scopedRoutes, byId);
    }
    var last := RdLastModifiedAt(scopedBoms, scopedRoutes);
    result := LineResult(line, Some(plant), design, routing, CalculateRdStatus(rule, design, routing),
                         FirstWithId(scopedBoms, design.selected), FirstWithId(scopedRoutes, routing.selected), last);
  }

  /** One turn of the loop over order rows. */
  method EvaluateLine(line: Line, plants: seq<Plant>, boms: seq<BomCandidate>, routings: seq<RoutingCandidate>,
                      plantsByItem: map<Id, seq<Plant>>, bomsByItem: map<Id, seq<BomCandidate>>,
                      routesByItem: map<Id, seq<RoutingCandidate>>, byId: map<Id, RoutingCandidate>, asOf: Time)
    returns (result: LineResult)
    requires NoDuplicates(plants) && Keyed(boms) && Keyed(routings) && Indexes(byId, routings)
    requires forall k :: Bucket(plantsByItem, k) == Filter(plants, HasKey((p: Plant) => p.item, k))
    requires forall k :: Bucket(bomsByItem, k) == Filter(boms, HasKey((c: BomCandidate) => c.head.item, k))
    requires forall k :: Bucket(routesByItem, k) == Filter(routings, HasKey((c: RoutingCandidate) => c.head.item, k))
    ensures result == ResultOf(line, SetOf(plants), AllFacts(boms), AllFacts(routings), asOf)
  {
    if line.itemCode.None? {
      return Standing(line, MISSING_ITEM);
    }
    if line.item.None? {
      return Standing(line, MISSING_ITEM_PLANT);
    }
    var item := line.item.value;
    var itemPlants := Bucket(plantsByItem, item);
    PlantsOfRows(plants, item, itemPlants);
    if itemPlants == [] {
      return Standing(line, MISSING_ITEM_PLANT);
    }
    if |itemPlants| > 1 {
      return Standing(line, MULTIPLE_ITEM_PLANT_ROWS);
    }
    var plant := itemPlants[0];
    var scopedBoms := Filter(Bucket(bomsByItem, item), OwnedBy(plant.org));
    ScopedBomsOfRows(boms, item, plant, scopedBoms);
    var scopedRoutes: seq<RoutingCandidate>;
    if plant.standard.Some? {
      scopedRoutes := if plant.standard.value in byId then [byId[plant.standard.value]] else [];
      StandardRouteOfRows(routings, byId, line, plant);
    } else {
      scopedRoutes := Filter(Bucket(routesByItem, item), MadeFor(plant.org, line.feature));
      ScopedRoutesOfRows(routings, line, plant, scopedRoutes);
    }
    result := EvaluatePlantLine(line, plant, scopedBoms, scopedRoutes, byId, asOf);
  }

  /**
   calculate_results.  The right-hand side speaks of sets, so no order of the plant, BOM, routing or
   detail rows can change any field of any result.
   */
  method CalculateResults(orders: seq<Line>, plants: seq<Plant>, boms: seq<BomCandidate>, routings: seq<RoutingCandidate>, asOf: Time)
    returns (results: seq<LineResult>)
    requires NoDuplicates(plants) && Keyed(boms) && Keyed(routings)
    ensures |results| == |orders|
    ensures forall i :: 0 <= i < |orders| ==> results[i] == ResultOf(orders[i], SetOf(plants), AllFacts(boms), AllFacts(routings), asOf)
  {
    var plantsByItem := GroupRows(plants, (p: Plant) => p.item);
    var bomsByItem := GroupRows(boms, (c: BomCandidate) => c.head.item);
    var byId := IndexRoutings(routings);
    var routesByItem := GroupRows(routings, (c: RoutingCandidate) => c.head.item);
    results := [];
    for n := 0 to |orders|
      invariant |results| == n
      invariant forall i :: 0 <= i < n ==> results[i] == ResultOf(orders[i], SetOf(plants), AllFacts(boms), AllFacts(routings), asOf)
    {
      var result := EvaluateLine(orders[n], plants, boms, routings, plantsByItem, bomsByItem, routesByItem, byId, asOf);
      results := results + [result];
    }
  }
}
