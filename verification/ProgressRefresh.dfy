/**
 What the result of an order line depends on: its rows in the source, the ones a change can be traced
 back from, and the ones it cannot.
 */
module ProgressRefresh {
  import opened Wrappers
  import opened ProgressFacts
  import opened ProgressProbe

  import Calendar
  import Keyset

  /** Two minutes. */
  const OVERLAP: Time := Keyset.OVERLAP
  /** The first of September 2026, 243 days into the year. */
  const FORMAL_CANDIDATE_START: Time := Keyset.START + 243 * 864_000_000_000

  /** The two starting dates, as the calendar has them. */
  lemma StartsAreDates()
    ensures Keyset.START == (Calendar.Number(Calendar.Date(2026, 1, 1)) - Calendar.Number(Calendar.Date(1900, 1, 1))) * 864_000_000_000
    ensures FORMAL_CANDIDATE_START == (Calendar.Number(Calendar.Date(2026, 9, 1)) - Calendar.Number(Calendar.Date(1900, 1, 1))) * 864_000_000_000
  {
    hide Calendar.Number;
    Calendar.StartDates();
  }

  // ----- The source -----

  /** A state of a table row: its LastModifiedDate, which of the row's states it is, and its columns. */
  datatype Row<T> = Row(stamp: Time, number: nat, value: T)

  datatype Order = Order(created: Time, customer: Option<Id>, dept: Option<Id>, info: seq<string>)
  datatype OrderLine = OrderLine(order: Id, item: Option<Id>, feature: Option<Id>, info: seq<string>)
  datatype Item = Item(code: Option<string>, info: seq<string>)
  datatype Detail = Detail(bom: Id, detail: BomDetail)
  /** The detail's operationExists is not stored: it is the outcome of the join with OPERATION. */
  datatype Step = Step(routing: Id, detail: RoutingDetail)
  datatype Customer = Customer(code: Option<string>, info: seq<string>)

  datatype Db = Db(orders: map<Id, Row<Order>>, lines: map<Id, Row<OrderLine>>, items: map<Id, Row<Item>>,
                   plants: map<Id, Row<Plant>>, boms: map<Id, Row<BomHead>>, details: map<Id, Row<Detail>>,
                   routings: map<Id, Row<RoutingHead>>, steps: map<Id, Row<Step>>, operations: map<Id, Row<seq<string>>>,
                   customers: map<Id, Row<Customer>>, departments: map<Id, Row<seq<string>>>)

  // ----- Loading -----

  function InfoOf<T>(table: map<Id, Row<T>>, id: Option<Id>, info: T -> seq<string>): seq<string> {
    if id.Some? && id.value in table then info(table[id.value].value) else []
  }

  /** load_order_lines: an order line joined with its order, item, customer and department. */
  function JoinLine(db: Db, id: Id): Line
    requires id in db.lines && db.lines[id].value.order in db.orders
  {
    var line := db.lines[id].value;
    var order := db.orders[line.order].value;
    var itemCode := if line.item.Some? && line.item.value in db.items then db.items[line.item.value].value.code else None;
    var customerCode := if order.customer.Some? && order.customer.value in db.customers then db.customers[order.customer.value].value.code else None;
    Line(id, line.order, line.item, line.feature, itemCode, customerCode,
         line.info + order.info + InfoOf(db.items, line.item, (i: Item) => i.info)
         + InfoOf(db.customers, order.customer, (c: Customer) => c.info) + InfoOf(db.departments, order.dept, (d: seq<string>) => d))
  }

  /** The formal candidate range: created or modified on or after the start date. */
  predicate IsCandidate(db: Db, id: Id) {
    && id in db.lines && db.lines[id].value.order in db.orders
    && var order := db.orders[db.lines[id].value.order]; order.value.created >= FORMAL_CANDIDATE_START || order.stamp >= FORMAL_CANDIDATE_START
  }

  ghost function PlantFacts(db: Db): set<Plant> {
    set p <- db.plants :: db.plants[p].value
  }

  function DetailsOf(db: Db, bom: Id): set<BomDetail> {
    set d | d in db.details && db.details[d].value.bom == bom :: db.details[d].value.detail
  }

  ghost function BomFact(db: Db, bom: Id): Bom
    requires bom in db.boms
  {
    Facts(bom, db.boms[bom].value, DetailsOf(db, bom))
  }

  ghost function BomFacts(db: Db): set<Bom> {
    set b <- db.boms :: BomFact(db, b)
  }

  function Joined(db: Db, detail: RoutingDetail): RoutingDetail {
    detail.(operationExists := detail.operation.Some? && detail.operation.value in db.operations)
  }

  function StepsOf(db: Db, routing: Id): set<RoutingDetail> {
    set s | s in db.steps && db.steps[s].value.routing == routing :: Joined(db, db.steps[s].value.detail)
  }

  ghost function RoutingFact(db: Db, routing: Id): Routing
    requires routing in db.routings
  {
    Facts(routing, db.routings[routing].value, StepsOf(db, routing))
  }

  ghost function RoutingFacts(db: Db): set<Routing> {
    set r <- db.routings :: RoutingFact(db, r)
  }

  /** The evaluation of a line on everything the source holds. */
  ghost function Evaluate(db: Db, id: Id, asOf: Time): LineResult
    requires id in db.lines && db.lines[id].value.order in db.orders
  {
    ResultOf(JoinLine(db, id), PlantFacts(db), BomFacts(db), RoutingFacts(db), asOf)
  }

  // ----- Which facts a result depends on -----

  ghost function BomsOfItem(boms: set<Bom>, item: Option<Id>): set<Bom> {
    set f <- boms | item == Some(f.head.item)
  }

  ghost function RoutingsOfItem(routes: set<Routing>, item: Option<Id>): set<Routing> {
    set f <- routes | item == Some(f.head.item)
  }

  ghost function RoutingWithId(routes: set<Routing>, id: Option<Id>): set<Routing> {
    set f <- routes | id == Some(f.id)
  }

  /** No detail of the item's BOMs changes between active and not active from one moment to the other. */
  ghost predicate SameActivity(boms: set<Bom>, item: Option<Id>, t0: Time, t1: Time) {
    forall f <- BomsOfItem(boms, item), d <- f.details :: IsActive(d, t0) == IsActive(d, t1)
  }

  lemma DesignUnmoved(boms: set<Bom>, t0: Time, t1: Time)
    requires forall f <- boms, d <- f.details :: IsActive(d, t0) == IsActive(d, t1)
    ensures DesignOf(boms, t0) == DesignOf(boms, t1)
  {
    forall f <- boms ensures ActiveDetails(f, t0) == ActiveDetails(f, t1) {}
    assert ActiveBoms(boms, t0) == ActiveBoms(boms, t1);
    if |ActiveBoms(boms, t0)| == 1 {
      assert Only(ActiveBoms(boms, t0)) in boms;
    }
  }

  /** A result depends on its item's plants, BOMs and routings, and on the standard routing of a plant. */
  lemma ResultIsLocal(line: Line, p0: set<Plant>, p1: set<Plant>, b0: set<Bom>, b1: set<Bom>, r0: set<Routing>, r1: set<Routing>, t0: Time, t1: Time)
    requires PlantsOf(p0, line.item) == PlantsOf(p1, line.item)
    requires BomsOfItem(b0, line.item) == BomsOfItem(b1, line.item) && SameActivity(b0, line.item, t0, t1)
    requires RoutingsOfItem(r0, line.item) == RoutingsOfItem(r1, line.item)
    requires forall p <- PlantsOf(p0, line.item) :: RoutingWithId(r0, p.standard) == RoutingWithId(r1, p.standard)
    ensures ResultOf(line, p0, b0, r0, t0) == ResultOf(line, p1, b1, r1, t1)
  {
    var mine := PlantsOf(p0, line.item);
    if line.itemCode.Some? && mine != {} && |mine| <= 1 {
      var plant := Only(mine);
      var scoped := ScopedBoms(b0, line.item, plant);
      assert scoped == ScopedBoms(b1, line.item, plant) by {
        assert scoped == set f <- BomsOfItem(b0, line.item) | f.head.org == plant.org;
        assert ScopedBoms(b1, line.item, plant) == set f <- BomsOfItem(b1, line.item) | f.head.org == plant.org;
      }
      assert forall f <- scoped :: f in BomsOfItem(b0, line.item);
      DesignUnmoved(scoped, t0, t1);
      assert ScopedRoutes(r0, line, plant) == ScopedRoutes(r1, line, plant) by {
        SameScopedRoutes(line, plant, r0, r1);
      }
    }
  }

  lemma SameScopedRoutes(line: Line, plant: Plant, r0: set<Routing>, r1: set<Routing>)
    requires RoutingsOfItem(r0, line.item) == RoutingsOfItem(r1, line.item)
    requires RoutingWithId(r0, plant.standard) == RoutingWithId(r1, plant.standard)
    ensures ScopedRoutes(r0, line, plant) == ScopedRoutes(r1, line, plant)
  {
    if plant.standard.Some? {
      assert ScopedRoutes(r0, line, plant) == RoutingWithId(r0, plant.standard);
      assert ScopedRoutes(r1, line, plant) == RoutingWithId(r1, plant.standard);
    } else {
      assert ScopedRoutes(r0, line, plant) == set f <- RoutingsOfItem(r0, line.item) | f.head.org == plant.org && f.head.feature == line.feature;
      assert ScopedRoutes(r1, line, plant) == set f <- RoutingsOfItem(r1, line.item) | f.head.org == plant.org && f.head.feature == line.feature;
    }
  }

  // ----- Time alone -----

  predicate Within(t: Option<Time>, from: Time, to: Time) {
    t.Some? && from <= t.value <= to
  }

  /** The dates the scheduled-boundary query looks for. */
  predicate HasBoundary(d: BomDetail, from: Time, to: Time) {
    Within(d.effective, from, to) || Within(d.expiry, from, to)
  }

  /** A detail without a boundary in between is active at both times or at neither. */
  lemma TimeAloneIsCovered(d: BomDetail, before: Time, after: Time)
    requires before <= after && !HasBoundary(d, before - OVERLAP, after)
    ensures IsActive(d, before) == IsActive(d, after)
  {
  }

  // ----- Changes -----

  /** Ids of changed rows, per table. */
  datatype Changes = Changes(orders: set<Id>, lines: set<Id>, items: set<Id>, plants: set<Id>, boms: set<Id>, details: set<Id>,
                             routings: set<Id>, steps: set<Id>, operations: set<Id>, customers: set<Id>, departments: set<Id>)

  // The lookups of affected_facts, one per SQL statement.

  function OrderOfLine(db: Db, line: Id): set<Id> {
    if line in db.lines then {db.lines[line].value.order} else {}
  }
  function ItemOfPlant(db: Db, plant: Id): set<Id> {
    if plant in db.plants then {db.plants[plant].value.item} else {}
  }
  function ItemOfBom(db: Db, bom: Id): set<Id> {
    if bom in db.boms then {db.boms[bom].value.item} else {}
  }
  function ItemOfDetail(db: Db, detail: Id): set<Id> {
    if detail in db.details then ItemOfBom(db, db.details[detail].value.bom) else {}
  }
  function RoutingOfStep(db: Db, step: Id): set<Id> {
    if step in db.steps then {db.steps[step].value.routing} else {}
  }
  function RoutingsUsing(db: Db, operation: Id): set<Id> {
    set s | s in db.steps && db.steps[s].value.detail.operation == Some(operation) :: db.steps[s].value.routing
  }
  function ItemOfRouting(db: Db, routing: Id): set<Id> {
    if routing in db.routings then {db.routings[routing].value.item} else {}
  }
  function ItemsWithStandard(db: Db, routing: Id): set<Id> {
    set p | p in db.plants && db.plants[p].value.standard == Some(routing) :: db.plants[p].value.item
  }
  function OrdersOfCustomer(db: Db, customer: Id): set<Id> {
    set o | o in db.orders && db.orders[o].value.customer == Some(customer) :: o
  }
  function OrdersOfDepartment(db: Db, department: Id): set<Id> {
    set o | o in db.orders && db.orders[o].value.dept == Some(department) :: o
  }

  /** What the statements answer for each id; different ids may be answered at different moments. */
  datatype Lookups = Lookups(orderOfLine: Id -> set<Id>, itemOfPlant: Id -> set<Id>, itemOfBom: Id -> set<Id>, itemOfDetail: Id -> set<Id>,
                             routingOfStep: Id -> set<Id>, routingsUsing: Id -> set<Id>, itemOfRouting: Id -> set<Id>,
                             itemsWithStandard: Id -> set<Id>, ordersOfCustomer: Id -> set<Id>, ordersOfDepartment: Id -> set<Id>)

  /** All of them answered at one moment. */
  function LookupsAt(db: Db): Lookups {
    Lookups((x: Id) => OrderOfLine(db, x), (x: Id) => ItemOfPlant(db, x), (x: Id) => ItemOfBom(db, x), (x: Id) => ItemOfDetail(db, x),
            (x: Id) => RoutingOfStep(db, x), (x: Id) => RoutingsUsing(db, x), (x: Id) => ItemOfRouting(db, x),
            (x: Id) => ItemsWithStandard(db, x), (x: Id) => OrdersOfCustomer(db, x), (x: Id) => OrdersOfDepartment(db, x))
  }

  ghost function Image(ids: set<Id>, lookup: Id -> set<Id>): set<Id> {
    set i, x | i in ids && x in lookup(i) :: x
  }

  ghost function AffectedRoutings(l: Lookups, c: Changes): set<Id> {
    c.routings + Image(c.steps, l.routingOfStep) + Image(c.operations, l.routingsUsing)
  }

  ghost function AffectedItems(l: Lookups, c: Changes): set<Id> {
    c.items + Image(c.plants, l.itemOfPlant) + Image(c.boms, l.itemOfBom) + Image(c.details, l.itemOfDetail)
    + Image(AffectedRoutings(l, c), l.itemOfRouting) + Image(AffectedRoutings(l, c), l.itemsWithStandard)
  }

  ghost function AffectedOrders(l: Lookups, c: Changes): set<Id> {
    c.orders + Image(c.lines, l.orderOfLine) + Image(c.customers, l.ordersOfCustomer) + Image(c.departments, l.ordersOfDepartment)
  }

  /** Items with a BOM validity boundary between two moments. */
  function TimedItems(db: Db, from: Time, to: Time): set<Id> {
    set d | d in db.details && db.details[d].value.bom in db.boms && HasBoundary(db.details[d].value.detail, from, to)
      :: db.boms[db.details[d].value.bom].value.item
  }

  /** The filter read_bundle applies to the candidate lines. */
  ghost predicate Selected(line: Line, l: Lookups, c: Changes, timed: set<Id>, customerCodes: set<string>) {
    || line.order in AffectedOrders(l, c)
    || (line.item.Some? && line.item.value in AffectedItems(l, c) + timed)
    || (line.customerCode.Some? && line.customerCode.value in customerCodes)
  }

  // ----- The rows of a line -----

  function PlantItem(): Plant -> Id { (p: Plant) => p.item }
  function BomItem(): BomHead -> Id { (h: BomHead) => h.item }
  function DetailBom(): Detail -> Id { (d: Detail) => d.bom }
  function RoutingItem(): RoutingHead -> Id { (h: RoutingHead) => h.item }
  function StepRouting(): Step -> Id { (s: Step) => s.routing }

  ghost predicate SameEntry<T>(a: map<Id, Row<T>>, b: map<Id, Row<T>>, id: Id) {
    (id in a <==> id in b) && (id in a ==> a[id] == b[id])
  }

  ghost predicate SameReference<T>(a: map<Id, Row<T>>, b: map<Id, Row<T>>, id: Option<Id>) {
    id.Some? ==> SameEntry(a, b, id.value)
  }

  /** Both hold the same rows of this owner. */
  ghost predicate SameOwned<T>(a: map<Id, Row<T>>, b: map<Id, Row<T>>, owner: T -> Id, o: Id) {
    && (forall k <- a :: owner(a[k].value) == o ==> SameEntry(a, b, k))
    && (forall k <- b :: owner(b[k].value) == o ==> SameEntry(a, b, k))
  }

  ghost predicate SameRoutingRows(a: Db, b: Db, routing: Id) {
    && SameEntry(a.routings, b.routings, routing)
    && SameOwned(a.steps, b.steps, StepRouting(), routing)
    && forall s <- a.steps :: a.steps[s].value.routing == routing ==> SameReference(a.operations, b.operations, a.steps[s].value.detail.operation)
  }

  ghost predicate SameItemRows(a: Db, b: Db, item: Id) {
    && SameEntry(a.items, b.items, item)
    && SameOwned(a.plants, b.plants, PlantItem(), item)
    && SameOwned(a.boms, b.boms, BomItem(), item)
    && (forall m <- a.boms :: a.boms[m].value.item == item ==> SameOwned(a.details, b.details, DetailBom(), m))
    && SameOwned(a.routings, b.routings, RoutingItem(), item)
    && (forall r <- a.routings :: a.routings[r].value.item == item ==> SameRoutingRows(a, b, r))
    && (forall p <- a.plants :: a.plants[p].value.item == item && a.plants[p].value.standard.Some?
          ==> SameRoutingRows(a, b, a.plants[p].value.standard.value))
  }

  ghost predicate Present(db: Db, id: Id) {
    id in db.lines && db.lines[id].value.order in db.orders
  }

  /** Every row that enters the evaluation of the line, read through the line as `a` has it. */
  ghost predicate SameLineRows(a: Db, b: Db, id: Id)
    requires Present(a, id)
  {
    var line := a.lines[id].value;
    var order := a.orders[line.order].value;
    && SameEntry(a.lines, b.lines, id) && SameEntry(a.orders, b.orders, line.order)
    && SameReference(a.customers, b.customers, order.customer) && SameReference(a.departments, b.departments, order.dept)
    && (line.item.Some? ==> SameItemRows(a, b, line.item.value))
  }

  lemma SameLineRowsMeet(a: Db, b: Db, c: Db, id: Id)
    requires Present(a, id) && SameLineRows(a, b, id) && SameLineRows(a, c, id)
    ensures Present(b, id) && SameLineRows(b, c, id)
  {
    var line := a.lines[id].value;
    if line.item.Some? {
      SameItemRowsMeet(a, b, c, line.item.value);
    }
  }

  lemma SameOwnedMeet<T>(a: map<Id, Row<T>>, b: map<Id, Row<T>>, c: map<Id, Row<T>>, owner: T -> Id, o: Id)
    requires SameOwned(a, b, owner, o) && SameOwned(a, c, owner, o)
    ensures SameOwned(b, c, owner, o)
    ensures forall k <- b :: owner(b[k].value) == o ==> k in a && a[k] == b[k]
  {
  }

  lemma SameItemRowsMeet(a: Db, b: Db, c: Db, item: Id)
    requires SameItemRows(a, b, item) && SameItemRows(a, c, item)
    ensures SameItemRows(b, c, item)
  {
    hide SameRoutingRows, SameOwned;
    SameOwnedMeet(a.plants, b.plants, c.plants, PlantItem(), item);
    SameOwnedMeet(a.boms, b.boms, c.boms, BomItem(), item);
    SameOwnedMeet(a.routings, b.routings, c.routings, RoutingItem(), item);
    forall m | m in b.boms && b.boms[m].value.item == item ensures SameOwned(b.details, c.details, DetailBom(), m) {
      SameOwnedMeet(a.details, b.details, c.details, DetailBom(), m);
    }
    forall r | r in b.routings && b.routings[r].value.item == item ensures SameRoutingRows(b, c, r) {
      SameRoutingRowsMeet(a, b, c, r);
    }
    forall p | p in b.plants && b.plants[p].value.item == item && b.plants[p].value.standard.Some?
      ensures SameRoutingRows(b, c, b.plants[p].value.standard.value)
    {
      SameRoutingRowsMeet(a, b, c, b.plants[p].value.standard.value);
    }
  }

  lemma SameRoutingRowsMeet(a: Db, b: Db, c: Db, routing: Id)
    requires SameRoutingRows(a, b, routing) && SameRoutingRows(a, c, routing)
    ensures SameRoutingRows(b, c, routing)
  {
    forall s | s in b.steps && b.steps[s].value.routing == routing ensures SameReference(b.operations, c.operations, b.steps[s].value.detail.operation) {
      assert SameEntry(a.steps, b.steps, s);
    }
  }

  // ----- Same rows, same facts -----

  lemma SamePlants(a: Db, b: Db, item: Id)
    requires SameOwned(a.plants, b.plants, PlantItem(), item)
    ensures PlantsOf(PlantFacts(a), Some(item)) == PlantsOf(PlantFacts(b), Some(item))
  {
    forall x ensures x in PlantsOf(PlantFacts(a), Some(item)) <==> x in PlantsOf(PlantFacts(b), Some(item)) {
      if p :| p in a.plants && a.plants[p].value == x && x.item == item {
        assert SameEntry(a.plants, b.plants, p);
      }
      if p :| p in b.plants && b.plants[p].value == x && x.item == item {
        assert SameEntry(a.plants, b.plants, p);
      }
    }
  }

  lemma SameDetails(a: Db, b: Db, bom: Id)
    requires SameOwned(a.details, b.details, DetailBom(), bom)
    ensures DetailsOf(a, bom) == DetailsOf(b, bom)
  {
    forall x ensures x in DetailsOf(a, bom) <==> x in DetailsOf(b, bom) {
      if d :| d in a.details && a.details[d].value.bom == bom && a.details[d].value.detail == x {
        assert SameEntry(a.details, b.details, d);
      }
      if d :| d in b.details && b.details[d].value.bom == bom && b.details[d].value.detail == x {
        assert SameEntry(a.details, b.details, d);
      }
    }
  }

  lemma SameBoms(a: Db, b: Db, item: Id)
    requires SameOwned(a.boms, b.boms, BomItem(), item)
    requires forall m <- a.boms :: a.boms[m].value.item == item ==> SameOwned(a.details, b.details, DetailBom(), m)
    ensures BomsOfItem(BomFacts(a), Some(item)) == BomsOfItem(BomFacts(b), Some(item))
  {
    forall m | m in a.boms && a.boms[m].value.item == item ensures m in b.boms && BomFact(a, m) == BomFact(b, m) {
      SameDetails(a, b, m);
    }
    forall m | m in b.boms && b.boms[m].value.item == item ensures m in a.boms && BomFact(a, m) == BomFact(b, m) {
      SameDetails(a, b, m);
    }
  }

  lemma SameSteps(a: Db, b: Db, routing: Id)
    requires SameRoutingRows(a, b, routing)
    ensures StepsOf(a, routing) == StepsOf(b, routing)
    ensures routing in a.routings ==> routing in b.routings && RoutingFact(a, routing) == RoutingFact(b, routing)
  {
    forall s | s in a.steps && a.steps[s].value.routing == routing
      ensures s in b.steps && a.steps[s] == b.steps[s] && Joined(a, a.steps[s].value.detail) == Joined(b, b.steps[s].value.detail)
    {
      assert SameEntry(a.steps, b.steps, s);
    }
    forall s | s in b.steps && b.steps[s].value.routing == routing
      ensures s in a.steps && a.steps[s] == b.steps[s] && Joined(a, a.steps[s].value.detail) == Joined(b, b.steps[s].value.detail)
    {
      assert SameEntry(a.steps, b.steps, s);
    }
  }

  lemma SameRoutings(a: Db, b: Db, item: Id)
    requires SameOwned(a.routings, b.routings, RoutingItem(), item)
    requires forall r <- a.routings :: a.routings[r].value.item == item ==> SameRoutingRows(a, b, r)
    ensures RoutingsOfItem(RoutingFacts(a), Some(item)) == RoutingsOfItem(RoutingFacts(b), Some(item))
  {
    forall r | r in a.routings && a.routings[r].value.item == item ensures r in b.routings && RoutingFact(a, r) == RoutingFact(b, r) {
      SameSteps(a, b, r);
    }
    forall r | r in b.routings && b.routings[r].value.item == item ensures r in a.routings && RoutingFact(a, r) == RoutingFact(b, r) {
      assert SameEntry(a.routings, b.routings, r);
      SameSteps(a, b, r);
    }
  }

  lemma SameStandard(a: Db, b: Db, standard: Option<Id>)
    requires standard.Some? ==> SameRoutingRows(a, b, standard.value)
    ensures RoutingWithId(RoutingFacts(a), standard) == RoutingWithId(RoutingFacts(b), standard)
  {
    if standard.Some? {
      SameSteps(a, b, standard.value);
    }
  }

  lemma SameLine(a: Db, b: Db, id: Id)
    requires Present(a, id) && SameLineRows(a, b, id)
    ensures Present(b, id) && JoinLine(a, id) == JoinLine(b, id) && (IsCandidate(a, id) <==> IsCandidate(b, id))
  {
    var line := a.lines[id].value;
    if line.item.Some? {
      assert SameEntry(a.items, b.items, line.item.value);
    }
  }

  /** The same rows give the same result, also at another time if no detail of the item comes or goes in between. */
  lemma SameRowsSameResult(a: Db, b: Db, id: Id, t0: Time, t1: Time)
    requires Present(a, id) && SameLineRows(a, b, id)
    requires SameActivity(BomFacts(a), a.lines[id].value.item, t0, t1)
    ensures Present(b, id) && Evaluate(a, id, t0) == Evaluate(b, id, t1)
  {
    SameLine(a, b, id);
    var line := JoinLine(a, id);
    if line.item.Some? {
      var item := line.item.value;
      SamePlants(a, b, item);
      SameBoms(a, b, item);
      SameRoutings(a, b, item);
      forall p | p in PlantsOf(PlantFacts(a), line.item)
        ensures RoutingWithId(RoutingFacts(a), p.standard) == RoutingWithId(RoutingFacts(b), p.standard)
      {
        var k :| k in a.plants && a.plants[k].value == p;
        SameStandard(a, b, p.standard);
      }
    } else {
      NothingWithoutItem(a);
      NothingWithoutItem(b);
    }
    ResultIsLocal(line, PlantFacts(a), PlantFacts(b), BomFacts(a), BomFacts(b), RoutingFacts(a), RoutingFacts(b), t0, t1);
  }

  lemma NothingWithoutItem(db: Db)
    ensures PlantsOf(PlantFacts(db), None) == {} && BomsOfItem(BomFacts(db), None) == {} && RoutingsOfItem(RoutingFacts(db), None) == {}
  {
  }

  // ----- What a change can be traced back from -----

  /** Rows of this owner were there before, as they are. */
  ghost predicate CameFrom<T>(before: map<Id, Row<T>>, after: map<Id, Row<T>>, owner: T -> Id, o: Id) {
    forall k <- after :: owner(after[k].value) == o ==> k in before && before[k] == after[k]
  }

  ghost predicate EntryCameFrom<T>(before: map<Id, Row<T>>, after: map<Id, Row<T>>, id: Id) {
    id in after ==> id in before && before[id] == after[id]
  }

  ghost predicate ReferenceCameFrom<T>(before: map<Id, Row<T>>, after: map<Id, Row<T>>, id: Option<Id>) {
    id.Some? ==> EntryCameFrom(before, after, id.value)
  }

  /** No row of this owner was deleted or moved to another owner. */
  ghost predicate NoneLeft<T>(before: map<Id, Row<T>>, after: map<Id, Row<T>>, owner: T -> Id, o: Id) {
    forall k <- before :: owner(before[k].value) == o ==> k in after && owner(after[k].value) == o
  }

  ghost predicate ReferenceStays<T>(before: map<Id, Row<T>>, after: map<Id, Row<T>>, id: Option<Id>) {
    id.Some? && id.value in before ==> id.value in after
  }

  ghost predicate RoutingCameFrom(before: Db, after: Db, routing: Id) {
    && EntryCameFrom(before.routings, after.routings, routing)
    && CameFrom(before.steps, after.steps, StepRouting(), routing)
    && forall s <- after.steps :: after.steps[s].value.routing == routing
         ==> ReferenceCameFrom(before.operations, after.operations, after.steps[s].value.detail.operation)
  }

  ghost predicate RoutingStays(before: Db, after: Db, routing: Id) {
    && ReferenceStays(before.routings, after.routings, Some(routing))
    && NoneLeft(before.steps, after.steps, StepRouting(), routing)
    && forall s <- after.steps :: after.steps[s].value.routing == routing
         ==> ReferenceStays(before.operations, after.operations, after.steps[s].value.detail.operation)
  }

  ghost predicate ItemCameFrom(before: Db, after: Db, item: Id) {
    && EntryCameFrom(before.items, after.items, item)
    && CameFrom(before.plants, after.plants, PlantItem(), item)
    && CameFrom(before.boms, after.boms, BomItem(), item)
    && (forall m <- after.boms :: after.boms[m].value.item == item ==> CameFrom(before.details, after.details, DetailBom(), m))
    && CameFrom(before.routings, after.routings, RoutingItem(), item)
    && (forall r <- after.routings :: after.routings[r].value.item == item ==> RoutingCameFrom(before, after, r))
    && (forall p <- after.plants :: after.plants[p].value.item == item && after.plants[p].value.standard.Some?
          ==> RoutingCameFrom(before, after, after.plants[p].value.standard.value))
  }

  ghost predicate ItemStays(before: Db, after: Db, item: Id) {
    && ReferenceStays(before.items, after.items, Some(item))
    && NoneLeft(before.plants, after.plants, PlantItem(), item)
    && NoneLeft(before.boms, after.boms, BomItem(), item)
    && (forall m <- after.boms :: after.boms[m].value.item == item ==> NoneLeft(before.details, after.details, DetailBom(), m))
    && NoneLeft(before.routings, after.routings, RoutingItem(), item)
    && (forall r <- after.routings :: after.routings[r].value.item == item ==> RoutingStays(before, after, r))
    && (forall p <- after.plants :: after.plants[p].value.item == item && after.plants[p].value.standard.Some?
          ==> RoutingStays(before, after, after.plants[p].value.standard.value))
  }

  ghost predicate LineCameFrom(before: Db, after: Db, id: Id)
    requires Present(after, id)
  {
    var line := after.lines[id].value;
    var order := after.orders[line.order].value;
    && EntryCameFrom(before.lines, after.lines, id) && EntryCameFrom(before.orders, after.orders, line.order)
    && ReferenceCameFrom(before.customers, after.customers, order.customer)
    && ReferenceCameFrom(before.departments, after.departments, order.dept)
    && (line.item.Some? ==> ItemCameFrom(before, after, line.item.value))
  }

  /** No row the line's result depends on was deleted or moved to another owner. */
  ghost predicate LineStays(before: Db, after: Db, id: Id)
    requires Present(after, id)
  {
    var line := after.lines[id].value;
    var order := after.orders[line.order].value;
    && ReferenceStays(before.customers, after.customers, order.customer)
    && ReferenceStays(before.departments, after.departments, order.dept)
    && (line.item.Some? ==> ItemStays(before, after, line.item.value))
  }

  lemma OwnedUnchangedExactly<T>(before: map<Id, Row<T>>, after: map<Id, Row<T>>, owner: T -> Id, o: Id)
    requires CameFrom(before, after, owner, o)
    ensures SameOwned(after, before, owner, o) <==> NoneLeft(before, after, owner, o)
  {
  }

  lemma RoutingUnchangedExactly(before: Db, after: Db, routing: Id)
    requires RoutingCameFrom(before, after, routing)
    ensures SameRoutingRows(after, before, routing) <==> RoutingStays(before, after, routing)
  {
    hide CameFrom, SameOwned, NoneLeft;
    OwnedUnchangedExactly(before.steps, after.steps, StepRouting(), routing);
  }

  lemma ItemUnchangedExactly(before: Db, after: Db, item: Id)
    requires ItemCameFrom(before, after, item)
    ensures SameItemRows(after, before, item) <==> ItemStays(before, after, item)
  {
    hide CameFrom, SameOwned, NoneLeft, RoutingCameFrom, SameRoutingRows, RoutingStays;
    OwnedUnchangedExactly(before.plants, after.plants, PlantItem(), item);
    OwnedUnchangedExactly(before.boms, after.boms, BomItem(), item);
    OwnedUnchangedExactly(before.routings, after.routings, RoutingItem(), item);
    forall m | CameFrom(before.details, after.details, DetailBom(), m)
      ensures SameOwned(after.details, before.details, DetailBom(), m) <==> NoneLeft(before.details, after.details, DetailBom(), m)
    {
      OwnedUnchangedExactly(before.details, after.details, DetailBom(), m);
    }
    forall r | RoutingCameFrom(before, after, r) ensures SameRoutingRows(after, before, r) <==> RoutingStays(before, after, r) {
      RoutingUnchangedExactly(before, after, r);
    }
  }

  /** When everything a line has now was there before, its rows are unchanged exactly when none has left. */
  lemma LineUnchangedExactly(before: Db, after: Db, id: Id)
    requires Present(after, id) && LineCameFrom(before, after, id)
    ensures SameLineRows(after, before, id) <==> LineStays(before, after, id)
  {
    var line := after.lines[id].value;
    if line.item.Some? {
      ItemUnchangedExactly(before, after, line.item.value);
    }
  }

  // ----- Changed rows in one snapshot: exactly when the facts are unchanged -----

  /** Every row that is new or different is among the changes. */
  ghost predicate Reported<T>(before: map<Id, Row<T>>, after: map<Id, Row<T>>, changed: set<Id>) {
    forall id <- after :: (id in before && before[id] == after[id]) || id in changed
  }

  /** Rows carry their primary key. */
  ghost predicate Named(db: Db) {
    && (forall p <- db.plants :: db.plants[p].value.id == p)
    && (forall d <- db.details :: db.details[d].value.detail.id == d)
    && (forall s <- db.steps :: db.steps[s].value.detail.id == s)
  }

  /** An item's plants are unchanged exactly when no plant row of it left. */
  lemma PlantsUnchangedExactly(before: Db, after: Db, c: Changes, item: Id)
    requires Named(before) && Reported(before.plants, after.plants, c.plants)
    requires item !in AffectedItems(LookupsAt(after), c)
    ensures PlantsOf(PlantFacts(before), Some(item)) == PlantsOf(PlantFacts(after), Some(item))
       <==> NoneLeft(before.plants, after.plants, PlantItem(), item)
  {
    UnaffectedPlants(before, after, c, item);
    if NoneLeft(before.plants, after.plants, PlantItem(), item) {
      SamePlants(before, after, item);
    }
    if PlantsOf(PlantFacts(before), Some(item)) == PlantsOf(PlantFacts(after), Some(item)) {
      forall k | k in before.plants && before.plants[k].value.item == item ensures k in after.plants && after.plants[k].value.item == item {
        assert before.plants[k].value in PlantsOf(PlantFacts(after), Some(item));
        var j :| j in after.plants && after.plants[j].value == before.plants[k].value;
        assert before.plants[j] == after.plants[j];
      }
    }
  }

  lemma UnaffectedPlants(before: Db, after: Db, c: Changes, item: Id)
    requires Reported(before.plants, after.plants, c.plants)
    requires item !in AffectedItems(LookupsAt(after), c)
    ensures CameFrom(before.plants, after.plants, PlantItem(), item)
  {
    forall p | p in after.plants && after.plants[p].value.item == item ensures p !in c.plants {
      assert item in LookupsAt(after).itemOfPlant(p);
    }
  }

  lemma UnaffectedBoms(before: Db, after: Db, c: Changes, item: Id)
    requires Reported(before.boms, after.boms, c.boms) && Reported(before.details, after.details, c.details)
    requires item !in AffectedItems(LookupsAt(after), c)
    ensures CameFrom(before.boms, after.boms, BomItem(), item)
    ensures forall m <- after.boms :: after.boms[m].value.item == item ==> CameFrom(before.details, after.details, DetailBom(), m)
  {
    forall m | m in after.boms && after.boms[m].value.item == item ensures m !in c.boms {
      assert item in LookupsAt(after).itemOfBom(m);
    }
    forall d | d in after.details && after.details[d].value.bom in after.boms && after.boms[after.details[d].value.bom].value.item == item
      ensures d !in c.details
    {
      assert item in LookupsAt(after).itemOfDetail(d);
    }
  }

  ghost predicate BomsStay(before: Db, after: Db, item: Id) {
    && NoneLeft(before.boms, after.boms, BomItem(), item)
    && forall m <- after.boms :: after.boms[m].value.item == item ==> NoneLeft(before.details, after.details, DetailBom(), m)
  }

  /** An item's BOMs with their details are unchanged exactly when no BOM of it and no detail of its BOMs left. */
  lemma BomsUnchangedExactly(before: Db, after: Db, c: Changes, item: Id)
    requires Named(before) && Reported(before.boms, after.boms, c.boms) && Reported(before.details, after.details, c.details)
    requires item !in AffectedItems(LookupsAt(after), c)
    ensures BomsOfItem(BomFacts(before), Some(item)) == BomsOfItem(BomFacts(after), Some(item)) <==> BomsStay(before, after, item)
  {
    UnaffectedBoms(before, after, c, item);
    if BomsOfItem(BomFacts(before), Some(item)) == BomsOfItem(BomFacts(after), Some(item)) {
      forall m | m in before.boms && before.boms[m].value.item == item ensures m in after.boms && after.boms[m].value.item == item {
        assert BomFact(before, m) in BomsOfItem(BomFacts(after), Some(item));
      }
      forall m | m in after.boms && after.boms[m].value.item == item ensures NoneLeft(before.details, after.details, DetailBom(), m) {
        assert BomFact(after, m) in BomsOfItem(BomFacts(before), Some(item));
        assert DetailsOf(before, m) == DetailsOf(after, m);
        SameDetailsNoneLeft(before, after, m);
      }
    } else {
      if BomsStay(before, after, item) {
        SameBoms(before, after, item);
      }
    }
  }

  lemma SameDetailsNoneLeft(before: Db, after: Db, bom: Id)
    requires Named(before) && CameFrom(before.details, after.details, DetailBom(), bom) && DetailsOf(before, bom) == DetailsOf(after, bom)
    ensures NoneLeft(before.details, after.details, DetailBom(), bom)
  {
    forall k | k in before.details && before.details[k].value.bom == bom ensures k in after.details && after.details[k].value.bom == bom {
      assert before.details[k].value.detail in DetailsOf(after, bom);
      var j :| j in after.details && after.details[j].value.bom == bom && after.details[j].value.detail == before.details[k].value.detail;
      assert before.details[j] == after.details[j];
    }
  }

  lemma UnaffectedRoutings(before: Db, after: Db, c: Changes, item: Id)
    requires Reported(before.routings, after.routings, c.routings) && Reported(before.steps, after.steps, c.steps)
    requires Reported(before.operations, after.operations, c.operations)
    requires item !in AffectedItems(LookupsAt(after), c)
    ensures CameFrom(before.routings, after.routings, RoutingItem(), item)
    ensures forall r <- after.routings :: after.routings[r].value.item == item ==> RoutingCameFrom(before, after, r)
    ensures forall p <- after.plants :: after.plants[p].value.item == item && after.plants[p].value.standard.Some?
              ==> RoutingCameFrom(before, after, after.plants[p].value.standard.value)
  {
    var l := LookupsAt(after);
    forall r | r in after.routings && after.routings[r].value.item == item ensures r !in AffectedRoutings(l, c) {
      assert item in l.itemOfRouting(r);
    }
    forall p | p in after.plants && after.plants[p].value.item == item && after.plants[p].value.standard.Some?
      ensures after.plants[p].value.standard.value !in AffectedRoutings(l, c)
    {
      assert item in l.itemsWithStandard(after.plants[p].value.standard.value);
    }
    forall r | r !in AffectedRoutings(l, c) ensures RoutingCameFrom(before, after, r) {
      UnaffectedRouting(before, after, c, r);
    }
  }

  lemma UnaffectedRouting(before: Db, after: Db, c: Changes, routing: Id)
    requires Reported(before.routings, after.routings, c.routings) && Reported(before.steps, after.steps, c.steps)
    requires Reported(before.operations, after.operations, c.operations)
    requires routing !in AffectedRoutings(LookupsAt(after), c)
    ensures RoutingCameFrom(before, after, routing)
  {
    forall s | s in after.steps && after.steps[s].value.routing == routing
      ensures s !in c.steps && ReferenceCameFrom(before.operations, after.operations, after.steps[s].value.detail.operation)
    {
      assert routing in LookupsAt(after).routingOfStep(s);
      if after.steps[s].value.detail.operation.Some? {
        assert routing in LookupsAt(after).routingsUsing(after.steps[s].value.detail.operation.value);
      }
    }
  }

  ghost predicate RoutingsStay(before: Db, after: Db, item: Id) {
    && NoneLeft(before.routings, after.routings, RoutingItem(), item)
    && forall r <- after.routings :: after.routings[r].value.item == item ==> RoutingStays(before, after, r)
  }

  /** An item's routings with their steps are unchanged exactly when no routing of it and no step of its routings left,
      and no operation its steps refer to was deleted. */
  lemma RoutingsUnchangedExactly(before: Db, after: Db, c: Changes, item: Id)
    requires Named(before) && Reported(before.routings, after.routings, c.routings) && Reported(before.steps, after.steps, c.steps)
    requires Reported(before.operations, after.operations, c.operations)
    requires item !in AffectedItems(LookupsAt(after), c)
    ensures RoutingsOfItem(RoutingFacts(before), Some(item)) == RoutingsOfItem(RoutingFacts(after), Some(item))
       <==> RoutingsStay(before, after, item)
  {
    hide Named, RoutingCameFrom, AffectedItems, LookupsAt, Reported;
    UnaffectedRoutings(before, after, c, item);
    if RoutingsOfItem(RoutingFacts(before), Some(item)) == RoutingsOfItem(RoutingFacts(after), Some(item)) {
      forall r | r in before.routings && before.routings[r].value.item == item ensures r in after.routings && after.routings[r].value.item == item {
        assert RoutingFact(before, r) in RoutingsOfItem(RoutingFacts(after), Some(item));
      }
      forall r | r in after.routings && after.routings[r].value.item == item ensures RoutingStays(before, after, r) {
        assert RoutingFact(after, r) in RoutingsOfItem(RoutingFacts(before), Some(item));
        SameStepsStay(before, after, r);
      }
    } else if RoutingsStay(before, after, item) {
      OwnedUnchangedExactly(before.routings, after.routings, RoutingItem(), item);
      forall r | r in after.routings && after.routings[r].value.item == item ensures SameRoutingRows(after, before, r) {
        RoutingUnchangedExactly(before, after, r);
      }
      SameRoutings(after, before, item);
    }
  }

  lemma SameStepsStay(before: Db, after: Db, routing: Id)
    requires Named(before) && RoutingCameFrom(before, after, routing) && routing in after.routings
    requires StepsOf(before, routing) == StepsOf(after, routing)
    ensures RoutingStays(before, after, routing)
  {
    forall k | k in before.steps && before.steps[k].value.routing == routing
      ensures k in after.steps && after.steps[k].value.routing == routing
      ensures Joined(before, before.steps[k].value.detail) == Joined(after, before.steps[k].value.detail)
    {
      var detail := Joined(before, before.steps[k].value.detail);
      assert detail in StepsOf(after, routing);
      var j :| j in after.steps && after.steps[j].value.routing == routing && Joined(after, after.steps[j].value.detail) == detail;
      assert before.steps[j] == after.steps[j];
    }
  }

  // ----- A row that leaves is not traced back -----

  /** One order line for item 2, and one plant row that belongs to the given item. */
  ghost function OneLine(owner: Id, stamp: Time): Db {
    Db(map[Guid(4) := Row(0, 0, Order(FORMAL_CANDIDATE_START, None, None, []))],
       map[Guid(1) := Row(0, 0, OrderLine(Guid(4), Some(Guid(2)), None, []))],
       map[Guid(2) := Row(0, 0, Item(Some("A"), []))],
       map[Guid(5) := Row(stamp, 0, Plant(Guid(5), owner, None, Some("P"), Some("0"), None))],
       map[], map[], map[], map[], map[], map[], map[])
  }

  lemma OneLineResult(owner: Id, stamp: Time)
    ensures Present(OneLine(owner, stamp), Guid(1))
    ensures Evaluate(OneLine(owner, stamp), Guid(1), 0).plant.Some? <==> owner == Guid(2)
    ensures JoinLine(OneLine(owner, stamp), Guid(1)) == Line(Guid(1), Guid(4), Some(Guid(2)), None, Some("A"), None, [])
  {
    var db := OneLine(owner, stamp);
    var plant := Plant(Guid(5), owner, None, Some("P"), Some("0"), None);
    assert db.plants[Guid(5)].value == plant;
    assert PlantFacts(db) == {plant};
    assert JoinLine(db, Guid(1)).itemCode == Some("A");
    assert JoinLine(db, Guid(1)).info == [];
    assert PlantsOf(PlantFacts(db), Some(Guid(2))) == if owner == Guid(2) then {plant} else {};
  }

  lemma ImageOfNone(lookup: Id -> set<Id>)
    ensures Image({}, lookup) == {}
  {
  }

  const ONE_PLANT: Changes := Changes({}, {}, {}, {Guid(5)}, {}, {}, {}, {}, {}, {}, {})

  lemma OneLineIsNotSelected(stamp: Time)
    ensures var db := OneLine(Guid(3), stamp);
            Present(db, Guid(1)) && !Selected(JoinLine(db, Guid(1)), LookupsAt(db), ONE_PLANT, TimedItems(db, 0 - OVERLAP, 0), {})
  {
    hide Image, Evaluate, JoinLine;
    var db := OneLine(Guid(3), stamp);
    var l := LookupsAt(db);
    OneLineResult(Guid(3), stamp);
    ImageOfNone(l.routingOfStep);
    ImageOfNone(l.routingsUsing);
    ImageOfNone(l.itemOfRouting);
    ImageOfNone(l.itemsWithStandard);
    ImageOfNone(l.itemOfBom);
    ImageOfNone(l.itemOfDetail);
    ImageOfNone(l.orderOfLine);
    ImageOfNone(l.ordersOfCustomer);
    ImageOfNone(l.ordersOfDepartment);
    ImageOfOnePlant(stamp);
    assert TimedItems(db, 0 - OVERLAP, 0) == {};
  }

  lemma ImageOfOnePlant(stamp: Time)
    ensures Image({Guid(5)}, LookupsAt(OneLine(Guid(3), stamp)).itemOfPlant) == {Guid(3)}
  {
    var db := OneLine(Guid(3), stamp);
    assert db.plants[Guid(5)].value.item == Guid(3);
    assert LookupsAt(db).itemOfPlant(Guid(5)) == {Guid(3)};
  }

  /**
   A plant row moved to another item is reported, nothing is deleted, and yet a line of the item that
   lost it is not selected although its result changes: the lookup knows only the new owner.
   */
  lemma RepointedPlantIsMissed() returns (before: Db, after: Db, id: Id)
    ensures Reported(before.plants, after.plants, ONE_PLANT.plants) && before == after.(plants := before.plants) && before.plants.Keys == after.plants.Keys
    ensures IsCandidate(before, id) && IsCandidate(after, id) && !LineStays(before, after, id)
    ensures !Selected(JoinLine(after, id), LookupsAt(after), ONE_PLANT, TimedItems(after, 0 - OVERLAP, 0), {})
    ensures Evaluate(before, id, 0) != Evaluate(after, id, 0)
  {
    hide Evaluate, JoinLine, Selected, LookupsAt;
    id, before, after := Guid(1), OneLine(Guid(2), 0), OneLine(Guid(3), 1);
    OneLineResult(Guid(2), 0);
    OneLineResult(Guid(3), 1);
    OneLineIsNotSelected(1);
    assert before.plants[Guid(5)].value.item == Guid(2) && after.plants[Guid(5)].value.item == Guid(3);
    assert !NoneLeft(before.plants, after.plants, PlantItem(), Guid(2));
  }

  // ----- Watermarks -----

  datatype Table = SALES_ORDER_DOC | SALES_ORDER_DOC_D | ITEM | ITEM_PLANT | BOM | BOM_D
                 | ITEM_ROUTING | ITEM_ROUTING_D | OPERATION | CUSTOMER | ADMIN_UNIT

  /** The last (stamp, id) read from a table. */
  datatype Mark = Mark(at: Time, id: Id)

  /** advance_cursor; the server compares ids, here as numbers in its order. */
  function AdvanceCursor(before: Option<Mark>, candidate: Option<Mark>): Option<Mark> {
    if candidate.None? then before
    else if before.None? then candidate
    else if candidate.value.at > before.value.at then candidate
    else if candidate.value.at < before.value.at then before
    else if candidate.value.id.rank > before.value.id.rank then candidate
    else before
  }

  predicate NotBelow(a: Option<Mark>, b: Option<Mark>) {
    b.None? || (a.Some? && (a.value.at > b.value.at || (a.value.at == b.value.at && a.value.id.rank >= b.value.id.rank)))
  }

  /** The watermark is the greater of the two: overlap rows read again cannot pull it back. */
  lemma AdvanceCursorIsMaximum(before: Option<Mark>, candidate: Option<Mark>)
    ensures var r := AdvanceCursor(before, candidate);
            (r == before || r == candidate) && NotBelow(r, before) && NotBelow(r, candidate)
  {
  }

  /** Where source_changes starts to read a table. */
  function Since(mark: Option<Mark>): Time {
    match mark case Some(m) => m.at - OVERLAP case None => FORMAL_CANDIDATE_START
  }

  type Marks = Table -> Option<Mark>

  function Advanced(marks: Marks, newest: Marks): Marks {
    (t: Table) => AdvanceCursor(marks(t), newest(t))
  }

  /** No table is read from later than a read less the overlap. */
  ghost predicate MarksBehind(marks: Marks, at: Time) {
    forall t :: marks(t).Some? ==> marks(t).value.at <= at
  }
}
