/**
 read_bundle: an incremental read of a source that keeps changing while it is read.  Every statement
 reads at a moment of its own between the cutoff and the end of the read.
 */
module ProgressBundle {
  import opened Wrappers
  import opened ProgressFacts
  import opened ProgressProbe
  import opened ProgressRefresh

  // ----- The source over time -----

  /** What each table holds at each moment. */
  datatype History = History(
    orders: Time -> map<Id, Row<Order>>, lines: Time -> map<Id, Row<OrderLine>>, items: Time -> map<Id, Row<Item>>,
    plants: Time -> map<Id, Row<Plant>>, boms: Time -> map<Id, Row<BomHead>>, details: Time -> map<Id, Row<Detail>>,
    routings: Time -> map<Id, Row<RoutingHead>>, steps: Time -> map<Id, Row<Step>>, operations: Time -> map<Id, Row<seq<string>>>,
    customers: Time -> map<Id, Row<Customer>>, departments: Time -> map<Id, Row<seq<string>>>)

  function DbAt(h: History, t: Time): Db {
    Db(h.orders(t), h.lines(t), h.items(t), h.plants(t), h.boms(t), h.details(t),
       h.routings(t), h.steps(t), h.operations(t), h.customers(t), h.departments(t))
  }

  /** A row that is new or different at a later moment was stamped in between, give or take the commit delay. */
  ghost predicate StampedTable<T(!new)>(table: Time -> map<Id, Row<T>>) {
    forall t0, t1, k :: t0 <= t1 && k in table(t1) ==>
      (k in table(t0) && table(t0)[k] == table(t1)[k]) || t0 - OVERLAP <= table(t1)[k].stamp
  }

  ghost predicate WellStamped(h: History) {
    && StampedTable(h.orders) && StampedTable(h.lines) && StampedTable(h.items) && StampedTable(h.plants)
    && StampedTable(h.boms) && StampedTable(h.details) && StampedTable(h.routings) && StampedTable(h.steps)
    && StampedTable(h.operations) && StampedTable(h.customers) && StampedTable(h.departments)
  }

  // ----- A scan for changes -----

  /** The row is there, in one state, from the one moment to the other. */
  ghost predicate QuietRow<T(!new)>(table: Time -> map<Id, Row<T>>, k: Id, from: Time, to: Time)
    requires k in table(from)
  {
    forall t :: from <= t <= to ==> k in table(t) && table(t)[k] == table(from)[k]
  }

  /** What source_changes promises of a scan that starts at `since`: it yields every quiet row stamped from there on. */
  ghost predicate Scanned<T(!new)>(table: Time -> map<Id, Row<T>>, since: Time, from: Time, to: Time, changed: set<Id>) {
    forall k <- table(from) :: QuietRow(table, k, from, to) && since <= table(from)[k].stamp ==> k in changed
  }

  ghost predicate AllScanned(h: History, marks: Marks, from: Time, to: Time, c: Changes) {
    && Scanned(h.orders, Since(marks(SALES_ORDER_DOC)), from, to, c.orders)
    && Scanned(h.lines, Since(marks(SALES_ORDER_DOC_D)), from, to, c.lines)
    && Scanned(h.items, Since(marks(ITEM)), from, to, c.items)
    && Scanned(h.plants, Since(marks(ITEM_PLANT)), from, to, c.plants)
    && Scanned(h.boms, Since(marks(BOM)), from, to, c.boms)
    && Scanned(h.details, Since(marks(BOM_D)), from, to, c.details)
    && Scanned(h.routings, Since(marks(ITEM_ROUTING)), from, to, c.routings)
    && Scanned(h.steps, Since(marks(ITEM_ROUTING_D)), from, to, c.steps)
    && Scanned(h.operations, Since(marks(OPERATION)), from, to, c.operations)
    && Scanned(h.customers, Since(marks(CUSTOMER)), from, to, c.customers)
    && Scanned(h.departments, Since(marks(ADMIN_UNIT)), from, to, c.departments)
  }

  // ----- A bundle -----

  function CandidateLines(db: Db): map<Id, Line> {
    map id | id in db.lines && IsCandidate(db, id) :: JoinLine(db, id)
  }

  /** The inventory: the lines of orders created or changed on or after the start date, each with the codes of its item
      and its order's customer, absent where the reference or the row is. */
  lemma InventoryIs(db: Db, id: Id)
    ensures id in CandidateLines(db) <==>
      id in db.lines && db.lines[id].value.order in db.orders
      && (FORMAL_CANDIDATE_START <= db.orders[db.lines[id].value.order].value.created || FORMAL_CANDIDATE_START <= db.orders[db.lines[id].value.order].stamp)
    ensures id in CandidateLines(db) ==>
      var line, row := CandidateLines(db)[id], db.lines[id].value;
      && line.id == id && line.order == row.order && line.item == row.item && line.feature == row.feature
      && (forall c :: line.itemCode == Some(c) <==> exists i :: row.item == Some(i) && i in db.items && db.items[i].value.code == Some(c))
      && (forall c :: line.customerCode == Some(c) <==>
            exists k :: db.orders[row.order].value.customer == Some(k) && k in db.customers && db.customers[k].value.code == Some(c))
  {
    hide InfoOf;
  }

  /** The items with a scheduled boundary: a detail of one of their BOMs comes into effect or expires in the interval. */
  lemma TimedItemsAre(db: Db, from: Time, to: Time, item: Id)
    ensures item in TimedItems(db, from, to) <==> exists d :: d in db.details && IsDueFor(db, d, from, to, item)
  {
    if item in TimedItems(db, from, to) {
      var d :| d in db.details && db.details[d].value.bom in db.boms && HasBoundary(db.details[d].value.detail, from, to)
            && item == db.boms[db.details[d].value.bom].value.item;
      assert IsDueFor(db, d, from, to, item);
    }
  }

  predicate IsDueFor(db: Db, d: Id, from: Time, to: Time, item: Id)
    requires d in db.details
  {
    var row := db.details[d].value;
    && row.bom in db.boms && db.boms[row.bom].value.item == item
    && ((match row.detail.effective case Some(t) => from <= t <= to case None => false)
        || match row.detail.expiry case Some(t) => from <= t <= to case None => false)
  }

  // The rows a load statement returns for one of its parameters.

  function PlantsAt(db: Db, item: Id): set<Plant> {
    set p | p in db.plants && db.plants[p].value.item == item :: db.plants[p].value
  }
  function BomsAt(db: Db, item: Id): set<(Id, BomHead)> {
    set m | m in db.boms && db.boms[m].value.item == item :: (m, db.boms[m].value)
  }
  function RoutingsAt(db: Db, item: Id): set<(Id, RoutingHead)> {
    set r | r in db.routings && db.routings[r].value.item == item :: (r, db.routings[r].value)
  }
  function RoutingAt(db: Db, routing: Id): Option<RoutingHead> {
    if routing in db.routings then Some(db.routings[routing].value) else None
  }

  /**
   Everything one read collects.  `lines` is the candidate inventory; the functions answer for each parameter
   at some moment of the read, not all at the same one; the two head dictionaries keep one row for each id.
   */
  datatype Bundle = Bundle(
    cutoff: Time, end: Time, full: bool, newest: Marks,
    changes: Changes, lookups: Lookups, timed: set<Id>, customerCodes: set<string>,
    lines: map<Id, Line>, plants: Id -> set<Plant>, boms: Id -> set<(Id, BomHead)>, details: Id -> set<BomDetail>,
    routings: Id -> set<(Id, RoutingHead)>, routing: Id -> Option<RoutingHead>, steps: Id -> set<RoutingDetail>,
    bomHeads: map<Id, BomHead>, routingHeads: map<Id, RoutingHead>)

  /** For every parameter there is a moment of the read at which the source answered it so. */
  ghost predicate Answered<R(!new)>(h: History, from: Time, to: Time, answer: Id -> R, statement: (Db, Id) -> R) {
    forall x :: AnsweredAt(h, from, to, answer, statement, x)
  }

  ghost predicate AnsweredAt<R(!new)>(h: History, from: Time, to: Time, answer: Id -> R, statement: (Db, Id) -> R, x: Id) {
    exists t :: from <= t <= to && answer(x) == statement(DbAt(h, t), x)
  }

  ghost predicate LookupsAnswered(h: History, from: Time, to: Time, l: Lookups) {
    && Answered(h, from, to, l.orderOfLine, OrderOfLine) && Answered(h, from, to, l.itemOfPlant, ItemOfPlant)
    && Answered(h, from, to, l.itemOfBom, ItemOfBom) && Answered(h, from, to, l.itemOfDetail, ItemOfDetail)
    && Answered(h, from, to, l.routingOfStep, RoutingOfStep) && Answered(h, from, to, l.routingsUsing, RoutingsUsing)
    && Answered(h, from, to, l.itemOfRouting, ItemOfRouting) && Answered(h, from, to, l.itemsWithStandard, ItemsWithStandard)
    && Answered(h, from, to, l.ordersOfCustomer, OrdersOfCustomer) && Answered(h, from, to, l.ordersOfDepartment, OrdersOfDepartment)
  }

  ghost predicate LoadsAnswered(h: History, b: Bundle) {
    && (exists t :: b.cutoff <= t <= b.end && b.lines == CandidateLines(DbAt(h, t)))
    && Answered(h, b.cutoff, b.end, b.plants, PlantsAt) && Answered(h, b.cutoff, b.end, b.boms, BomsAt)
    && Answered(h, b.cutoff, b.end, b.details, DetailsOf) && Answered(h, b.cutoff, b.end, b.routings, RoutingsAt)
    && Answered(h, b.cutoff, b.end, b.routing, RoutingAt) && Answered(h, b.cutoff, b.end, b.steps, StepsOf)
    && Chosen(b.bomHeads, FoundBoms(b)) && Chosen(b.routingHeads, FoundRoutings(b))
  }

  /** One of the rows found for each id: a row that moves meanwhile may be found twice. */
  ghost predicate Chosen<H>(heads: map<Id, H>, found: set<(Id, H)>) {
    && (forall m <- found :: m.0 in heads)
    && (forall k <- heads :: (k, heads[k]) in found)
  }

  /** What is kept between reads: cutoff and end of the last one, the watermarks, and the results. */
  datatype Kept = Kept(cutoff: Time, end: Time, marks: Marks, stored: map<Id, LineResult>)

  /** A read that may follow: a full one at any time, an incremental one after the last has ended. */
  ghost predicate Follows(h: History, k: Kept, b: Bundle) {
    && b.cutoff <= b.end && MarksBehind(b.newest, b.cutoff) && LoadsAnswered(h, b)
    && (!b.full ==>
          && k.cutoff <= k.end <= b.cutoff
          && MarksBehind(k.marks, k.cutoff) && FORMAL_CANDIDATE_START <= k.cutoff - OVERLAP
          && AllScanned(h, k.marks, b.cutoff, b.end, b.changes)
          && LookupsAnswered(h, b.cutoff, b.end, b.lookups)
          && exists t :: b.cutoff <= t <= b.end && b.timed == TimedItems(DbAt(h, t), k.cutoff - OVERLAP, b.cutoff))
  }

  ghost predicate IsSelected(b: Bundle, id: Id)
    requires id in b.lines
  {
    b.full || Selected(b.lines[id], b.lookups, b.changes, b.timed, b.customerCodes)
  }

  ghost function LoadedItems(b: Bundle): set<Id> {
    set id | id in b.lines && IsSelected(b, id) && b.lines[id].item.Some? :: b.lines[id].item.value
  }

  ghost function LoadedPlants(b: Bundle): set<Plant> {
    set i, p | i in LoadedItems(b) && p in b.plants(i) :: p
  }

  ghost function FoundBoms(b: Bundle): set<(Id, BomHead)> {
    set i, m | i in LoadedItems(b) && m in b.boms(i) :: m
  }

  ghost function LoadedBoms(b: Bundle): set<Bom> {
    set m <- b.bomHeads :: Facts(m, b.bomHeads[m], b.details(m))
  }

  /** Routings of the items, and the standard routings of their plants. */
  ghost function FoundRoutings(b: Bundle): set<(Id, RoutingHead)> {
    (set i, r | i in LoadedItems(b) && r in b.routings(i) :: r)
    + set p | p in LoadedPlants(b) && p.standard.Some? && b.routing(p.standard.value).Some? :: (p.standard.value, b.routing(p.standard.value).value)
  }

  ghost function LoadedRoutings(b: Bundle): set<Routing> {
    set r <- b.routingHeads :: Facts(r, b.routingHeads[r], b.steps(r))
  }

  /** The evaluation of a line on the bundle, as of its cutoff. */
  ghost function EvaluateLoaded(b: Bundle, id: Id): LineResult
    requires id in b.lines
  {
    ResultOf(b.lines[id], LoadedPlants(b), LoadedBoms(b), LoadedRoutings(b), b.cutoff)
  }

  /** A full read starts the watermarks anew. */
  ghost function NextMarks(k: Kept, b: Bundle): Marks {
    if b.full then b.newest else Advanced(k.marks, b.newest)
  }

  /** No watermark is ever beyond the cutoff of its read, which is what the next read builds on. */
  lemma MarksStayBehind(h: History, k: Kept, b: Bundle)
    requires Follows(h, k, b)
    ensures MarksBehind(AfterBundle(k, b).marks, AfterBundle(k, b).cutoff)
  {
  }

  /** Selected lines are evaluated on the bundle, other candidates keep what is stored, the rest goes. */
  ghost function AfterBundle(k: Kept, b: Bundle): Kept {
    Kept(b.cutoff, b.end, NextMarks(k, b),
         map id | id in b.lines && (IsSelected(b, id) || id in k.stored) ::
           if IsSelected(b, id) then EvaluateLoaded(b, id) else k.stored[id])
  }

  // ----- Lines at rest during a read -----

  /** No row that enters the line's evaluation becomes visible, changes or goes during the read. */
  ghost predicate QuietLine(h: History, id: Id, from: Time, to: Time) {
    Present(DbAt(h, from), id) && forall t :: from <= t <= to ==> SameLineRows(DbAt(h, from), DbAt(h, t), id)
  }

  /** What is stored for a line at rest during the last read is what the source at its cutoff gives. */
  ghost predicate IsRight(h: History, k: Kept, id: Id) {
    QuietLine(h, id, k.cutoff, k.end) ==>
      && (id in k.stored <==> IsCandidate(DbAt(h, k.cutoff), id))
      && (id in k.stored ==> k.stored[id] == Evaluate(DbAt(h, k.cutoff), id, k.cutoff))
  }

  /** None of the rows it has at a later moment's reading has left it since an earlier one. */
  ghost predicate NothingLeaves(h: History, id: Id, from: Time, to: Time) {
    forall t :: from <= t <= to && Present(DbAt(h, to), id) ==> LineStays(DbAt(h, t), DbAt(h, to), id)
  }

  lemma QuietInventory(h: History, b: Bundle, id: Id)
    requires LoadsAnswered(h, b) && b.cutoff <= b.end && QuietLine(h, id, b.cutoff, b.end)
    ensures id in b.lines <==> IsCandidate(DbAt(h, b.cutoff), id)
    ensures id in b.lines ==> b.lines[id] == JoinLine(DbAt(h, b.cutoff), id)
  {
    var t :| b.cutoff <= t <= b.end && b.lines == CandidateLines(DbAt(h, t));
    SameLine(DbAt(h, b.cutoff), DbAt(h, t), id);
  }

  // ----- A selected line -----

  ghost predicate QuietItem(h: History, item: Id, from: Time, to: Time) {
    forall t :: from <= t <= to ==> SameItemRows(DbAt(h, from), DbAt(h, t), item)
  }

  lemma WhenAnswered<R(!new)>(h: History, from: Time, to: Time, answer: Id -> R, statement: (Db, Id) -> R, x: Id) returns (t: Time)
    requires Answered(h, from, to, answer, statement)
    ensures from <= t <= to && answer(x) == statement(DbAt(h, t), x)
  {
    assert AnsweredAt(h, from, to, answer, statement, x);
    t :| from <= t <= to && answer(x) == statement(DbAt(h, t), x);
  }

  lemma QuietPlants(h: History, b: Bundle, item: Id)
    requires LoadsAnswered(h, b) && b.cutoff <= b.end && QuietItem(h, item, b.cutoff, b.end) && item in LoadedItems(b)
    ensures PlantsOf(LoadedPlants(b), Some(item)) == PlantsOf(PlantFacts(DbAt(h, b.cutoff)), Some(item))
  {
    hide Answered, SameItemRows, LoadedItems;
    var a := DbAt(h, b.cutoff);
    forall i, p | i in LoadedItems(b) && p in b.plants(i) ensures p.item == i {
      var t := WhenAnswered(h, b.cutoff, b.end, b.plants, PlantsAt, i);
    }
    var t := WhenAnswered(h, b.cutoff, b.end, b.plants, PlantsAt, item);
    QuietItemAt(h, item, b.cutoff, b.end, t);
    SamePlants(a, DbAt(h, t), item);
    assert b.plants(item) == PlantsOf(PlantFacts(DbAt(h, t)), Some(item));
  }

  /** What a quiet item's rows are at a moment of the read. */
  lemma QuietItemAt(h: History, item: Id, from: Time, to: Time, t: Time)
    requires QuietItem(h, item, from, to) && from <= t <= to
    ensures SameItemRows(DbAt(h, from), DbAt(h, t), item)
    ensures SameOwned(DbAt(h, from).plants, DbAt(h, t).plants, PlantItem(), item)
    ensures SameOwned(DbAt(h, from).boms, DbAt(h, t).boms, BomItem(), item)
    ensures SameOwned(DbAt(h, from).routings, DbAt(h, t).routings, RoutingItem(), item)
  {
  }

  lemma QuietBoms(h: History, b: Bundle, item: Id)
    requires LoadsAnswered(h, b) && b.cutoff <= b.end && QuietItem(h, item, b.cutoff, b.end) && item in LoadedItems(b)
    ensures BomsOfItem(LoadedBoms(b), Some(item)) == BomsOfItem(BomFacts(DbAt(h, b.cutoff)), Some(item))
  {
    hide Answered, SameItemRows, LoadedItems;
    var a := DbAt(h, b.cutoff);
    forall i, m | i in LoadedItems(b) && m in b.boms(i) ensures m.1.item == i {
      var t := WhenAnswered(h, b.cutoff, b.end, b.boms, BomsAt, i);
    }
    var t := WhenAnswered(h, b.cutoff, b.end, b.boms, BomsAt, item);
    QuietItemAt(h, item, b.cutoff, b.end, t);
    assert b.boms(item) == BomsAt(a, item);
    forall m | m in a.boms && a.boms[m].value.item == item ensures b.details(m) == DetailsOf(a, m) {
      var u := WhenAnswered(h, b.cutoff, b.end, b.details, DetailsOf, m);
      QuietDetailsAt(h, item, b.cutoff, b.end, u, m);
    }
    forall f | f in LoadedBoms(b) && f.head.item == item ensures f in BomFacts(a) {
      var i :| i in LoadedItems(b) && (f.id, f.head) in b.boms(i);
      assert f == BomFact(a, f.id);
    }
    forall m | m in a.boms && a.boms[m].value.item == item ensures BomFact(a, m) in LoadedBoms(b) {
      assert (m, a.boms[m].value) in b.boms(item);
      var i :| i in LoadedItems(b) && (m, b.bomHeads[m]) in b.boms(i);
      var u := WhenAnswered(h, b.cutoff, b.end, b.boms, BomsAt, i);
      QuietItemAt(h, item, b.cutoff, b.end, u);
      assert SameEntry(a.boms, DbAt(h, u).boms, m);
    }
  }

  lemma QuietDetailsAt(h: History, item: Id, from: Time, to: Time, t: Time, bom: Id)
    requires QuietItem(h, item, from, to) && from <= t <= to && bom in DbAt(h, from).boms && DbAt(h, from).boms[bom].value.item == item
    ensures DetailsOf(DbAt(h, from), bom) == DetailsOf(DbAt(h, t), bom)
  {
    SameDetails(DbAt(h, from), DbAt(h, t), bom);
  }

  /** The routings a quiet item's evaluation reads: its own and the standard ones of its plants. */
  ghost predicate Uses(db: Db, item: Id, routing: Id) {
    || (routing in db.routings && db.routings[routing].value.item == item)
    || exists p :: p in db.plants && db.plants[p].value.item == item && db.plants[p].value.standard == Some(routing)
  }

  lemma QuietRoutingAt(h: History, item: Id, from: Time, to: Time, t: Time, routing: Id)
    requires QuietItem(h, item, from, to) && from <= t <= to && Uses(DbAt(h, from), item, routing)
    ensures SameRoutingRows(DbAt(h, from), DbAt(h, t), routing)
    ensures RoutingAt(DbAt(h, from), routing) == RoutingAt(DbAt(h, t), routing)
    ensures StepsOf(DbAt(h, from), routing) == StepsOf(DbAt(h, t), routing)
  {
    var a, x := DbAt(h, from), DbAt(h, t);
    assert SameItemRows(a, x, item);
    assert SameRoutingRows(a, x, routing);
    SameSteps(a, x, routing);
  }

  /** Whatever statement read a routing in use, it read it as it is. */
  lemma QuietRoutingRead(h: History, b: Bundle, item: Id, f: Routing)
    requires LoadsAnswered(h, b) && b.cutoff <= b.end && QuietItem(h, item, b.cutoff, b.end)
    requires f in LoadedRoutings(b) && Uses(DbAt(h, b.cutoff), item, f.id)
    ensures f in RoutingFacts(DbAt(h, b.cutoff))
  {
    hide Answered, SameItemRows, LoadedItems, SameRoutingRows;
    var a := DbAt(h, b.cutoff);
    var u := WhenAnswered(h, b.cutoff, b.end, b.steps, StepsOf, f.id);
    QuietRoutingAt(h, item, b.cutoff, b.end, u, f.id);
    if i :| i in LoadedItems(b) && (f.id, f.head) in b.routings(i) {
      var t := WhenAnswered(h, b.cutoff, b.end, b.routings, RoutingsAt, i);
      QuietRoutingAt(h, item, b.cutoff, b.end, t, f.id);
    } else {
      var t := WhenAnswered(h, b.cutoff, b.end, b.routing, RoutingAt, f.id);
      QuietRoutingAt(h, item, b.cutoff, b.end, t, f.id);
    }
    assert f == RoutingFact(a, f.id);
  }

  /** A routing of the item that any statement read was the item's all along. */
  lemma ReadRoutingIsUsed(h: History, b: Bundle, item: Id, f: Routing)
    requires LoadsAnswered(h, b) && b.cutoff <= b.end && QuietItem(h, item, b.cutoff, b.end)
    requires f in LoadedRoutings(b) && f.head.item == item
    ensures Uses(DbAt(h, b.cutoff), item, f.id)
  {
    hide Answered, SameItemRows, LoadedItems, StepsOf;
    var t: Time;
    if i :| i in LoadedItems(b) && (f.id, f.head) in b.routings(i) {
      t := WhenAnswered(h, b.cutoff, b.end, b.routings, RoutingsAt, i);
    } else {
      t := WhenAnswered(h, b.cutoff, b.end, b.routing, RoutingAt, f.id);
    }
    QuietItemAt(h, item, b.cutoff, b.end, t);
    assert f.id in DbAt(h, t).routings && DbAt(h, t).routings[f.id].value.item == item;
  }

  lemma QuietRoutings(h: History, b: Bundle, item: Id)
    requires LoadsAnswered(h, b) && b.cutoff <= b.end && QuietItem(h, item, b.cutoff, b.end) && item in LoadedItems(b)
    ensures RoutingsOfItem(LoadedRoutings(b), Some(item)) == RoutingsOfItem(RoutingFacts(DbAt(h, b.cutoff)), Some(item))
  {
    hide Answered, SameItemRows, LoadedItems, StepsOf;
    var a := DbAt(h, b.cutoff);
    forall f | f in LoadedRoutings(b) && f.head.item == item ensures f in RoutingFacts(a) {
      ReadRoutingIsUsed(h, b, item, f);
      QuietRoutingRead(h, b, item, f);
    }
    var t := WhenAnswered(h, b.cutoff, b.end, b.routings, RoutingsAt, item);
    QuietItemAt(h, item, b.cutoff, b.end, t);
    forall r | r in a.routings && a.routings[r].value.item == item ensures RoutingFact(a, r) in LoadedRoutings(b) {
      assert SameEntry(a.routings, DbAt(h, t).routings, r);
      var u := WhenAnswered(h, b.cutoff, b.end, b.steps, StepsOf, r);
      QuietRoutingAt(h, item, b.cutoff, b.end, u, r);
      assert (r, a.routings[r].value) in b.routings(item);
      QuietRoutingRead(h, b, item, Facts(r, b.routingHeads[r], b.steps(r)));
    }
  }

  lemma QuietStandard(h: History, b: Bundle, item: Id, p: Plant)
    requires LoadsAnswered(h, b) && b.cutoff <= b.end && QuietItem(h, item, b.cutoff, b.end) && item in LoadedItems(b)
    requires p in PlantsOf(LoadedPlants(b), Some(item)) && p in PlantsOf(PlantFacts(DbAt(h, b.cutoff)), Some(item))
    ensures RoutingWithId(LoadedRoutings(b), p.standard) == RoutingWithId(RoutingFacts(DbAt(h, b.cutoff)), p.standard)
  {
    hide Answered, SameItemRows, LoadedItems, StepsOf;
    var a := DbAt(h, b.cutoff);
    if p.standard.Some? {
      var r := p.standard.value;
      assert Uses(a, item, r);
      forall f | f in LoadedRoutings(b) && f.id == r ensures f in RoutingFacts(a) {
        QuietRoutingRead(h, b, item, f);
      }
      if r in a.routings {
        var t := WhenAnswered(h, b.cutoff, b.end, b.routing, RoutingAt, r);
        QuietRoutingAt(h, item, b.cutoff, b.end, t, r);
        var u := WhenAnswered(h, b.cutoff, b.end, b.steps, StepsOf, r);
        QuietRoutingAt(h, item, b.cutoff, b.end, u, r);
        assert (r, a.routings[r].value) in FoundRoutings(b);
        QuietRoutingRead(h, b, item, Facts(r, b.routingHeads[r], b.steps(r)));
        assert RoutingFact(a, r) in LoadedRoutings(b);
      }
    }
  }

  /** Although no two statements need have seen the same source, a selected line at rest during the read is evaluated
      as on all the source held at the cutoff. */
  lemma BundleSuffices(h: History, b: Bundle, id: Id)
    requires LoadsAnswered(h, b) && b.cutoff <= b.end && QuietLine(h, id, b.cutoff, b.end)
    requires id in b.lines && IsSelected(b, id)
    ensures EvaluateLoaded(b, id) == Evaluate(DbAt(h, b.cutoff), id, b.cutoff)
  {
    hide LoadsAnswered, SameItemRows, JoinLine, IsSelected, LoadedPlants, LoadedBoms, LoadedRoutings, PlantFacts, BomFacts, RoutingFacts;
    var a := DbAt(h, b.cutoff);
    QuietInventory(h, b, id);
    var line := b.lines[id];
    LineItem(a, id);
    if line.item.Some? {
      var item := line.item.value;
      assert item in LoadedItems(b);
      QuietPlants(h, b, item);
      QuietBoms(h, b, item);
      QuietRoutings(h, b, item);
      forall p | p in PlantsOf(LoadedPlants(b), line.item)
        ensures RoutingWithId(LoadedRoutings(b), p.standard) == RoutingWithId(RoutingFacts(a), p.standard)
      {
        QuietStandard(h, b, item, p);
      }
    }
    ResultIsLocal(line, LoadedPlants(b), PlantFacts(a), LoadedBoms(b), BomFacts(a), LoadedRoutings(b), RoutingFacts(a), b.cutoff, b.cutoff);
  }

  lemma LineItem(db: Db, id: Id)
    requires Present(db, id)
    ensures JoinLine(db, id).item == db.lines[id].value.item && JoinLine(db, id).order == db.lines[id].value.order
  {
  }

  // ----- A line that is not selected -----

  /** A quiet row the scan does not yield has been there, as it is, since the last read. */
  lemma RowCameFrom<T(!new)>(table: Time -> map<Id, Row<T>>, since: Time, previous: Time, cutoff: Time, end: Time, changed: set<Id>, k: Id, t: Time)
    requires StampedTable(table) && Scanned(table, since, cutoff, end, changed)
    requires since <= previous - OVERLAP && previous <= t <= cutoff
    requires k in table(cutoff) && QuietRow(table, k, cutoff, end) && k !in changed
    ensures k in table(t) && table(t)[k] == table(cutoff)[k]
  {
  }

  /** The reading of a bundle after the kept state, from a line's point of view. */
  ghost predicate Reading(h: History, k: Kept, b: Bundle, t: Time) {
    WellStamped(h) && Follows(h, k, b) && !b.full && k.cutoff <= t <= b.cutoff
  }

  lemma SinceBound(k: Kept, table: Table)
    requires MarksBehind(k.marks, k.cutoff) && FORMAL_CANDIDATE_START <= k.cutoff - OVERLAP
    ensures Since(k.marks(table)) <= k.cutoff - OVERLAP
  {
  }

  ghost predicate Unaffected(b: Bundle, item: Id) {
    item !in AffectedItems(b.lookups, b.changes)
  }

  lemma UnaffectedItemParts(b: Bundle, item: Id)
    requires Unaffected(b, item)
    ensures item !in b.changes.items
    ensures forall p <- b.changes.plants :: item !in b.lookups.itemOfPlant(p)
    ensures forall m <- b.changes.boms :: item !in b.lookups.itemOfBom(m)
    ensures forall d <- b.changes.details :: item !in b.lookups.itemOfDetail(d)
    ensures forall r <- AffectedRoutings(b.lookups, b.changes) :: item !in b.lookups.itemOfRouting(r) && item !in b.lookups.itemsWithStandard(r)
  {
  }

  lemma PlantsCameFrom(h: History, k: Kept, b: Bundle, item: Id, t: Time)
    requires Reading(h, k, b, t) && QuietItem(h, item, b.cutoff, b.end) && Unaffected(b, item)
    ensures CameFrom(h.plants(t), h.plants(b.cutoff), PlantItem(), item)
  {
    hide SameItemRows, Answered, Unaffected, LoadsAnswered, AffectedItems;
    var table := h.plants;
    UnaffectedItemParts(b, item);
    SinceBound(k, ITEM_PLANT);
    forall p | p in table(b.cutoff) && table(b.cutoff)[p].value.item == item ensures p in table(t) && table(t)[p] == table(b.cutoff)[p] {
      forall u | b.cutoff <= u <= b.end ensures p in table(u) && table(u)[p] == table(b.cutoff)[p] {
        QuietItemAt(h, item, b.cutoff, b.end, u);
        assert SameEntry(table(b.cutoff), table(u), p);
      }
      var u := WhenAnswered(h, b.cutoff, b.end, b.lookups.itemOfPlant, ItemOfPlant, p);
      assert item in b.lookups.itemOfPlant(p);
      RowCameFrom(table, Since(k.marks(ITEM_PLANT)), k.cutoff, b.cutoff, b.end, b.changes.plants, p, t);
    }
  }

  lemma BomsCameFrom(h: History, k: Kept, b: Bundle, item: Id, t: Time)
    requires Reading(h, k, b, t) && QuietItem(h, item, b.cutoff, b.end) && Unaffected(b, item)
    ensures CameFrom(h.boms(t), h.boms(b.cutoff), BomItem(), item)
  {
    hide SameItemRows, Answered, Unaffected, LoadsAnswered, AffectedItems;
    var table := h.boms;
    UnaffectedItemParts(b, item);
    SinceBound(k, BOM);
    forall m | m in table(b.cutoff) && table(b.cutoff)[m].value.item == item ensures m in table(t) && table(t)[m] == table(b.cutoff)[m] {
      forall u | b.cutoff <= u <= b.end ensures m in table(u) && table(u)[m] == table(b.cutoff)[m] {
        QuietItemAt(h, item, b.cutoff, b.end, u);
        assert SameEntry(table(b.cutoff), table(u), m);
      }
      var u := WhenAnswered(h, b.cutoff, b.end, b.lookups.itemOfBom, ItemOfBom, m);
      assert item in b.lookups.itemOfBom(m);
      RowCameFrom(table, Since(k.marks(BOM)), k.cutoff, b.cutoff, b.end, b.changes.boms, m, t);
    }
  }

  /** A quiet item's BOM and its details at a moment of the read. */
  lemma QuietBomAt(h: History, item: Id, from: Time, to: Time, t: Time, bom: Id)
    requires QuietItem(h, item, from, to) && from <= t <= to && bom in h.boms(from) && h.boms(from)[bom].value.item == item
    ensures SameEntry(h.boms(from), h.boms(t), bom)
    ensures SameOwned(h.details(from), h.details(t), DetailBom(), bom)
  {
    assert SameItemRows(DbAt(h, from), DbAt(h, t), item);
  }

  lemma DetailsCameFrom(h: History, k: Kept, b: Bundle, item: Id, bom: Id, t: Time)
    requires Reading(h, k, b, t) && QuietItem(h, item, b.cutoff, b.end) && Unaffected(b, item)
    requires bom in h.boms(b.cutoff) && h.boms(b.cutoff)[bom].value.item == item
    ensures CameFrom(h.details(t), h.details(b.cutoff), DetailBom(), bom)
  {
    hide SameItemRows, QuietItem, Answered, Unaffected, LoadsAnswered, AffectedItems;
    var table := h.details;
    UnaffectedItemParts(b, item);
    SinceBound(k, BOM_D);
    forall d | d in table(b.cutoff) && table(b.cutoff)[d].value.bom == bom ensures d in table(t) && table(t)[d] == table(b.cutoff)[d] {
      forall u | b.cutoff <= u <= b.end ensures d in table(u) && table(u)[d] == table(b.cutoff)[d] {
        QuietBomAt(h, item, b.cutoff, b.end, u, bom);
        assert SameEntry(table(b.cutoff), table(u), d);
      }
      var u := WhenAnswered(h, b.cutoff, b.end, b.lookups.itemOfDetail, ItemOfDetail, d);
      QuietBomAt(h, item, b.cutoff, b.end, u, bom);
      assert item in b.lookups.itemOfDetail(d);
      RowCameFrom(table, Since(k.marks(BOM_D)), k.cutoff, b.cutoff, b.end, b.changes.details, d, t);
    }
  }

  /** A routing in use that is not affected: itself, its steps and their operations. */
  lemma RoutingCame(h: History, k: Kept, b: Bundle, item: Id, routing: Id, t: Time)
    requires Reading(h, k, b, t) && QuietItem(h, item, b.cutoff, b.end) && Uses(DbAt(h, b.cutoff), item, routing)
    requires routing !in AffectedRoutings(b.lookups, b.changes)
    ensures RoutingCameFrom(DbAt(h, t), DbAt(h, b.cutoff), routing)
  {
    hide SameItemRows, QuietItem, Answered, LoadsAnswered, StepsOf;
    SinceBound(k, ITEM_ROUTING);
    SinceBound(k, ITEM_ROUTING_D);
    var heads, steps := h.routings, h.steps;
    if routing in heads(b.cutoff) {
      forall u | b.cutoff <= u <= b.end ensures routing in heads(u) && heads(u)[routing] == heads(b.cutoff)[routing] {
        QuietRoutingAt(h, item, b.cutoff, b.end, u, routing);
      }
      RowCameFrom(heads, Since(k.marks(ITEM_ROUTING)), k.cutoff, b.cutoff, b.end, b.changes.routings, routing, t);
    }
    forall s | s in steps(b.cutoff) && steps(b.cutoff)[s].value.routing == routing
      ensures s in steps(t) && steps(t)[s] == steps(b.cutoff)[s]
      ensures ReferenceCameFrom(h.operations(t), h.operations(b.cutoff), steps(b.cutoff)[s].value.detail.operation)
    {
      forall u | b.cutoff <= u <= b.end ensures s in steps(u) && steps(u)[s] == steps(b.cutoff)[s] {
        QuietRoutingAt(h, item, b.cutoff, b.end, u, routing);
        assert SameEntry(steps(b.cutoff), steps(u), s);
      }
      var u := WhenAnswered(h, b.cutoff, b.end, b.lookups.routingOfStep, RoutingOfStep, s);
      assert routing in b.lookups.routingOfStep(s);
      RowCameFrom(steps, Since(k.marks(ITEM_ROUTING_D)), k.cutoff, b.cutoff, b.end, b.changes.steps, s, t);
      OperationCame(h, k, b, item, routing, s, t);
    }
  }

  lemma OperationCame(h: History, k: Kept, b: Bundle, item: Id, routing: Id, step: Id, t: Time)
    requires Reading(h, k, b, t) && QuietItem(h, item, b.cutoff, b.end) && Uses(DbAt(h, b.cutoff), item, routing)
    requires routing !in AffectedRoutings(b.lookups, b.changes)
    requires step in h.steps(b.cutoff) && h.steps(b.cutoff)[step].value.routing == routing
    ensures ReferenceCameFrom(h.operations(t), h.operations(b.cutoff), h.steps(b.cutoff)[step].value.detail.operation)
  {
    hide SameItemRows, QuietItem, Answered, LoadsAnswered, StepsOf;
    SinceBound(k, OPERATION);
    var operation := h.steps(b.cutoff)[step].value.detail.operation;
    if operation.Some? && operation.value in h.operations(b.cutoff) {
      var o := operation.value;
      forall u | b.cutoff <= u <= b.end ensures o in h.operations(u) && h.operations(u)[o] == h.operations(b.cutoff)[o] {
        QuietRoutingAt(h, item, b.cutoff, b.end, u, routing);
      }
      var u := WhenAnswered(h, b.cutoff, b.end, b.lookups.routingsUsing, RoutingsUsing, o);
      QuietRoutingAt(h, item, b.cutoff, b.end, u, routing);
      assert SameEntry(h.steps(b.cutoff), h.steps(u), step);
      assert routing in b.lookups.routingsUsing(o);
      RowCameFrom(h.operations, Since(k.marks(OPERATION)), k.cutoff, b.cutoff, b.end, b.changes.operations, o, t);
    }
  }

  lemma UsedRoutingIsNotAffected(h: History, k: Kept, b: Bundle, item: Id, routing: Id)
    requires Reading(h, k, b, b.cutoff) && QuietItem(h, item, b.cutoff, b.end) && Unaffected(b, item)
    requires Uses(DbAt(h, b.cutoff), item, routing)
    ensures routing !in AffectedRoutings(b.lookups, b.changes)
  {
    hide SameItemRows, Answered, Unaffected, LoadsAnswered, AffectedItems, AffectedRoutings;
    var a := DbAt(h, b.cutoff);
    UnaffectedItemParts(b, item);
    if routing in a.routings && a.routings[routing].value.item == item {
      var u := WhenAnswered(h, b.cutoff, b.end, b.lookups.itemOfRouting, ItemOfRouting, routing);
      QuietItemAt(h, item, b.cutoff, b.end, u);
      assert SameEntry(a.routings, DbAt(h, u).routings, routing);
      assert item in b.lookups.itemOfRouting(routing);
    } else {
      var p :| p in a.plants && a.plants[p].value.item == item && a.plants[p].value.standard == Some(routing);
      var u := WhenAnswered(h, b.cutoff, b.end, b.lookups.itemsWithStandard, ItemsWithStandard, routing);
      QuietItemAt(h, item, b.cutoff, b.end, u);
      assert SameEntry(a.plants, DbAt(h, u).plants, p);
      assert item in b.lookups.itemsWithStandard(routing);
    }
  }

  lemma RoutingsCameFrom(h: History, k: Kept, b: Bundle, item: Id, t: Time)
    requires Reading(h, k, b, t) && QuietItem(h, item, b.cutoff, b.end) && Unaffected(b, item)
    ensures forall r | Uses(DbAt(h, b.cutoff), item, r) :: RoutingCameFrom(DbAt(h, t), DbAt(h, b.cutoff), r)
  {
    forall r | Uses(DbAt(h, b.cutoff), item, r) ensures RoutingCameFrom(DbAt(h, t), DbAt(h, b.cutoff), r) {
      UsedRoutingIsNotAffected(h, k, b, item, r);
      RoutingCame(h, k, b, item, r, t);
    }
  }

  lemma ItemCame(h: History, k: Kept, b: Bundle, item: Id, t: Time)
    requires Reading(h, k, b, t) && QuietItem(h, item, b.cutoff, b.end) && Unaffected(b, item)
    ensures ItemCameFrom(DbAt(h, t), DbAt(h, b.cutoff), item)
  {
    hide SameItemRows, Answered, LoadsAnswered, AffectedItems, CameFrom, RoutingCameFrom;
    SinceBound(k, ITEM);
    PlantsCameFrom(h, k, b, item, t);
    BomsCameFrom(h, k, b, item, t);
    RoutingsCameFrom(h, k, b, item, t);
    var a := DbAt(h, b.cutoff);
    forall m | m in a.boms && a.boms[m].value.item == item ensures CameFrom(DbAt(h, t).details, a.details, DetailBom(), m) {
      DetailsCameFrom(h, k, b, item, m, t);
    }
    OwnRoutingsCameFrom(h, item, b.cutoff, t);
    ItemRowCame(h, k, b, item, t);
  }

  lemma OwnRoutingsCameFrom(h: History, item: Id, cutoff: Time, t: Time)
    requires forall r | Uses(DbAt(h, cutoff), item, r) :: RoutingCameFrom(DbAt(h, t), DbAt(h, cutoff), r)
    ensures CameFrom(h.routings(t), h.routings(cutoff), RoutingItem(), item)
    ensures forall r <- h.routings(cutoff) :: h.routings(cutoff)[r].value.item == item ==> RoutingCameFrom(DbAt(h, t), DbAt(h, cutoff), r)
    ensures forall p <- h.plants(cutoff) :: h.plants(cutoff)[p].value.item == item && h.plants(cutoff)[p].value.standard.Some?
              ==> RoutingCameFrom(DbAt(h, t), DbAt(h, cutoff), h.plants(cutoff)[p].value.standard.value)
  {
    forall r | r in h.routings(cutoff) && h.routings(cutoff)[r].value.item == item
      ensures Uses(DbAt(h, cutoff), item, r) && r in h.routings(t) && h.routings(t)[r] == h.routings(cutoff)[r]
    {
      assert RoutingCameFrom(DbAt(h, t), DbAt(h, cutoff), r);
    }
    forall p | p in h.plants(cutoff) && h.plants(cutoff)[p].value.item == item && h.plants(cutoff)[p].value.standard.Some?
      ensures Uses(DbAt(h, cutoff), item, h.plants(cutoff)[p].value.standard.value)
    {
    }
  }

  lemma ItemRowCame(h: History, k: Kept, b: Bundle, item: Id, t: Time)
    requires Reading(h, k, b, t) && QuietItem(h, item, b.cutoff, b.end) && Unaffected(b, item)
    ensures EntryCameFrom(h.items(t), h.items(b.cutoff), item)
  {
    hide Answered, LoadsAnswered;
    SinceBound(k, ITEM);
    if item in h.items(b.cutoff) {
      forall u | b.cutoff <= u <= b.end ensures item in h.items(u) && h.items(u)[item] == h.items(b.cutoff)[item] {
        assert SameItemRows(DbAt(h, b.cutoff), DbAt(h, u), item);
      }
      RowCameFrom(h.items, Since(k.marks(ITEM)), k.cutoff, b.cutoff, b.end, b.changes.items, item, t);
    }
  }

  /** The rows a quiet line refers to, at a moment of the read. */
  lemma QuietLineAt(h: History, id: Id, from: Time, to: Time, t: Time)
    requires QuietLine(h, id, from, to) && from <= t <= to
    ensures id in h.lines(from) && h.lines(from)[id].value.order in h.orders(from)
    ensures SameEntry(h.lines(from), h.lines(t), id) && SameEntry(h.orders(from), h.orders(t), h.lines(from)[id].value.order)
    ensures SameReference(h.customers(from), h.customers(t), h.orders(from)[h.lines(from)[id].value.order].value.customer)
    ensures SameReference(h.departments(from), h.departments(t), h.orders(from)[h.lines(from)[id].value.order].value.dept)
    ensures h.lines(from)[id].value.item.Some? ==> SameItemRows(DbAt(h, from), DbAt(h, t), h.lines(from)[id].value.item.value)
  {
    assert SameLineRows(DbAt(h, from), DbAt(h, t), id);
  }

  lemma UnaffectedOrderParts(b: Bundle, order: Id)
    requires order !in AffectedOrders(b.lookups, b.changes)
    ensures order !in b.changes.orders
    ensures forall l <- b.changes.lines :: order !in b.lookups.orderOfLine(l)
    ensures forall c <- b.changes.customers :: order !in b.lookups.ordersOfCustomer(c)
    ensures forall d <- b.changes.departments :: order !in b.lookups.ordersOfDepartment(d)
  {
  }

  lemma OrderRowsCame(h: History, k: Kept, b: Bundle, id: Id, t: Time)
    requires Reading(h, k, b, t) && QuietLine(h, id, b.cutoff, b.end)
    requires h.lines(b.cutoff)[id].value.order !in AffectedOrders(b.lookups, b.changes)
    ensures EntryCameFrom(h.lines(t), h.lines(b.cutoff), id)
    ensures EntryCameFrom(h.orders(t), h.orders(b.cutoff), h.lines(b.cutoff)[id].value.order)
  {
    hide QuietLine, SameItemRows, Answered, LoadsAnswered, AffectedOrders;
    SinceBound(k, SALES_ORDER_DOC);
    SinceBound(k, SALES_ORDER_DOC_D);
    QuietLineAt(h, id, b.cutoff, b.end, b.cutoff);
    var order := h.lines(b.cutoff)[id].value.order;
    UnaffectedOrderParts(b, order);
    forall u | b.cutoff <= u <= b.end
      ensures id in h.lines(u) && h.lines(u)[id] == h.lines(b.cutoff)[id] && order in h.orders(u) && h.orders(u)[order] == h.orders(b.cutoff)[order]
    {
      QuietLineAt(h, id, b.cutoff, b.end, u);
    }
    var u := WhenAnswered(h, b.cutoff, b.end, b.lookups.orderOfLine, OrderOfLine, id);
    assert order in b.lookups.orderOfLine(id);
    RowCameFrom(h.lines, Since(k.marks(SALES_ORDER_DOC_D)), k.cutoff, b.cutoff, b.end, b.changes.lines, id, t);
    RowCameFrom(h.orders, Since(k.marks(SALES_ORDER_DOC)), k.cutoff, b.cutoff, b.end, b.changes.orders, order, t);
  }

  lemma CustomerCame(h: History, k: Kept, b: Bundle, id: Id, t: Time)
    requires Reading(h, k, b, t) && QuietLine(h, id, b.cutoff, b.end)
    requires h.lines(b.cutoff)[id].value.order !in AffectedOrders(b.lookups, b.changes)
    ensures ReferenceCameFrom(h.customers(t), h.customers(b.cutoff), h.orders(b.cutoff)[h.lines(b.cutoff)[id].value.order].value.customer)
  {
    hide QuietLine, SameItemRows, Answered, LoadsAnswered, AffectedOrders;
    SinceBound(k, CUSTOMER);
    QuietLineAt(h, id, b.cutoff, b.end, b.cutoff);
    var order := h.lines(b.cutoff)[id].value.order;
    UnaffectedOrderParts(b, order);
    var customer := h.orders(b.cutoff)[order].value.customer;
    if customer.Some? && customer.value in h.customers(b.cutoff) {
      var c := customer.value;
      forall u | b.cutoff <= u <= b.end ensures c in h.customers(u) && h.customers(u)[c] == h.customers(b.cutoff)[c] {
        QuietLineAt(h, id, b.cutoff, b.end, u);
      }
      var u := WhenAnswered(h, b.cutoff, b.end, b.lookups.ordersOfCustomer, OrdersOfCustomer, c);
      QuietLineAt(h, id, b.cutoff, b.end, u);
      assert order in b.lookups.ordersOfCustomer(c);
      RowCameFrom(h.customers, Since(k.marks(CUSTOMER)), k.cutoff, b.cutoff, b.end, b.changes.customers, c, t);
    }
  }

  lemma DepartmentCame(h: History, k: Kept, b: Bundle, id: Id, t: Time)
    requires Reading(h, k, b, t) && QuietLine(h, id, b.cutoff, b.end)
    requires h.lines(b.cutoff)[id].value.order !in AffectedOrders(b.lookups, b.changes)
    ensures ReferenceCameFrom(h.departments(t), h.departments(b.cutoff), h.orders(b.cutoff)[h.lines(b.cutoff)[id].value.order].value.dept)
  {
    hide QuietLine, SameItemRows, Answered, LoadsAnswered, AffectedOrders;
    SinceBound(k, ADMIN_UNIT);
    QuietLineAt(h, id, b.cutoff, b.end, b.cutoff);
    var order := h.lines(b.cutoff)[id].value.order;
    UnaffectedOrderParts(b, order);
    var dept := h.orders(b.cutoff)[order].value.dept;
    if dept.Some? && dept.value in h.departments(b.cutoff) {
      var d := dept.value;
      forall u | b.cutoff <= u <= b.end ensures d in h.departments(u) && h.departments(u)[d] == h.departments(b.cutoff)[d] {
        QuietLineAt(h, id, b.cutoff, b.end, u);
      }
      var u := WhenAnswered(h, b.cutoff, b.end, b.lookups.ordersOfDepartment, OrdersOfDepartment, d);
      QuietLineAt(h, id, b.cutoff, b.end, u);
      assert order in b.lookups.ordersOfDepartment(d);
      RowCameFrom(h.departments, Since(k.marks(ADMIN_UNIT)), k.cutoff, b.cutoff, b.end, b.changes.departments, d, t);
    }
  }

  lemma QuietLineItem(h: History, id: Id, from: Time, to: Time)
    requires QuietLine(h, id, from, to) && h.lines(from)[id].value.item.Some?
    ensures QuietItem(h, h.lines(from)[id].value.item.value, from, to)
  {
  }

  /** An unselected line at rest: everything it has at the cutoff it has had since the last cutoff. */
  lemma UnselectedRowsWereThere(h: History, k: Kept, b: Bundle, id: Id, t: Time)
    requires Reading(h, k, b, t) && QuietLine(h, id, b.cutoff, b.end)
    requires id in b.lines && !IsSelected(b, id)
    ensures LineCameFrom(DbAt(h, t), DbAt(h, b.cutoff), id)
  {
    hide SameItemRows, Answered, AffectedOrders, AffectedItems, ItemCameFrom, JoinLine, AllScanned, LookupsAnswered, WellStamped;
    QuietInventory(h, b, id);
    LineItem(DbAt(h, b.cutoff), id);
    OrderRowsCame(h, k, b, id, t);
    CustomerCame(h, k, b, id, t);
    DepartmentCame(h, k, b, id, t);
    if h.lines(b.cutoff)[id].value.item.Some? {
      QuietLineItem(h, id, b.cutoff, b.end);
      ItemCame(h, k, b, h.lines(b.cutoff)[id].value.item.value, t);
    }
  }

  // ----- Time alone, at another moment -----

  lemma TimedMoment(h: History, k: Kept, b: Bundle) returns (t: Time)
    requires Reading(h, k, b, b.cutoff)
    ensures k.cutoff <= b.cutoff <= t <= b.end && b.timed == TimedItems(DbAt(h, t), k.cutoff - OVERLAP, b.cutoff)
  {
    hide TimedItems;
    t :| b.cutoff <= t <= b.end && b.timed == TimedItems(DbAt(h, t), k.cutoff - OVERLAP, b.cutoff);
  }

  lemma ActivityUnmoved(h: History, k: Kept, b: Bundle, item: Id)
    requires Reading(h, k, b, b.cutoff) && QuietItem(h, item, b.cutoff, b.end) && item !in b.timed
    ensures SameActivity(BomFacts(DbAt(h, b.cutoff)), Some(item), b.cutoff, k.cutoff)
  {
    hide Reading, QuietItem, TimedItems, IsActive, HasBoundary, BomFacts, BomsOfItem;
    var t := TimedMoment(h, k, b);
    forall f, d | f in BomsOfItem(BomFacts(DbAt(h, b.cutoff)), Some(item)) && d in f.details ensures IsActive(d, b.cutoff) == IsActive(d, k.cutoff) {
      DetailIsNotTimed(h, item, b.cutoff, b.end, t, k.cutoff - OVERLAP, f, d);
      TimeAloneIsCovered(d, k.cutoff, b.cutoff);
    }
  }

  lemma DetailIsNotTimed(h: History, item: Id, from: Time, to: Time, t: Time, since: Time, f: Bom, d: BomDetail)
    requires QuietItem(h, item, from, to) && from <= t <= to && item !in TimedItems(DbAt(h, t), since, from)
    requires f in BomsOfItem(BomFacts(DbAt(h, from)), Some(item)) && d in f.details
    ensures !HasBoundary(d, since, from)
  {
    hide SameItemRows, QuietItem, HasBoundary;
    var a := DbAt(h, from);
    var x :| x in a.details && a.details[x].value.bom == f.id && a.details[x].value.detail == d;
    QuietBomAt(h, item, from, to, t, f.id);
    assert SameEntry(a.details, DbAt(h, t).details, x);
  }

  // ----- Incremental equals full -----

  /** Before the read: the rows of an unselected line at rest are the same at every moment since the last cutoff,
      if none has left it. */
  lemma UnselectedRowsAreSame(h: History, k: Kept, b: Bundle, id: Id, t: Time)
    requires Reading(h, k, b, t) && QuietLine(h, id, b.cutoff, b.end)
    requires id in b.lines && !IsSelected(b, id) && NothingLeaves(h, id, k.cutoff, b.cutoff)
    ensures SameLineRows(DbAt(h, b.cutoff), DbAt(h, t), id)
  {
    hide LineCameFrom, LineStays, SameLineRows, IsSelected, Follows;
    UnselectedRowsWereThere(h, k, b, id, t);
    LineUnchangedExactly(DbAt(h, t), DbAt(h, b.cutoff), id);
  }

  /** The result an unselected line has is the result the source at the cutoff gives it. */
  lemma UnselectedKeepsResult(h: History, k: Kept, b: Bundle, id: Id)
    requires Reading(h, k, b, b.cutoff) && QuietLine(h, id, b.cutoff, b.end)
    requires id in b.lines && !IsSelected(b, id) && NothingLeaves(h, id, k.cutoff, b.cutoff)
    ensures QuietLine(h, id, k.cutoff, k.end)
    ensures IsCandidate(DbAt(h, k.cutoff), id) && IsCandidate(DbAt(h, b.cutoff), id)
    ensures Evaluate(DbAt(h, k.cutoff), id, k.cutoff) == Evaluate(DbAt(h, b.cutoff), id, b.cutoff)
  {
    hide SameLineRows, NothingLeaves, Evaluate, IsCandidate, AllScanned, LookupsAnswered, WellStamped, LoadsAnswered, SameActivity, TimedItems;
    var a, before := DbAt(h, b.cutoff), DbAt(h, k.cutoff);
    UnselectedRowsAreSame(h, k, b, id, k.cutoff);
    QuietInventory(h, b, id);
    LineItem(a, id);
    SameLine(a, before, id);
    forall t | k.cutoff <= t <= k.end ensures SameLineRows(before, DbAt(h, t), id) {
      UnselectedRowsAreSame(h, k, b, id, t);
      SameLineRowsMeet(a, before, DbAt(h, t), id);
    }
    UnselectedActivity(h, k, b, id);
    SameRowsSameResult(a, before, id, b.cutoff, k.cutoff);
  }

  lemma UnselectedActivity(h: History, k: Kept, b: Bundle, id: Id)
    requires Reading(h, k, b, b.cutoff) && QuietLine(h, id, b.cutoff, b.end) && id in b.lines && !IsSelected(b, id)
    ensures SameActivity(BomFacts(DbAt(h, b.cutoff)), h.lines(b.cutoff)[id].value.item, b.cutoff, k.cutoff)
  {
    hide SameItemRows, SameLineRows, IsActive, AffectedItems, AffectedOrders, JoinLine, AllScanned, LookupsAnswered, WellStamped, LoadsAnswered;
    QuietInventory(h, b, id);
    LineItem(DbAt(h, b.cutoff), id);
    if h.lines(b.cutoff)[id].value.item.Some? {
      QuietLineItem(h, id, b.cutoff, b.end);
      ActivityUnmoved(h, k, b, h.lines(b.cutoff)[id].value.item.value);
    }
  }

  /** One read, full or incremental: a line at rest during it ends up with the result of the source at its cutoff. */
  lemma RefreshEqualsFull(h: History, k: Kept, b: Bundle, id: Id)
    requires WellStamped(h) && Follows(h, k, b)
    requires !b.full ==> IsRight(h, k, id) && NothingLeaves(h, id, k.cutoff, b.cutoff)
    ensures IsRight(h, AfterBundle(k, b), id)
  {
    hide WellStamped, LoadsAnswered, AllScanned, LookupsAnswered, IsCandidate, Evaluate, EvaluateLoaded, Selected, SameLineRows, NothingLeaves;
    if QuietLine(h, id, b.cutoff, b.end) {
      QuietInventory(h, b, id);
      if id in b.lines {
        if IsSelected(b, id) {
          BundleSuffices(h, b, id);
        } else {
          UnselectedKeepsResult(h, k, b, id);
        }
      }
    }
  }

  // ----- Any number of reads -----

  ghost predicate FollowAll(h: History, k: Kept, bundles: seq<Bundle>)
    decreases |bundles|
  {
    bundles == [] || (Follows(h, k, bundles[0]) && FollowAll(h, AfterBundle(k, bundles[0]), bundles[1..]))
  }

  ghost function AfterBundles(k: Kept, bundles: seq<Bundle>): Kept
    decreases |bundles|
  {
    if bundles == [] then k else AfterBundles(AfterBundle(k, bundles[0]), bundles[1..])
  }

  /** The line loses no row between one read and the next. */
  ghost predicate NothingLeavesBetween(h: History, id: Id, bundles: seq<Bundle>) {
    forall i :: 1 <= i < |bundles| ==> NothingLeaves(h, id, bundles[i - 1].cutoff, bundles[i].cutoff)
  }

  /** After a full read, and any number of reads of a source that changes all the time: a line at rest during the last
      read has the result of the source at that cutoff, whatever happened to it during earlier reads. */
  lemma {:induction false} RefreshesEqualFull(h: History, k: Kept, bundles: seq<Bundle>, id: Id)
    requires WellStamped(h) && FollowAll(h, k, bundles) && bundles != [] && NothingLeavesBetween(h, id, bundles)
    requires bundles[0].full || (IsRight(h, k, id) && NothingLeaves(h, id, k.cutoff, bundles[0].cutoff))
    ensures IsRight(h, AfterBundles(k, bundles), id)
    decreases |bundles|
  {
    hide WellStamped, Follows, IsRight, NothingLeaves;
    RefreshEqualsFull(h, k, bundles[0], id);
    var next, rest := AfterBundle(k, bundles[0]), bundles[1..];
    if rest == [] {
      assert AfterBundles(k, bundles) == next;
    } else {
      assert NothingLeavesBetween(h, id, rest) by {
        assert forall i :: 1 <= i < |rest| ==> rest[i - 1] == bundles[i] && rest[i] == bundles[i + 1];
      }
      assert NothingLeaves(h, id, bundles[0].cutoff, bundles[1].cutoff);
      RefreshesEqualFull(h, next, rest, id);
    }
  }

  /** A full recomputation. */
  ghost function FullResults(db: Db, asOf: Time): map<Id, LineResult> {
    map id | id in db.lines && IsCandidate(db, id) :: Evaluate(db, id, asOf)
  }

  /** If the source rests during the last read, what is kept is the full recomputation, no line more or less. */
  lemma RestingSourceEqualsFull(h: History, k: Kept, b: Bundle)
    requires WellStamped(h) && Follows(h, k, b)
    requires forall t :: b.cutoff <= t <= b.end ==> DbAt(h, t) == DbAt(h, b.cutoff)
    requires !b.full ==> forall id :: IsRight(h, k, id) && NothingLeaves(h, id, k.cutoff, b.cutoff)
    ensures AfterBundle(k, b).stored == FullResults(DbAt(h, b.cutoff), b.cutoff)
  {
    hide WellStamped, AllScanned, LookupsAnswered, Evaluate, EvaluateLoaded, Selected, SameLineRows, NothingLeaves, IsSelected;
    var a := DbAt(h, b.cutoff);
    var stored, full := AfterBundle(k, b).stored, FullResults(a, b.cutoff);
    var t :| b.cutoff <= t <= b.end && b.lines == CandidateLines(DbAt(h, t));
    forall id | IsCandidate(a, id) ensures id in stored && stored[id] == full[id] {
      SameAsItself(a, id);
      RefreshEqualsFull(h, k, b, id);
    }
    assert stored.Keys == full.Keys;
  }

  lemma SameAsItself(db: Db, id: Id)
    requires Present(db, id)
    ensures SameLineRows(db, db, id)
  {
  }

  // ----- A row that appears while the source is read -----

  /** Until the cutoff the item has no plant row, afterwards it has one. */
  ghost function LateDb(t: Time): Db {
    if t <= 0 then OneLine(Guid(2), 1).(plants := map[]) else OneLine(Guid(2), 1)
  }

  ghost function LateHistory(): History {
    History(t => LateDb(t).orders, t => LateDb(t).lines, t => LateDb(t).items, t => LateDb(t).plants, t => LateDb(t).boms,
            t => LateDb(t).details, t => LateDb(t).routings, t => LateDb(t).steps, t => LateDb(t).operations,
            t => LateDb(t).customers, t => LateDb(t).departments)
  }

  ghost function LateBundle(): Bundle {
    var db := LateDb(10);
    Bundle(0, 10, true, t => None, ONE_PLANT, LookupsAt(db), {}, {}, CandidateLines(db), x => PlantsAt(db, x), x => BomsAt(db, x),
           x => DetailsOf(db, x), x => RoutingsAt(db, x), x => RoutingAt(db, x), x => StepsOf(db, x), map[], map[])
  }

  lemma NothingFound(db: Db, b: Bundle)
    requires db.boms == map[] && db.routings == map[]
    requires forall x :: b.boms(x) == BomsAt(db, x) && b.routings(x) == RoutingsAt(db, x) && b.routing(x) == RoutingAt(db, x)
    ensures FoundBoms(b) == {} && FoundRoutings(b) == {}
  {
    hide LoadedItems, LoadedPlants;
  }

  lemma LateBundleFollows(k: Kept)
    ensures WellStamped(LateHistory()) && Follows(LateHistory(), k, LateBundle())
    ensures DbAt(LateHistory(), 0) == LateDb(0)
  {
    var h, b := LateHistory(), LateBundle();
    NothingFound(LateDb(10), b);
    hide PlantsAt, BomsAt, DetailsOf, RoutingsAt, RoutingAt, StepsOf, CandidateLines, LateDb, FoundBoms, FoundRoutings;
    assert DbAt(h, 10) == LateDb(10);
    forall x
      ensures AnsweredAt(h, 0, 10, b.plants, PlantsAt, x) && AnsweredAt(h, 0, 10, b.boms, BomsAt, x)
      ensures AnsweredAt(h, 0, 10, b.details, DetailsOf, x) && AnsweredAt(h, 0, 10, b.routings, RoutingsAt, x)
      ensures AnsweredAt(h, 0, 10, b.routing, RoutingAt, x) && AnsweredAt(h, 0, 10, b.steps, StepsOf, x)
    {
      assert b.plants(x) == PlantsAt(DbAt(h, 10), x) && b.boms(x) == BomsAt(DbAt(h, 10), x);
      assert b.details(x) == DetailsOf(DbAt(h, 10), x) && b.routings(x) == RoutingsAt(DbAt(h, 10), x);
      assert b.routing(x) == RoutingAt(DbAt(h, 10), x) && b.steps(x) == StepsOf(DbAt(h, 10), x);
    }
    LateIsStamped();
  }

  lemma FixedTable<T(!new)>(table: Time -> map<Id, Row<T>>)
    requires forall t :: table(t) == table(0)
    ensures StampedTable(table)
  {
  }

  lemma LateIsStamped()
    ensures WellStamped(LateHistory())
  {
    hide StampedTable, LateDb;
    var h := LateHistory();
    forall t ensures LateDb(t).(plants := map[]) == LateDb(0).(plants := map[]) {
      LateDbs(t);
    }
    LatePlants();
    FixedTable(h.orders);
    FixedTable(h.lines);
    FixedTable(h.items);
    FixedTable(h.boms);
    FixedTable(h.details);
    FixedTable(h.routings);
    FixedTable(h.steps);
    FixedTable(h.operations);
    FixedTable(h.customers);
    FixedTable(h.departments);
  }

  lemma LateDbs(t: Time)
    ensures LateDb(t).(plants := map[]) == LateDb(0).(plants := map[])
  {
  }

  lemma LatePlants()
    ensures StampedTable(LateHistory().plants)
  {
    var table := LateHistory().plants;
    forall t0, t1, k | t0 <= t1 && k in table(t1)
      ensures (k in table(t0) && table(t0)[k] == table(t1)[k]) || t0 - OVERLAP <= table(t1)[k].stamp
    {
      assert table(t1) == LateDb(t1).plants && table(t0) == LateDb(t0).plants;
    }
  }

  lemma LateResult()
    ensures IsCandidate(LateDb(0), Guid(1)) && Evaluate(LateDb(0), Guid(1), 0).plant == None
  {
    OneLineResult(Guid(2), 1);
    assert PlantFacts(LateDb(0)) == {};
  }

  lemma LateLoaded()
    ensures Guid(1) in LateBundle().lines && EvaluateLoaded(LateBundle(), Guid(1)).plant.Some?
  {
    hide Selected, LookupsAt, Evaluate, LoadedBoms, LoadedRoutings, BomsAt, RoutingsAt, RoutingAt, StepsOf, DetailsOf;
    var b, late := LateBundle(), LateDb(10);
    OneLineResult(Guid(2), 1);
    var plant := late.plants[Guid(5)].value;
    assert b.lines[Guid(1)] == JoinLine(late, Guid(1));
    assert Guid(2) in LoadedItems(b);
    assert plant in b.plants(Guid(2));
    assert PlantsOf(LoadedPlants(b), Some(Guid(2))) == {plant};
  }

  /** Why a line has to be at rest: a plant row that becomes visible after the cutoff and before its table is read
      gives even a full read a result the source at the cutoff does not give. */
  lemma LateRowIsMixedIn(k: Kept) returns (h: History, b: Bundle, id: Id)
    ensures WellStamped(h) && Follows(h, k, b) && b.full
    ensures IsCandidate(DbAt(h, b.cutoff), id) && id in AfterBundle(k, b).stored
    ensures AfterBundle(k, b).stored[id] != Evaluate(DbAt(h, b.cutoff), id, b.cutoff)
  {
    hide Follows, WellStamped, EvaluateLoaded, Evaluate, LateDb, IsCandidate, Selected, LookupsAt, CandidateLines;
    h, b, id := LateHistory(), LateBundle(), Guid(1);
    LateBundleFollows(k);
    LateResult();
    LateLoaded();
  }

  // ----- An incremental read that selects nothing -----

  ghost function RestingHistory(db: Db): History {
    History(t => db.orders, t => db.lines, t => db.items, t => db.plants, t => db.boms, t => db.details, t => db.routings,
            t => db.steps, t => db.operations, t => db.customers, t => db.departments)
  }

  const NO_CHANGES: Changes := Changes({}, {}, {}, {}, {}, {}, {}, {}, {}, {}, {})

  ghost function RestingBundle(db: Db, cutoff: Time): Bundle {
    Bundle(cutoff, cutoff, false, NoMarks(), NO_CHANGES, LookupsAt(db), TimedItems(db, cutoff - 2 * OVERLAP, cutoff), {}, CandidateLines(db),
           x => PlantsAt(db, x), x => BomsAt(db, x), x => DetailsOf(db, x), x => RoutingsAt(db, x), x => RoutingAt(db, x), x => StepsOf(db, x), map[], map[])
  }

  lemma RestingIsStamped(db: Db)
    ensures WellStamped(RestingHistory(db)) && forall t :: DbAt(RestingHistory(db), t) == db
  {
    hide StampedTable;
    var h := RestingHistory(db);
    FixedTable(h.orders);
    FixedTable(h.lines);
    FixedTable(h.items);
    FixedTable(h.plants);
    FixedTable(h.boms);
    FixedTable(h.details);
    FixedTable(h.routings);
    FixedTable(h.steps);
    FixedTable(h.operations);
    FixedTable(h.customers);
    FixedTable(h.departments);
  }

  lemma RestingAnswers<R(!new)>(db: Db, from: Time, to: Time, answer: Id -> R, statement: (Db, Id) -> R)
    requires from <= to && forall x :: answer(x) == statement(db, x)
    ensures Answered(RestingHistory(db), from, to, answer, statement)
  {
    RestingIsStamped(db);
    forall x ensures AnsweredAt(RestingHistory(db), from, to, answer, statement, x) {
      assert answer(x) == statement(DbAt(RestingHistory(db), from), x);
    }
  }

  lemma RestingLoads(db: Db, t: Time)
    requires db.boms == map[] && db.routings == map[]
    ensures LoadsAnswered(RestingHistory(db), RestingBundle(db, t))
  {
    var b := RestingBundle(db, t);
    hide Answered, CandidateLines, PlantsAt, BomsAt, DetailsOf, RoutingsAt, RoutingAt, StepsOf, TimedItems, LookupsAt, RestingHistory, WellStamped;
    hide FoundBoms, FoundRoutings;
    NothingFound(db, b);
    RestingIsStamped(db);
    assert b.lines == CandidateLines(DbAt(RestingHistory(db), t));
    RestingAnswers(db, t, t, b.plants, PlantsAt);
    RestingAnswers(db, t, t, b.boms, BomsAt);
    RestingAnswers(db, t, t, b.details, DetailsOf);
    RestingAnswers(db, t, t, b.routings, RoutingsAt);
    RestingAnswers(db, t, t, b.routing, RoutingAt);
    RestingAnswers(db, t, t, b.steps, StepsOf);
  }

  lemma RestingLookups(db: Db, t: Time)
    ensures LookupsAnswered(RestingHistory(db), t, t, LookupsAt(db))
  {
    hide Answered, RestingHistory, OrderOfLine, ItemOfPlant, ItemOfBom, ItemOfDetail, RoutingOfStep, RoutingsUsing, ItemOfRouting;
    hide ItemsWithStandard, OrdersOfCustomer, OrdersOfDepartment;
    var l := LookupsAt(db);
    RestingAnswers(db, t, t, l.orderOfLine, OrderOfLine);
    RestingAnswers(db, t, t, l.itemOfPlant, ItemOfPlant);
    RestingAnswers(db, t, t, l.itemOfBom, ItemOfBom);
    RestingAnswers(db, t, t, l.itemOfDetail, ItemOfDetail);
    RestingAnswers(db, t, t, l.routingOfStep, RoutingOfStep);
    RestingAnswers(db, t, t, l.routingsUsing, RoutingsUsing);
    RestingAnswers(db, t, t, l.itemOfRouting, ItemOfRouting);
    RestingAnswers(db, t, t, l.itemsWithStandard, ItemsWithStandard);
    RestingAnswers(db, t, t, l.ordersOfCustomer, OrdersOfCustomer);
    RestingAnswers(db, t, t, l.ordersOfDepartment, OrdersOfDepartment);
  }

  function NoMarks(): Marks {
    (t: Table) => None
  }

  /** Nothing changed since the start of the formal candidates, so an empty scan is complete. */
  lemma RestingScans(t: Time)
    ensures AllScanned(RestingHistory(OneLine(Guid(2), 0)), NoMarks(), t, t, NO_CHANGES)
  {
    assert FORMAL_CANDIDATE_START > 0;
  }

  lemma NothingIsAffected(db: Db)
    ensures AffectedItems(LookupsAt(db), NO_CHANGES) == {} && AffectedOrders(LookupsAt(db), NO_CHANGES) == {}
  {
    hide Image;
    var l := LookupsAt(db);
    ImageOfNone(l.itemOfPlant);
    ImageOfNone(l.itemOfBom);
    ImageOfNone(l.itemOfDetail);
    ImageOfNone(l.routingOfStep);
    ImageOfNone(l.routingsUsing);
    ImageOfNone(l.itemOfRouting);
    ImageOfNone(l.itemsWithStandard);
    ImageOfNone(l.orderOfLine);
    ImageOfNone(l.ordersOfCustomer);
    ImageOfNone(l.ordersOfDepartment);
  }

  /** The only line's rows rest, and the line is kept. */
  ghost function QuietKept(t: Time): Kept {
    Kept(t - OVERLAP, t - OVERLAP, NoMarks(), map[Guid(1) := Evaluate(OneLine(Guid(2), 0), Guid(1), t - OVERLAP)])
  }

  lemma OneLineHasNoHeads()
    ensures OneLine(Guid(2), 0).boms == map[] && OneLine(Guid(2), 0).routings == map[]
  {
  }

  lemma QuietReading(t: Time)
    requires t == FORMAL_CANDIDATE_START + 3 * OVERLAP
    ensures Reading(RestingHistory(OneLine(Guid(2), 0)), QuietKept(t), RestingBundle(OneLine(Guid(2), 0), t), t)
  {
    var db := OneLine(Guid(2), 0);
    OneLineHasNoHeads();
    hide WellStamped, LoadsAnswered, LookupsAnswered, AllScanned, Evaluate, LookupsAt, OneLine, CandidateLines, TimedItems, RestingHistory;
    RestingIsStamped(db);
    RestingLoads(db, t);
    RestingLookups(db, t);
    RestingScans(t);
    assert RestingBundle(db, t).timed == TimedItems(DbAt(RestingHistory(db), t), QuietKept(t).cutoff - OVERLAP, t);
  }

  lemma QuietIsNotSelected(t: Time)
    ensures var b := RestingBundle(OneLine(Guid(2), 0), t);
      IsCandidate(OneLine(Guid(2), 0), Guid(1)) && Guid(1) in b.lines && !IsSelected(b, Guid(1))
  {
    hide AffectedItems, AffectedOrders, LookupsAt;
    var db := OneLine(Guid(2), 0);
    OneLineResult(Guid(2), 0);
    NothingIsAffected(db);
    assert TimedItems(db, t - 2 * OVERLAP, t) == {};
    assert RestingBundle(db, t).lines[Guid(1)] == JoinLine(db, Guid(1));
  }

  /** What the theorems suppose does occur: a read after a read, with a line at rest that is not selected. */
  lemma QuietReadOccurs() returns (h: History, k: Kept, b: Bundle, id: Id)
    ensures Reading(h, k, b, b.cutoff) && QuietLine(h, id, b.cutoff, b.end) && IsRight(h, k, id)
    ensures id in b.lines && !IsSelected(b, id) && NothingLeaves(h, id, k.cutoff, b.cutoff)
  {
    hide Reading, QuietLine, IsRight, NothingLeaves, OneLine, IsSelected, RestingHistory, LookupsAt, TimedItems, CandidateLines;
    var db := OneLine(Guid(2), 0);
    var t := FORMAL_CANDIDATE_START + 3 * OVERLAP;
    id, h, k, b := Guid(1), RestingHistory(db), QuietKept(t), RestingBundle(db, t);
    QuietReading(t);
    QuietIsNotSelected(t);
    QuietIsQuiet(t - OVERLAP, t);
    QuietIsQuiet(t, t);
    QuietIsRight(t);
  }

  lemma QuietIsQuiet(from: Time, to: Time)
    ensures QuietLine(RestingHistory(OneLine(Guid(2), 0)), Guid(1), from, to)
    ensures NothingLeaves(RestingHistory(OneLine(Guid(2), 0)), Guid(1), from, to)
  {
    hide OneLine, SameLineRows, LineStays, RestingHistory, Evaluate;
    OneLineResult(Guid(2), 0);
    RestingIsStamped(OneLine(Guid(2), 0));
    SameAsItself(OneLine(Guid(2), 0), Guid(1));
    StaysWithItself(OneLine(Guid(2), 0), Guid(1));
  }

  lemma QuietIsRight(t: Time)
    ensures IsRight(RestingHistory(OneLine(Guid(2), 0)), QuietKept(t), Guid(1))
  {
    hide OneLine, QuietLine, RestingHistory, Evaluate, CandidateLines, IsCandidate, LookupsAt;
    RestingIsStamped(OneLine(Guid(2), 0));
    QuietIsNotSelected(t);
  }

  lemma StaysWithItself(db: Db, id: Id)
    requires Present(db, id)
    ensures LineStays(db, db, id)
  {
  }
}
