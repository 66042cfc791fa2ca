/** read_bundle: its statements one after the other, on a source that changes between any two of them. */
module ProgressLoader {
  import opened Wrappers
  import opened ProgressFacts
  import opened ProgressRefresh
  import opened ProgressBundle
  import opened ProgressReader
  import Keyset

  // ----- Statements -----

  /** One statement: its parameters are all answered at one moment. */
  method Ask<R>(h: History, statement: (Db, Id) -> R, batch: seq<Id>, now: Time) returns (answers: map<Id, R>, end: Time)
    ensures now <= end && forall x :: x in answers <==> x in batch
    ensures forall x <- answers :: answers[x] == statement(DbAt(h, end), x)
  {
    var moment: Time :| now <= moment;
    end := moment;
    var db := DbAt(h, end);
    answers := map x | x in batch :: statement(db, x);
  }

  ghost predicate AnswersOf<R(!new)>(h: History, from: Time, to: Time, answers: map<Id, R>, statement: (Db, Id) -> R) {
    forall x <- answers :: exists t :: from <= t <= to && answers[x] == statement(DbAt(h, t), x)
  }

  /** One statement after the other, each for at most 500 parameters. */
  method AskAll<R(!new)>(h: History, statement: (Db, Id) -> R, ids: seq<Option<Id>>, now: Time) returns (answers: map<Id, R>, end: Time)
    ensures now <= end && answers.Keys == Values(ids)
    ensures AnswersOf(h, now, end, answers, statement)
  {
    var batches := Chunks(ids, QUERY_BATCH_SIZE);
    answers, end := map[], now;
    for n := 0 to |batches|
      invariant now <= end && forall x :: x in answers <==> x in Flatten(batches[..n])
      invariant AnswersOf(h, now, end, answers, statement)
    {
      var more;
      more, end := Ask(h, statement, batches[n], end);
      answers := answers + more;
      assert batches[..n + 1][..n] == batches[..n];
    }
    assert batches[..|batches|] == batches;
  }

  /** The statement as a function: what it answered where it was asked, what it would have answered elsewhere. */
  ghost function Completed<R>(h: History, at: Time, answers: map<Id, R>, statement: (Db, Id) -> R): Id -> R {
    (x: Id) => if x in answers then answers[x] else statement(DbAt(h, at), x)
  }

  lemma CompletedIsAnswered<R(!new)>(h: History, from: Time, to: Time, answers: map<Id, R>, statement: (Db, Id) -> R)
    requires from <= to && AnswersOf(h, from, to, answers, statement)
    ensures Answered(h, from, to, Completed(h, from, answers, statement), statement)
  {
    forall x ensures AnsweredAt(h, from, to, Completed(h, from, answers, statement), statement, x) {
      if x !in answers {
        assert Completed(h, from, answers, statement)(x) == statement(DbAt(h, from), x);
      }
    }
  }

  lemma AnsweredWithin<R(!new)>(h: History, from: Time, to: Time, start: Time, end: Time, answer: Id -> R, statement: (Db, Id) -> R)
    requires Answered(h, from, to, answer, statement) && start <= from && to <= end
    ensures Answered(h, start, end, answer, statement)
  {
    forall x ensures AnsweredAt(h, start, end, answer, statement, x) {
      assert AnsweredAt(h, from, to, answer, statement, x);
    }
  }

  /** Ids as a list of parameters. */
  method Parameters(ids: set<Id>) returns (values: seq<Option<Id>>)
    ensures Values(values) == ids
  {
    values := [];
    var rest := ids;
    while rest != {}
      invariant rest <= ids && Values(values) == ids - rest
      decreases |rest|
    {
      ghost var some := Member(rest);
      var i :| i in rest;
      assert Values(values + [Some(i)]) == Values(values) + {i};
      values := values + [Some(i)];
      rest := rest - {i};
    }
  }

  // ----- affected_facts -----

  /** query_batches: the ids in the rows the statements return. */
  method QueryBatches(h: History, statement: (Db, Id) -> set<Id>, ids: seq<Option<Id>>, now: Time)
    returns (found: set<Id>, end: Time, ghost lookup: Id -> set<Id>)
    ensures now <= end && Answered(h, now, end, lookup, statement) && found == Image(Values(ids), lookup)
  {
    hide Answered, AnswersOf, Values, Completed, Together;
    var answers;
    answers, end := AskAll(h, statement, ids, now);
    found := Together(answers);
    lookup := Completed(h, now, answers, statement);
    CompletedIsAnswered(h, now, end, answers, statement);
    TogetherIsRows(h, now, answers, statement);
    assert RowsFor(Values(ids), lookup) == Image(Values(ids), lookup);
  }

  /** All rows of all answers. */
  function Together<T>(answers: map<Id, set<T>>): set<T> {
    set x, y | x in answers && y in answers[x] :: y
  }

  /** The rows a statement gives for these parameters. */
  ghost function RowsFor<T>(ids: set<Id>, answer: Id -> set<T>): set<T> {
    set i, x | i in ids && x in answer(i) :: x
  }

  lemma TogetherIsRows<T>(h: History, at: Time, answers: map<Id, set<T>>, statement: (Db, Id) -> set<T>)
    ensures Together(answers) == RowsFor(answers.Keys, Completed(h, at, answers, statement))
  {
    var answer := Completed(h, at, answers, statement);
    assert forall x <- answers :: answer(x) == answers[x];
    forall y | y in Together(answers) ensures y in RowsFor(answers.Keys, answer) {
      var x :| x in answers && y in answers[x];
      assert y in answer(x);
    }
    forall y | y in RowsFor(answers.Keys, answer) ensures y in Together(answers) {
      var x :| x in answers.Keys && y in answer(x);
    }
  }

  /** affected_facts, growing the two sets statement by statement. */
  method AffectedFacts(h: History, changes: ChangeLists, now: Time)
    returns (itemIds: set<Id>, orderIds: set<Id>, end: Time, ghost l: Lookups)
    ensures now <= end && LookupsAnswered(h, now, end, l)
    ensures itemIds == AffectedItems(l, ToChanges(changes)) && orderIds == AffectedOrders(l, ToChanges(changes))
  {
    hide Answered, Values, Image;
    itemIds := PresentIds(changes.items);
    orderIds := PresentIds(changes.orders);
    var lineOrders, t0, ofLine := QueryBatches(h, OrderOfLine, changes.lines, now);
    var plantItems, t1, ofPlant := QueryBatches(h, ItemOfPlant, changes.plants, t0);
    var bomItems, t2, ofBom := QueryBatches(h, ItemOfBom, changes.boms, t1);
    var detailItems, t3, ofDetail := QueryBatches(h, ItemOfDetail, changes.details, t2);
    itemIds := itemIds + plantItems + bomItems + detailItems;
    var routeIds := PresentIds(changes.routings);
    var stepRoutes, t4, ofStep := QueryBatches(h, RoutingOfStep, changes.steps, t3);
    var usingRoutes, t5, using := QueryBatches(h, RoutingsUsing, changes.operations, t4);
    routeIds := routeIds + stepRoutes + usingRoutes;
    var routes := Parameters(routeIds);
    var routeItems, t6, ofRouting := QueryBatches(h, ItemOfRouting, routes, t5);
    var standardItems, t7, withStandard := QueryBatches(h, ItemsWithStandard, routes, t6);
    itemIds := itemIds + routeItems + standardItems;
    var customerOrders, t8, ofCustomer := QueryBatches(h, OrdersOfCustomer, changes.customers, t7);
    var departmentOrders, t9, ofDepartment := QueryBatches(h, OrdersOfDepartment, changes.departments, t8);
    orderIds := orderIds + lineOrders + customerOrders + departmentOrders;
    end := t9;
    l := Lookups(ofLine, ofPlant, ofBom, ofDetail, ofStep, using, ofRouting, withStandard, ofCustomer, ofDepartment);
    AnsweredWithin(h, now, t0, now, end, ofLine, OrderOfLine);
    AnsweredWithin(h, t0, t1, now, end, ofPlant, ItemOfPlant);
    AnsweredWithin(h, t1, t2, now, end, ofBom, ItemOfBom);
    AnsweredWithin(h, t2, t3, now, end, ofDetail, ItemOfDetail);
    AnsweredWithin(h, t3, t4, now, end, ofStep, RoutingOfStep);
    AnsweredWithin(h, t4, t5, now, end, using, RoutingsUsing);
    AnsweredWithin(h, t5, t6, now, end, ofRouting, ItemOfRouting);
    AnsweredWithin(h, t6, t7, now, end, withStandard, ItemsWithStandard);
    AnsweredWithin(h, t7, t8, now, end, ofCustomer, OrdersOfCustomer);
    AnsweredWithin(h, t8, t9, now, end, ofDepartment, OrdersOfDepartment);
  }

  // ----- load_item_plants, load_boms, load_routings -----

  method LoadItemPlants(h: History, items: seq<Option<Id>>, now: Time)
    returns (plants: set<Plant>, end: Time, ghost answer: Id -> set<Plant>)
    ensures now <= end && Answered(h, now, end, answer, PlantsAt)
    ensures plants == RowsFor(Values(items), answer)
  {
    hide Answered, AnswersOf, Values, PlantsAt;
    var answers;
    answers, end := AskAll(h, PlantsAt, items, now);
    plants := Together(answers);
    answer := Completed(h, now, answers, PlantsAt);
    CompletedIsAnswered(h, now, end, answers, PlantsAt);
    TogetherIsRows(h, now, answers, PlantsAt);
  }

  /** candidates: of the rows with one id the first is kept. */
  method Collect<H(==)>(rows: set<(Id, H)>, before: map<Id, H>) returns (heads: map<Id, H>)
    ensures forall k <- before :: k in heads && heads[k] == before[k]
    ensures forall m <- rows :: m.0 in heads
    ensures forall k <- heads :: k in before || (k, heads[k]) in rows
  {
    heads := before;
    var rest := rows;
    while rest != {}
      invariant rest <= rows
      invariant forall k <- before :: k in heads && heads[k] == before[k]
      invariant forall m <- rows - rest :: m.0 in heads
      invariant forall k <- heads :: k in before || (k, heads[k]) in rows
      decreases |rest|
    {
      var m :| m in rest;
      rest := rest - {m};
      if m.0 !in heads {
        heads := heads[m.0 := m.1];
      }
    }
  }

  method LoadBoms(h: History, items: seq<Option<Id>>, now: Time)
    returns (boms: set<Bom>, end: Time, ghost answer: Id -> set<(Id, BomHead)>, ghost details: Id -> set<BomDetail>, ghost heads: map<Id, BomHead>)
    ensures now <= end && Answered(h, now, end, answer, BomsAt) && Answered(h, now, end, details, DetailsOf)
    ensures Chosen(heads, RowsFor(Values(items), answer))
    ensures boms == set m <- heads :: Facts(m, heads[m], details(m))
  {
    hide Answered, AnswersOf, Values, BomsAt, DetailsOf;
    var found, t0 := AskAll(h, BomsAt, items, now);
    var candidates := Collect(Together(found), map[]);
    var ids := Parameters(candidates.Keys);
    var rows;
    rows, end := AskAll(h, DetailsOf, ids, t0);
    boms := set m <- candidates :: Facts(m, candidates[m], rows[m]);
    answer, details, heads := Completed(h, now, found, BomsAt), Completed(h, t0, rows, DetailsOf), candidates;
    CompletedIsAnswered(h, now, t0, found, BomsAt);
    TogetherIsRows(h, now, found, BomsAt);
    CompletedIsAnswered(h, t0, end, rows, DetailsOf);
    AnsweredWithin(h, now, t0, now, end, answer, BomsAt);
    AnsweredWithin(h, t0, end, now, end, details, DetailsOf);
  }

  /** The rows an optional row stands for. */
  function Listed(answers: map<Id, Option<RoutingHead>>): set<(Id, RoutingHead)> {
    set x | x in answers && answers[x].Some? :: (x, answers[x].value)
  }

  ghost function RowsById(ids: set<Id>, answer: Id -> Option<RoutingHead>): set<(Id, RoutingHead)> {
    set i | i in ids && answer(i).Some? :: (i, answer(i).value)
  }

  lemma ListedIs(h: History, at: Time, answers: map<Id, Option<RoutingHead>>)
    ensures Listed(answers) == RowsById(answers.Keys, Completed(h, at, answers, RoutingAt))
  {
    var answer := Completed(h, at, answers, RoutingAt);
    assert forall x <- answers :: answer(x) == answers[x];
    forall y | y in Listed(answers) ensures y in RowsById(answers.Keys, answer) {
      assert y.0 in answers && answer(y.0).Some?;
    }
    forall y | y in RowsById(answers.Keys, answer) ensures y in Listed(answers) {
      assert y.0 in answers && answers[y.0].Some?;
    }
  }

  method LoadRoutings(h: History, items: seq<Option<Id>>, standards: seq<Option<Id>>, now: Time)
    returns (routings: set<Routing>, end: Time, ghost answer: Id -> set<(Id, RoutingHead)>, ghost standard: Id -> Option<RoutingHead>,
             ghost steps: Id -> set<RoutingDetail>, ghost heads: map<Id, RoutingHead>)
    ensures now <= end && Answered(h, now, end, answer, RoutingsAt) && Answered(h, now, end, standard, RoutingAt) && Answered(h, now, end, steps, StepsOf)
    ensures Chosen(heads, RowsFor(Values(items), answer) + RowsById(Values(standards), standard))
    ensures routings == set r <- heads :: Facts(r, heads[r], steps(r))
  {
    hide Answered, AnswersOf, Values, RoutingsAt, RoutingAt, StepsOf;
    var found, t0 := AskAll(h, RoutingsAt, items, now);
    var byId, t1 := AskAll(h, RoutingAt, standards, t0);
    var first := Collect(Together(found), map[]);
    var candidates := Collect(Listed(byId), first);
    var ids := Parameters(candidates.Keys);
    var rows;
    rows, end := AskAll(h, StepsOf, ids, t1);
    routings := set r <- candidates :: Facts(r, candidates[r], rows[r]);
    answer, standard := Completed(h, now, found, RoutingsAt), Completed(h, t0, byId, RoutingAt);
    steps, heads := Completed(h, t1, rows, StepsOf), candidates;
    CompletedIsAnswered(h, now, t0, found, RoutingsAt);
    TogetherIsRows(h, now, found, RoutingsAt);
    ListedIs(h, t0, byId);
    CompletedIsAnswered(h, t0, t1, byId, RoutingAt);
    CompletedIsAnswered(h, t1, end, rows, StepsOf);
    AnsweredWithin(h, now, t0, now, end, answer, RoutingsAt);
    AnsweredWithin(h, t0, t1, now, end, standard, RoutingAt);
    AnsweredWithin(h, t1, end, now, end, steps, StepsOf);
  }

  // ----- read_bundle -----

  /** The last row of a table up to the cutoff, which a full read starts its watermark from. */
  method NewestRow<T(!new)>(s: Versions<T>, cutoff: Time, now: Time) returns (newest: Option<Mark>, end: Time)
    ensures now <= end && IsNewest(s.rows, None, cutoff, end, newest)
  {
    var moment: Time :| now <= moment;
    end := moment;
    newest := None;
    hide MarkOf;
    var window := set v | v in s.rows && Keyset.Current(s.rows, v, end) && v.raw <= cutoff;
    var rest := window;
    while rest != {}
      invariant rest <= window
      invariant newest.Some? ==> exists v :: v in window && newest.value == MarkOf(v)
      invariant forall v <- window - rest :: NotBelow(newest, Some(MarkOf(v)))
      decreases |rest|
    {
      var v :| v in rest;
      rest := rest - {v};
      if !NotBelow(newest, Some(MarkOf(v))) {
        newest := Some(MarkOf(v));
      }
    }
  }

  method NewestRows(s: Tables, cutoff: Time, now: Time) returns (newest: Marks, end: Time)
    requires Keyset.OnGrid(cutoff) && cutoff <= now
    ensures now <= end && MarksBehind(newest, cutoff) && AllNewest(s, None, cutoff, end, newest)
  {
    hide IsNewest, AllNewest, MarksBehind, ToMarks;
    var orders, t0 := NewestRow(s.orders, cutoff, now);
    var lines, t1 := NewestRow(s.lines, cutoff, t0);
    var items, t2 := NewestRow(s.items, cutoff, t1);
    var plants, t3 := NewestRow(s.plants, cutoff, t2);
    var boms, t4 := NewestRow(s.boms, cutoff, t3);
    var details, t5 := NewestRow(s.details, cutoff, t4);
    var routings, t6 := NewestRow(s.routings, cutoff, t5);
    var steps, t7 := NewestRow(s.steps, cutoff, t6);
    var operations, t8 := NewestRow(s.operations, cutoff, t7);
    var customers, t9 := NewestRow(s.customers, cutoff, t8);
    var departments, t10 := NewestRow(s.departments, cutoff, t9);
    var list := MarkList(orders, lines, items, plants, boms, details, routings, steps, operations, customers, departments);
    newest, end := ToMarks(list), t10;
    NewestTogether(s, None, cutoff, [t0, t1, t2, t3, t4, t5, t6, t7, t8, t9, t10], list);
  }

  lemma AllScannedLater(h: History, marks: Marks, from: Time, end: Time, later: Time, c: Changes)
    requires AllScanned(h, marks, from, end, c) && end <= later
    ensures AllScanned(h, marks, from, later, c)
  {
    hide Scanned;
    ScannedLater(h.orders, Since(marks(SALES_ORDER_DOC)), from, end, later, c.orders);
    ScannedLater(h.lines, Since(marks(SALES_ORDER_DOC_D)), from, end, later, c.lines);
    ScannedLater(h.items, Since(marks(ITEM)), from, end, later, c.items);
    ScannedLater(h.plants, Since(marks(ITEM_PLANT)), from, end, later, c.plants);
    ScannedLater(h.boms, Since(marks(BOM)), from, end, later, c.boms);
    ScannedLater(h.details, Since(marks(BOM_D)), from, end, later, c.details);
    ScannedLater(h.routings, Since(marks(ITEM_ROUTING)), from, end, later, c.routings);
    ScannedLater(h.steps, Since(marks(ITEM_ROUTING_D)), from, end, later, c.steps);
    ScannedLater(h.operations, Since(marks(OPERATION)), from, end, later, c.operations);
    ScannedLater(h.customers, Since(marks(CUSTOMER)), from, end, later, c.customers);
    ScannedLater(h.departments, Since(marks(ADMIN_UNIT)), from, end, later, c.departments);
  }

  lemma LookupsLater(h: History, from: Time, end: Time, start: Time, later: Time, l: Lookups)
    requires LookupsAnswered(h, from, end, l) && start <= from && end <= later
    ensures LookupsAnswered(h, start, later, l)
  {
    hide Answered;
    AnsweredWithin(h, from, end, start, later, l.orderOfLine, OrderOfLine);
    AnsweredWithin(h, from, end, start, later, l.itemOfPlant, ItemOfPlant);
    AnsweredWithin(h, from, end, start, later, l.itemOfBom, ItemOfBom);
    AnsweredWithin(h, from, end, start, later, l.itemOfDetail, ItemOfDetail);
    AnsweredWithin(h, from, end, start, later, l.routingOfStep, RoutingOfStep);
    AnsweredWithin(h, from, end, start, later, l.routingsUsing, RoutingsUsing);
    AnsweredWithin(h, from, end, start, later, l.itemOfRouting, ItemOfRouting);
    AnsweredWithin(h, from, end, start, later, l.itemsWithStandard, ItemsWithStandard);
    AnsweredWithin(h, from, end, start, later, l.ordersOfCustomer, OrdersOfCustomer);
    AnsweredWithin(h, from, end, start, later, l.ordersOfDepartment, OrdersOfDepartment);
  }

  /** What decides which lines are read: the changes, what they affect, and the boundaries passed. */
  ghost predicate Traced(h: History, k: Kept, cutoff: Time, end: Time, changes: Changes, l: Lookups, timed: set<Id>) {
    && AllScanned(h, k.marks, cutoff, end, changes) && LookupsAnswered(h, cutoff, end, l)
    && exists t :: cutoff <= t <= end && timed == TimedItems(DbAt(h, t), k.cutoff - OVERLAP, cutoff)
  }

  /** The first half of an incremental read: scan the tables, load the inventory, trace the changes, filter the lines. */
  method SelectLines(h: History, s: Tables, k: Kept, codes: set<string>, cutoff: Time)
    returns (newest: Marks, lines: map<Id, Line>, orders: map<Id, Line>, end: Time, ghost changes: Changes, ghost l: Lookups, ghost timed: set<Id>)
    requires WellFormedTables(s) && h == HistoryOf(s) && Keyset.OnGrid(cutoff)
    ensures cutoff <= end && MarksBehind(newest, cutoff) && AllNewest(s, Some(k.marks), cutoff, end, newest)
    ensures exists t :: cutoff <= t <= end && lines == CandidateLines(DbAt(h, t))
    ensures Traced(h, k, cutoff, end, changes, l, timed)
    ensures orders == map id | id in lines && Selected(lines[id], l, changes, timed, codes) :: lines[id]
    ensures forall id <- lines ::
      id in orders <==> (lines[id].order in AffectedOrders(l, changes)
                         || (exists i :: lines[id].item == Some(i) && (i in AffectedItems(l, changes) || i in timed))
                         || (exists c :: lines[id].customerCode == Some(c) && c in codes))
  {
    hide AllNewest, AllScanned, LookupsAnswered, CandidateLines, TimedItems, WellFormedTables, HistoryOf, DbAt, AffectedItems, AffectedOrders, ToChanges;
    var lists, scanned;
    lists, newest, scanned := ReadChanges(s, k.marks, cutoff);
    var loaded: Time :| scanned <= loaded;
    lines := CandidateLines(DbAt(h, loaded));
    var itemIds, orderIds, traced;
    itemIds, orderIds, traced, l := AffectedFacts(h, lists, loaded);
    var moment: Time :| traced <= moment;
    end := moment;
    var due := TimedItems(DbAt(h, end), k.cutoff - OVERLAP, cutoff);
    itemIds := itemIds + due;
    orders := map id | id in lines && (lines[id].order in orderIds || (lines[id].item.Some? && lines[id].item.value in itemIds)
                                       || (lines[id].customerCode.Some? && lines[id].customerCode.value in codes)) :: lines[id];
    changes, timed := ToChanges(lists), due;
    AllScannedLater(h, k.marks, cutoff, scanned, end, changes);
    LookupsLater(h, loaded, traced, cutoff, end, l);
    AllNewestLater(s, Some(k.marks), cutoff, scanned, end, newest);
  }

  /**
   The watermarks a read leaves: each is the old one or the mark of a row up to the cutoff, not below the old one,
   and not below any row at rest since the cutoff that the table was read for.
   */
  ghost predicate Watermarked(s: Tables, before: Option<Marks>, cutoff: Time, end: Time, watermark: Marks) {
    forall t: Table ::
      && (before.Some? ==> NotBelow(watermark(t), before.value(t)))
      && (watermark(t).Some? && (before.None? || watermark(t) != before.value(t)) ==>
            exists v <- RowsOf(s, t) :: watermark(t).value == Mark(Keyset.Quantise(v.raw), Guid(v.id)) && v.raw <= cutoff && v.visibleAt <= end)
      && forall v <- RowsOf(s, t) ::
           (Keyset.Current(RowsOf(s, t), v, end) && v.visibleAt <= cutoff && v.raw <= cutoff && (before.Some? ==> Since(before.value(t)) <= v.raw))
           ==> NotBelow(watermark(t), Some(Mark(Keyset.Quantise(v.raw), Guid(v.id))))
  }

  lemma AdvancedIsWatermarked(s: Tables, marks: Marks, cutoff: Time, end: Time, newest: Marks)
    requires AllNewest(s, Some(marks), cutoff, end, newest)
    ensures Watermarked(s, Some(marks), cutoff, end, Advanced(marks, newest))
  {
    forall t: Table ensures IsNewest(RowsOf(s, t), Some(Since(marks(t))), cutoff, end, newest(t)) {
      assert SinceMark(Some(marks), t) == Some(Since(marks(t)));
    }
    hide RowsOf, AllNewest, Keyset.Current, Keyset.Quantise;
    forall t: Table ensures var w := Advanced(marks, newest)(t); (w == marks(t) || w == newest(t)) && NotBelow(w, marks(t)) && NotBelow(w, newest(t)) {
      AdvanceCursorIsMaximum(marks(t), newest(t));
    }
  }

  lemma NewestIsWatermarked(s: Tables, cutoff: Time, end: Time, newest: Marks)
    requires AllNewest(s, None, cutoff, end, newest)
    ensures Watermarked(s, None, cutoff, end, newest)
  {
    forall t: Table ensures IsNewest(RowsOf(s, t), None, cutoff, end, newest(t)) {
      assert SinceMark(None, t) == None;
    }
  }

  /** What read_bundle returns. */
  datatype Loaded = Loaded(watermark: Marks, inventory: set<Id>, orders: map<Id, Line>, plants: set<Plant>, boms: set<Bom>, routings: set<Routing>)

  function ItemsOf(orders: map<Id, Line>): set<Id> {
    set id | id in orders && orders[id].item.Some? :: orders[id].item.value
  }

  function StandardsOf(plants: set<Plant>): set<Id> {
    set p | p in plants && p.standard.Some? :: p.standard.value
  }

  /** The lines of a bundle that are evaluated. */
  ghost function SelectedLines(b: Bundle): map<Id, Line> {
    map id | id in b.lines && IsSelected(b, id) :: b.lines[id]
  }

  lemma BundleRows(b: Bundle)
    ensures LoadedItems(b) == ItemsOf(SelectedLines(b))
    ensures LoadedPlants(b) == RowsFor(LoadedItems(b), b.plants)
    ensures FoundBoms(b) == RowsFor(LoadedItems(b), b.boms)
    ensures FoundRoutings(b) == RowsFor(LoadedItems(b), b.routings) + RowsById(StandardsOf(LoadedPlants(b)), b.routing)
  {
    hide IsSelected;
    var lines := SelectedLines(b);
    forall i | i in LoadedItems(b) ensures i in ItemsOf(lines) {
      var id :| id in b.lines && IsSelected(b, id) && b.lines[id].item == Some(i);
      assert id in lines && lines[id].item == Some(i);
    }
    forall i | i in ItemsOf(lines) ensures i in LoadedItems(b) {
      var id :| id in lines && lines[id].item == Some(i);
      assert id in b.lines && IsSelected(b, id) && b.lines[id].item == Some(i);
    }
    forall y | y in FoundRoutings(b) ensures y in RowsFor(LoadedItems(b), b.routings) + RowsById(StandardsOf(LoadedPlants(b)), b.routing) {
    }
  }

  /**
   read_bundle.  Whatever the source does between its statements, what it returns is a reading that may follow
   the last one: the selected lines with the plants, BOMs and routings loaded for them.
   */
  method ReadBundle(h: History, s: Tables, full: bool, k: Kept, codes: set<string>, cutoff: Time) returns (r: Loaded, ghost b: Bundle)
    requires WellFormedTables(s) && h == HistoryOf(s) && Keyset.OnGrid(cutoff)
    requires !full ==> k.cutoff <= k.end <= cutoff && MarksBehind(k.marks, k.cutoff) && FORMAL_CANDIDATE_START <= k.cutoff - OVERLAP
    ensures Follows(h, k, b) && b.full == full && b.cutoff == cutoff && b.customerCodes == codes
    ensures r.watermark == NextMarks(k, b) && r.inventory == b.lines.Keys && r.orders == SelectedLines(b)
    ensures Watermarked(s, if full then None else Some(k.marks), cutoff, b.end, r.watermark)
    ensures r.plants == LoadedPlants(b) && r.boms == LoadedBoms(b) && r.routings == LoadedRoutings(b)
    ensures forall id :: full || (IsRight(h, k, id) && NothingLeaves(h, id, k.cutoff, cutoff)) ==> IsRight(h, AfterBundle(k, b), id)
  {
    hide AllNewest, Watermarked, Advanced, Answered, AllScanned, LookupsAnswered, CandidateLines, TimedItems, WellFormedTables, HistoryOf, DbAt, Selected, Values, Chosen, LoadedItems;
    hide LoadedPlants, FoundBoms, FoundRoutings, RowsFor, RowsById, ItemsOf, StandardsOf, IsRight, NothingLeaves, AfterBundle;
    var newest: Marks, lines: map<Id, Line>, orders: map<Id, Line>, t0: Time;
    ghost var changes: Changes, l: Lookups, timed: set<Id>;
    if full {
      newest, t0 := NewestRows(s, cutoff, cutoff);
      var loaded: Time :| t0 <= loaded;
      AllNewestLater(s, None, cutoff, t0, loaded, newest);
      t0 := loaded;
      lines := CandidateLines(DbAt(h, loaded));
      orders := lines;
      changes, l, timed := NO_CHANGES, LookupsAt(DbAt(h, cutoff)), {};
    } else {
      newest, lines, orders, t0, changes, l, timed := SelectLines(h, s, k, codes, cutoff);
    }
    var items := Parameters(ItemsOf(orders));
    var plants, t1, plantsAnswer := LoadItemPlants(h, items, t0);
    var boms, t2, bomsAnswer, details, bomHeads := LoadBoms(h, items, t1);
    var standards := Parameters(StandardsOf(plants));
    var routings, end, routingsAnswer, standard, steps, routingHeads := LoadRoutings(h, items, standards, t2);
    r := Loaded(if full then newest else Advanced(k.marks, newest), lines.Keys, orders, plants, boms, routings);
    b := Bundle(cutoff, end, full, newest, changes, l, timed, codes, lines, plantsAnswer, bomsAnswer, details, routingsAnswer, standard, steps,
                bomHeads, routingHeads);
    assert orders == SelectedLines(b);
    BundleRows(b);
    AnsweredWithin(h, t0, t1, cutoff, end, plantsAnswer, PlantsAt);
    AnsweredWithin(h, t1, t2, cutoff, end, bomsAnswer, BomsAt);
    AnsweredWithin(h, t1, t2, cutoff, end, details, DetailsOf);
    AnsweredWithin(h, t2, end, cutoff, end, routingsAnswer, RoutingsAt);
    AnsweredWithin(h, t2, end, cutoff, end, standard, RoutingAt);
    AnsweredWithin(h, t2, end, cutoff, end, steps, StepsOf);
    if full {
      AllNewestLater(s, None, cutoff, t0, end, newest);
      NewestIsWatermarked(s, cutoff, end, newest);
    } else {
      AllNewestLater(s, Some(k.marks), cutoff, t0, end, newest);
      AdvancedIsWatermarked(s, k.marks, cutoff, end, newest);
      AllScannedLater(h, k.marks, cutoff, t0, end, changes);
      LookupsLater(h, cutoff, t0, cutoff, end, l);
    }
    ReadKeepsRight(h, s, k, b);
  }

  /** Results stored after the read are right wherever those before it were. */
  lemma ReadKeepsRight(h: History, s: Tables, k: Kept, b: Bundle)
    requires WellFormedTables(s) && h == HistoryOf(s) && Follows(h, k, b)
    ensures forall id :: b.full || (IsRight(h, k, id) && NothingLeaves(h, id, k.cutoff, b.cutoff)) ==> IsRight(h, AfterBundle(k, b), id)
  {
    hide Follows, IsRight, NothingLeaves, WellStamped, AfterBundle, HistoryOf, WellFormedTables;
    HistoryIsStamped(s);
    forall id | b.full || (IsRight(h, k, id) && NothingLeaves(h, id, k.cutoff, b.cutoff)) ensures IsRight(h, AfterBundle(k, b), id) {
      RefreshEqualsFull(h, k, b, id);
    }
  }
}
