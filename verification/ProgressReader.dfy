/** The loops of the E10 reader that page over changes, batch ids, and scan table after table. */
module ProgressReader {
  import opened Wrappers
  import opened Keyset
  import opened ProgressRefresh
  import opened ProgressBundle
  import opened ProgressFacts

  const QUERY_BATCH_SIZE: nat := 500

  // ----- source_changes -----

  class Repository {
    /** One table of the source over all time. */
    const rows: set<Version>
    var clock: Keyset.Time

    constructor (rows: set<Version>, now: Keyset.Time)
      ensures this.rows == rows && clock == now
    {
      this.rows, clock := rows, now;
    }

    ghost function Window(t: Keyset.Time, since: Keyset.Time, cutoff: Keyset.Time, last: Option<Key>): set<Version> {
      set v | v in rows && Current(rows, v, t) && since <= v.raw <= cutoff && (last.None? || Before(last.value, KeyOf(ByStamp, v)))
    }

    method Query(since: Keyset.Time, cutoff: Keyset.Time, last: Option<Key>) returns (page: seq<Version>)
      requires WellFormed(rows)
      modifies this`clock
      ensures old(clock) <= clock
      ensures IsPage(ByStamp, Window(clock, since, cutoff, last), page, LIMIT)
    {
      var readAt: Keyset.Time :| clock <= readAt;
      clock := readAt;
      var window := set v | v in rows && Current(rows, v, readAt) && since <= v.raw <= cutoff && (last.None? || Before(last.value, KeyOf(ByStamp, v)));
      forall v <- window, w <- window | v.id == w.id ensures v == w {
        CurrentIsUnique(rows, v, w, readAt);
      }
      page := TopRows(ByStamp, window, LIMIT);
    }

    /**
     source_changes: pages never overlap, and every row in the window that was visible when the scan
     began and has not changed by its end is yielded, though each page is a read of its own.
     */
    method SourceChanges(since: Keyset.Time, cutoff: Keyset.Time) returns (changes: seq<Version>)
      requires WellFormed(rows)
      modifies this`clock
      ensures old(clock) <= clock
      ensures Ordered(ByStamp, changes) && forall v <- changes :: v in rows && since <= v.raw <= cutoff && v.visibleAt <= clock
      ensures forall v <- rows :: Current(rows, v, clock) && v.visibleAt <= old(clock) && since <= v.raw <= cutoff ==> v in changes
    {
      hide WellFormed, Current, IsPage, Covers;
      changes := [];
      var last: Option<Key> := None;
      var more := true;
      NothingCovered(since, cutoff, clock);
      while more
        invariant old(clock) <= clock
        invariant Ordered(ByStamp, changes) && forall v <- changes :: v in rows && since <= v.raw <= cutoff && v.visibleAt <= clock
        invariant last == if changes == [] then None else Some(KeyOf(ByStamp, changes[|changes| - 1]))
        invariant Covers(since, cutoff, old(clock), clock, last, !more, changes)
        decreases more, |rows| - |changes|
      {
        ghost var before := clock;
        var page := Query(since, cutoff, last);
        PageCovers(since, cutoff, old(clock), before, clock, last, changes, page);
        PageIsWithin(clock, since, cutoff, last, page);
        OrderedJoin(changes, page, last, Window(clock, since, cutoff, last));
        changes := changes + page;
        if page == [] {
          more := false;
        } else {
          last := Some(KeyOf(ByStamp, page[|page| - 1]));
          more := |page| == LIMIT;
        }
        OrderedFits(rows, changes);
      }
      EverythingCovered(since, cutoff, old(clock), clock, last, changes);
    }

    /** Every row visible at the start and still current is among the changes, up to the last key or altogether. */
    ghost predicate Covers(since: Keyset.Time, cutoff: Keyset.Time, start: Keyset.Time, t: Keyset.Time, last: Option<Key>, all: bool, changes: seq<Version>) {
      forall v <- rows :: (Current(rows, v, t) && v.visibleAt <= start && since <= v.raw <= cutoff
        && (all || (last.Some? && !Before(last.value, KeyOf(ByStamp, v))))) ==> v in changes
    }

    lemma NothingCovered(since: Keyset.Time, cutoff: Keyset.Time, start: Keyset.Time)
      ensures Covers(since, cutoff, start, start, None, false, [])
    {
    }

    lemma EverythingCovered(since: Keyset.Time, cutoff: Keyset.Time, start: Keyset.Time, t: Keyset.Time, last: Option<Key>, changes: seq<Version>)
      requires Covers(since, cutoff, start, t, last, true, changes)
      ensures forall v <- rows :: Current(rows, v, t) && v.visibleAt <= start && since <= v.raw <= cutoff ==> v in changes
    {
    }

    lemma PageIsWithin(t: Keyset.Time, since: Keyset.Time, cutoff: Keyset.Time, last: Option<Key>, page: seq<Version>)
      requires IsPage(ByStamp, Window(t, since, cutoff, last), page, LIMIT)
      ensures |page| <= LIMIT && forall v <- page :: v in Window(t, since, cutoff, last) && v.visibleAt <= t
    {
    }

    /** One more page covers up to its last row, or everything if it is not full. */
    lemma PageCovers(since: Keyset.Time, cutoff: Keyset.Time, start: Keyset.Time, before: Keyset.Time, t: Keyset.Time,
                     last: Option<Key>, changes: seq<Version>, page: seq<Version>)
      requires start <= before <= t && Covers(since, cutoff, start, before, last, false, changes)
      requires IsPage(ByStamp, Window(t, since, cutoff, last), page, LIMIT)
      ensures Covers(since, cutoff, start, t, if page == [] then last else Some(KeyOf(ByStamp, page[|page| - 1])), |page| < LIMIT, changes + page)
    {
      forall v | v in rows && Current(rows, v, t) && v.visibleAt <= start && since <= v.raw <= cutoff
                   && (|page| < LIMIT || !Before(KeyOf(ByStamp, page[|page| - 1]), KeyOf(ByStamp, v)))
        ensures v in changes + page
      {
        if last.None? || Before(last.value, KeyOf(ByStamp, v)) {
          assert v in Window(t, since, cutoff, last);
          assert |page| == LIMIT ==> page[LIMIT - 1] in page;
        } else {
          assert Current(rows, v, before);
        }
      }
    }

    lemma OrderedJoin(changes: seq<Version>, page: seq<Version>, last: Option<Key>, window: set<Version>)
      requires Ordered(ByStamp, changes) && last == if changes == [] then None else Some(KeyOf(ByStamp, changes[|changes| - 1]))
      requires IsPage(ByStamp, window, page, LIMIT) && forall v <- window :: last.None? || Before(last.value, KeyOf(ByStamp, v))
      ensures Ordered(ByStamp, changes + page)
    {
      forall i, j | 0 <= i < j < |changes + page| ensures Before(KeyOf(ByStamp, (changes + page)[i]), KeyOf(ByStamp, (changes + page)[j])) {
        if i < |changes| <= j {
          assert page[j - |changes|] in page;
          assert i == |changes| - 1 || Before(KeyOf(ByStamp, changes[i]), last.value);
        }
      }
    }
  }

  /** Strictly ordered rows of a set are no more than the set holds, so the scan ends. */
  lemma {:induction false} OrderedFits(rows: set<Version>, s: seq<Version>)
    requires Ordered(ByStamp, s) && forall v <- s :: v in rows
    ensures |s| <= |rows|
    decreases |s|
  {
    if s != [] {
      var init, last := s[..|s| - 1], s[|s| - 1];
      assert s == init + [last];
      forall i | 0 <= i < |init| ensures init[i] != last {
        assert Before(KeyOf(ByStamp, s[i]), KeyOf(ByStamp, s[|s| - 1]));
      }
      OrderedFits(rows - {last}, init);
    }
  }

  // ----- chunks -----

  ghost function Values(values: seq<Option<Id>>): (ids: set<Id>)
    ensures forall x :: x in ids <==> Some(x) in values
  {
    set o | o in values && o.Some? :: o.value
  }

  ghost function Flatten(batches: seq<seq<Id>>): seq<Id> {
    if batches == [] then [] else Flatten(batches[..|batches| - 1]) + batches[|batches| - 1]
  }

  ghost predicate Distinct(s: seq<Id>) {
    forall i, j :: 0 <= i < j < |s| ==> s[i] != s[j]
  }

  /** chunks: the present values, each once, in consecutive non-empty batches of at most `size`. */
  method Chunks(values: seq<Option<Id>>, size: nat) returns (batches: seq<seq<Id>>)
    requires size > 0
    ensures forall b <- batches :: 0 < |b| <= size
    ensures Distinct(Flatten(batches))
    ensures forall x :: x in Flatten(batches) <==> x in Values(values)
  {
    var unique: seq<Id> := [];
    for n := 0 to |values|
      invariant Distinct(unique)
      invariant forall x :: x in unique <==> Some(x) in values[..n]
    {
      if values[n].Some? && values[n].value !in unique {
        unique := unique + [values[n].value];
      }
    }
    batches := [];
    var index := 0;
    while index < |unique|
      invariant 0 <= index <= |unique|
      invariant forall b <- batches :: 0 < |b| <= size
      invariant Flatten(batches) == unique[..index]
    {
      var end := if index + size < |unique| then index + size else |unique|;
      assert unique[..end] == unique[..index] + unique[index..end];
      assert (batches + [unique[index..end]])[..|batches|] == batches;
      batches := batches + [unique[index..end]];
      index := end;
    }
    assert unique[..|unique|] == unique;
  }

  // ----- Changes per table -----

  /** What read_bundle collected: per table the ids as they came, absent ones included. */
  datatype ChangeLists = ChangeLists(orders: seq<Option<Id>>, lines: seq<Option<Id>>, items: seq<Option<Id>>, plants: seq<Option<Id>>,
                                     boms: seq<Option<Id>>, details: seq<Option<Id>>, routings: seq<Option<Id>>, steps: seq<Option<Id>>,
                                     operations: seq<Option<Id>>, customers: seq<Option<Id>>, departments: seq<Option<Id>>)

  ghost function ToChanges(c: ChangeLists): Changes {
    Changes(Values(c.orders), Values(c.lines), Values(c.items), Values(c.plants), Values(c.boms), Values(c.details), Values(c.routings),
            Values(c.steps), Values(c.operations), Values(c.customers), Values(c.departments))
  }

  method PresentIds(values: seq<Option<Id>>) returns (ids: set<Id>)
    ensures ids == Values(values)
  {
    ids := {};
    for n := 0 to |values|
      invariant forall x :: x in ids <==> Some(x) in values[..n]
    {
      if values[n].Some? {
        ids := ids + {values[n].value};
      }
    }
    assert values[..|values|] == values;
  }

  // ----- Tables as histories of row versions -----

  /** All versions a table ever holds, and what the columns of a version are. */
  datatype Versions<!T> = Versions(rows: set<Version>, decode: int -> T)

  ghost predicate Holds(rows: set<Version>, id: Id, t: Keyset.Time) {
    exists v :: v in rows && Current(rows, v, t) && v.id == id.rank
  }

  ghost function CurrentOf(rows: set<Version>, id: Id, t: Keyset.Time): (v: Version)
    requires Holds(rows, id, t)
    ensures v in rows && Current(rows, v, t) && v.id == id.rank
  {
    var v :| v in rows && Current(rows, v, t) && v.id == id.rank;
    v
  }

  ghost function IdsOf(rows: set<Version>): set<Id> {
    set v <- rows :: Guid(v.id)
  }

  /** What the table holds at each moment. */
  ghost function TableOf<T(!new)>(s: Versions<T>): Keyset.Time -> map<Id, Row<T>> {
    (t: Keyset.Time) => map id | id in IdsOf(s.rows) && Holds(s.rows, id, t) ::
      var v := CurrentOf(s.rows, id, t); Row(v.raw, v.number, s.decode(v.content))
  }

  lemma TableHolds<T(!new)>(s: Versions<T>, id: Id, t: Keyset.Time)
    requires id in TableOf(s)(t)
    ensures Holds(s.rows, id, t)
    ensures var v := CurrentOf(s.rows, id, t); TableOf(s)(t)[id] == Row(v.raw, v.number, s.decode(v.content))
  {
  }

  /** Bounded commit delay is all it takes for a table's rows to be stamped close to their appearance. */
  lemma TableIsStamped<T(!new)>(s: Versions<T>)
    requires WellFormed(s.rows)
    ensures StampedTable(TableOf(s))
  {
    var table := TableOf(s);
    forall t0, t1, k | t0 <= t1 && k in table(t1)
      ensures (k in table(t0) && table(t0)[k] == table(t1)[k]) || t0 - Keyset.OVERLAP <= table(t1)[k].stamp
    {
      var v := CurrentOf(s.rows, k, t1);
      if v.visibleAt <= t0 {
        assert Current(s.rows, v, t0);
        CurrentIsUnique(s.rows, v, CurrentOf(s.rows, k, t0), t0);
      }
    }
  }

  /** A row that a table holds in one state is one version throughout. */
  lemma QuietIsCurrent<T(!new)>(s: Versions<T>, k: Id, from: Keyset.Time, to: Keyset.Time)
    requires WellFormed(s.rows) && from <= to && k in TableOf(s)(from) && QuietRow(TableOf(s), k, from, to)
    ensures Current(s.rows, CurrentOf(s.rows, k, from), to)
  {
    hide WellFormed;
    assert k in TableOf(s)(to) && TableOf(s)(to)[k] == TableOf(s)(from)[k];
    TableHolds(s, k, from);
    TableHolds(s, k, to);
    SameNumber(s.rows, CurrentOf(s.rows, k, from), CurrentOf(s.rows, k, to));
  }

  lemma SameNumber(rows: set<Version>, v: Version, w: Version)
    requires WellFormed(rows) && v in rows && w in rows && v.id == w.id && v.number == w.number
    ensures v == w
  {
  }

  /** A row's place in the order of a scan. */
  function MarkOf(v: Version): Mark {
    Mark(Quantise(v.raw), Guid(v.id))
  }

  /** The mark of a row up to the cutoff, and not below any such row at rest since the cutoff, from `since` on if given. */
  ghost predicate IsNewest(rows: set<Version>, since: Option<Keyset.Time>, cutoff: Keyset.Time, end: Keyset.Time, newest: Option<Mark>) {
    && (newest.Some? ==> exists v <- rows :: newest.value == MarkOf(v) && v.raw <= cutoff && v.visibleAt <= end)
    && forall v <- rows :: Current(rows, v, end) && v.visibleAt <= cutoff && v.raw <= cutoff && (since.Some? ==> since.value <= v.raw)
         ==> NotBelow(newest, Some(MarkOf(v)))
  }

  lemma NewestLater(rows: set<Version>, since: Option<Keyset.Time>, cutoff: Keyset.Time, end: Keyset.Time, later: Keyset.Time, newest: Option<Mark>)
    requires IsNewest(rows, since, cutoff, end, newest) && cutoff <= end <= later
    ensures IsNewest(rows, since, cutoff, later, newest)
  {
    forall v <- rows | Current(rows, v, later) && v.visibleAt <= cutoff ensures Current(rows, v, end) {
    }
  }

  /** The last of ordered changes is not below any of them. */
  lemma LastIsNewest(changes: seq<Version>, v: Version)
    requires Ordered(ByStamp, changes) && v in changes
    ensures NotBelow(Some(MarkOf(changes[|changes| - 1])), Some(MarkOf(v)))
  {
    var i :| 0 <= i < |changes| && changes[i] == v;
    assert i == |changes| - 1 || Before(KeyOf(ByStamp, changes[i]), KeyOf(ByStamp, changes[|changes| - 1]));
  }

  /** What a scan of one table is: every row at rest since the cutoff is yielded; the newest mark is that of a yielded
      row, there is one if any row is yielded, and it is not below a row at rest. */
  ghost predicate ScanIs<T(!new)>(s: Versions<T>, since: Keyset.Time, cutoff: Keyset.Time, end: Keyset.Time, ids: seq<Option<Id>>, newest: Option<Mark>) {
    && Scanned(TableOf(s), since, cutoff, end, Values(ids))
    && (newest.None? <==> ids == []) && (newest.Some? ==> Some(newest.value.id) in ids)
    && IsNewest(s.rows, Some(since), cutoff, end, newest)
  }

  /** One table's scan: the ids it yields, the last row it saw, and when it ended. */
  method ScanTable<T(!new)>(s: Versions<T>, mark: Option<Mark>, cutoff: Keyset.Time, now: Keyset.Time)
    returns (ids: seq<Option<Id>>, newest: Option<Mark>, end: Keyset.Time)
    requires WellFormed(s.rows) && OnGrid(cutoff) && cutoff <= now
    ensures now <= end && ScanIs(s, Since(mark), cutoff, end, ids, newest)
  {
    var repository := new Repository(s.rows, now);
    var changes := repository.SourceChanges(Since(mark), cutoff);
    end := repository.clock;
    ids := [];
    for n := 0 to |changes|
      invariant |ids| == n && forall v <- changes[..n] :: Some(Guid(v.id)) in ids
    {
      ids := ids + [Some(Guid(changes[n].id))];
    }
    assert changes[..|changes|] == changes;
    newest := None;
    if changes != [] {
      var last := changes[|changes| - 1];
      assert last in changes;
      QuantiseAgainstGrid(last.raw, cutoff);
      newest := Some(Mark(Stamp(last), Guid(last.id)));
      forall v | v in changes ensures NotBelow(newest, Some(MarkOf(v))) {
        LastIsNewest(changes, v);
      }
    }
    forall k | k in TableOf(s)(cutoff) && QuietRow(TableOf(s), k, cutoff, end) && Since(mark) <= TableOf(s)(cutoff)[k].stamp
      ensures k in Values(ids)
    {
      QuietIsCurrent(s, k, cutoff, end);
      var v := CurrentOf(s.rows, k, cutoff);
      assert v in changes;
      assert Guid(v.id) == k;
    }
  }

  /** A scan that has ended has ended: later moments ask less of it. */
  lemma ScannedLater<T(!new)>(table: Keyset.Time -> map<Id, Row<T>>, since: Keyset.Time, from: Keyset.Time, end: Keyset.Time, later: Keyset.Time, changed: set<Id>)
    requires Scanned(table, since, from, end, changed) && end <= later
    ensures Scanned(table, since, from, later, changed)
  {
  }

  /** The source of the reader: eleven tables. */
  datatype Tables = Tables(
    orders: Versions<ProgressRefresh.Order>, lines: Versions<OrderLine>, items: Versions<Item>, plants: Versions<Plant>, boms: Versions<BomHead>,
    details: Versions<Detail>, routings: Versions<RoutingHead>, steps: Versions<ProgressRefresh.Step>, operations: Versions<seq<string>>,
    customers: Versions<Customer>, departments: Versions<seq<string>>)

  function RowsOf(s: Tables, t: Table): set<Version> {
    match t
    case SALES_ORDER_DOC => s.orders.rows case SALES_ORDER_DOC_D => s.lines.rows case ITEM => s.items.rows case ITEM_PLANT => s.plants.rows
    case BOM => s.boms.rows case BOM_D => s.details.rows case ITEM_ROUTING => s.routings.rows case ITEM_ROUTING_D => s.steps.rows
    case OPERATION => s.operations.rows case CUSTOMER => s.customers.rows case ADMIN_UNIT => s.departments.rows
  }

  /** Every table's newest mark, for scans from its watermark on. */
  ghost predicate AllNewest(s: Tables, marks: Option<Marks>, cutoff: Keyset.Time, end: Keyset.Time, newest: Marks) {
    forall t: Table :: IsNewest(RowsOf(s, t), SinceMark(marks, t), cutoff, end, newest(t))
  }

  function SinceMark(marks: Option<Marks>, t: Table): Option<Keyset.Time> {
    if marks.Some? then Some(Since(marks.value(t))) else None
  }

  /** One mark for each table. */
  datatype MarkList = MarkList(orders: Option<Mark>, lines: Option<Mark>, items: Option<Mark>, plants: Option<Mark>, boms: Option<Mark>, details: Option<Mark>, routings: Option<Mark>, steps: Option<Mark>, operations: Option<Mark>, customers: Option<Mark>, departments: Option<Mark>)

  function ToMarks(l: MarkList): (marks: Marks)
    ensures marks(SALES_ORDER_DOC) == l.orders
    ensures marks(SALES_ORDER_DOC_D) == l.lines
    ensures marks(ITEM) == l.items
    ensures marks(ITEM_PLANT) == l.plants
    ensures marks(BOM) == l.boms
    ensures marks(BOM_D) == l.details
    ensures marks(ITEM_ROUTING) == l.routings
    ensures marks(ITEM_ROUTING_D) == l.steps
    ensures marks(OPERATION) == l.operations
    ensures marks(CUSTOMER) == l.customers
    ensures marks(ADMIN_UNIT) == l.departments
  {
    (t: Table) => match t
      case SALES_ORDER_DOC => l.orders case SALES_ORDER_DOC_D => l.lines case ITEM => l.items case ITEM_PLANT => l.plants case BOM => l.boms
      case BOM_D => l.details case ITEM_ROUTING => l.routings case ITEM_ROUTING_D => l.steps case OPERATION => l.operations
      case CUSTOMER => l.customers case ADMIN_UNIT => l.departments
  }

  /** Marks taken one after the other are the newest ones at the end. */
  lemma NewestTogether(s: Tables, marks: Option<Marks>, cutoff: Keyset.Time, ends: seq<Keyset.Time>, newest: MarkList)
    requires Ends(ends, cutoff) && OnGrid(cutoff)
    requires IsNewest(s.orders.rows, SinceMark(marks, SALES_ORDER_DOC), cutoff, ends[0], newest.orders)
    requires IsNewest(s.lines.rows, SinceMark(marks, SALES_ORDER_DOC_D), cutoff, ends[1], newest.lines)
    requires IsNewest(s.items.rows, SinceMark(marks, ITEM), cutoff, ends[2], newest.items)
    requires IsNewest(s.plants.rows, SinceMark(marks, ITEM_PLANT), cutoff, ends[3], newest.plants)
    requires IsNewest(s.boms.rows, SinceMark(marks, BOM), cutoff, ends[4], newest.boms)
    requires IsNewest(s.details.rows, SinceMark(marks, BOM_D), cutoff, ends[5], newest.details)
    requires IsNewest(s.routings.rows, SinceMark(marks, ITEM_ROUTING), cutoff, ends[6], newest.routings)
    requires IsNewest(s.steps.rows, SinceMark(marks, ITEM_ROUTING_D), cutoff, ends[7], newest.steps)
    requires IsNewest(s.operations.rows, SinceMark(marks, OPERATION), cutoff, ends[8], newest.operations)
    requires IsNewest(s.customers.rows, SinceMark(marks, CUSTOMER), cutoff, ends[9], newest.customers)
    requires IsNewest(s.departments.rows, SinceMark(marks, ADMIN_UNIT), cutoff, ends[10], newest.departments)
    ensures AllNewest(s, marks, cutoff, ends[10], ToMarks(newest)) && MarksBehind(ToMarks(newest), cutoff)
  {
    hide IsNewest, SinceMark, ToMarks;
    NewestLater(s.orders.rows, SinceMark(marks, SALES_ORDER_DOC), cutoff, ends[0], ends[10], newest.orders);
    NewestLater(s.lines.rows, SinceMark(marks, SALES_ORDER_DOC_D), cutoff, ends[1], ends[10], newest.lines);
    NewestLater(s.items.rows, SinceMark(marks, ITEM), cutoff, ends[2], ends[10], newest.items);
    NewestLater(s.plants.rows, SinceMark(marks, ITEM_PLANT), cutoff, ends[3], ends[10], newest.plants);
    NewestLater(s.boms.rows, SinceMark(marks, BOM), cutoff, ends[4], ends[10], newest.boms);
    NewestLater(s.details.rows, SinceMark(marks, BOM_D), cutoff, ends[5], ends[10], newest.details);
    NewestLater(s.routings.rows, SinceMark(marks, ITEM_ROUTING), cutoff, ends[6], ends[10], newest.routings);
    NewestLater(s.steps.rows, SinceMark(marks, ITEM_ROUTING_D), cutoff, ends[7], ends[10], newest.steps);
    NewestLater(s.operations.rows, SinceMark(marks, OPERATION), cutoff, ends[8], ends[10], newest.operations);
    NewestLater(s.customers.rows, SinceMark(marks, CUSTOMER), cutoff, ends[9], ends[10], newest.customers);
    forall t: Table ensures IsNewest(RowsOf(s, t), SinceMark(marks, t), cutoff, ends[10], ToMarks(newest)(t)) {
    }
    forall t: Table | ToMarks(newest)(t).Some? ensures ToMarks(newest)(t).value.at <= cutoff {
      NewestIsBehind(RowsOf(s, t), SinceMark(marks, t), cutoff, ends[10], ToMarks(newest)(t));
    }
  }

  lemma NewestIsBehind(rows: set<Version>, since: Option<Keyset.Time>, cutoff: Keyset.Time, end: Keyset.Time, newest: Option<Mark>)
    requires IsNewest(rows, since, cutoff, end, newest) && OnGrid(cutoff)
    ensures newest.Some? ==> newest.value.at <= cutoff
  {
    if newest.Some? {
      var v :| v in rows && newest.value == MarkOf(v) && v.raw <= cutoff;
      QuantiseAgainstGrid(v.raw, cutoff);
    }
  }

  lemma AllNewestLater(s: Tables, marks: Option<Marks>, cutoff: Keyset.Time, end: Keyset.Time, later: Keyset.Time, newest: Marks)
    requires AllNewest(s, marks, cutoff, end, newest) && cutoff <= end <= later
    ensures AllNewest(s, marks, cutoff, later, newest)
  {
    hide IsNewest, SinceMark;
    forall t: Table ensures IsNewest(RowsOf(s, t), SinceMark(marks, t), cutoff, later, newest(t)) {
      NewestLater(RowsOf(s, t), SinceMark(marks, t), cutoff, end, later, newest(t));
    }
  }

  ghost predicate WellFormedTables(s: Tables) {
    && WellFormed(s.orders.rows) && WellFormed(s.lines.rows) && WellFormed(s.items.rows) && WellFormed(s.plants.rows)
    && WellFormed(s.boms.rows) && WellFormed(s.details.rows) && WellFormed(s.routings.rows) && WellFormed(s.steps.rows)
    && WellFormed(s.operations.rows) && WellFormed(s.customers.rows) && WellFormed(s.departments.rows)
  }

  ghost function HistoryOf(s: Tables): History {
    History(TableOf(s.orders), TableOf(s.lines), TableOf(s.items), TableOf(s.plants), TableOf(s.boms), TableOf(s.details),
            TableOf(s.routings), TableOf(s.steps), TableOf(s.operations), TableOf(s.customers), TableOf(s.departments))
  }

  lemma HistoryIsStamped(s: Tables)
    requires WellFormedTables(s)
    ensures WellStamped(HistoryOf(s))
  {
    hide WellFormed, StampedTable;
    TableIsStamped(s.orders);
    TableIsStamped(s.lines);
    TableIsStamped(s.items);
    TableIsStamped(s.plants);
    TableIsStamped(s.boms);
    TableIsStamped(s.details);
    TableIsStamped(s.routings);
    TableIsStamped(s.steps);
    TableIsStamped(s.operations);
    TableIsStamped(s.customers);
    TableIsStamped(s.departments);
  }

  /** The times at which the scans of the tables ended. */
  predicate Ends(ends: seq<Keyset.Time>, cutoff: Keyset.Time) {
    && |ends| == 11 && cutoff <= ends[0]
    && ends[0] <= ends[1] <= ends[2] <= ends[3] <= ends[4] <= ends[5] <= ends[6] <= ends[7] <= ends[8] <= ends[9] <= ends[10]
  }

  ghost predicate ScansAre(s: Tables, marks: Marks, cutoff: Keyset.Time, ends: seq<Keyset.Time>, c: ChangeLists, newest: MarkList)
    requires |ends| == 11
  {
    && ScanIs(s.orders, Since(marks(SALES_ORDER_DOC)), cutoff, ends[0], c.orders, newest.orders)
    && ScanIs(s.lines, Since(marks(SALES_ORDER_DOC_D)), cutoff, ends[1], c.lines, newest.lines)
    && ScanIs(s.items, Since(marks(ITEM)), cutoff, ends[2], c.items, newest.items)
    && ScanIs(s.plants, Since(marks(ITEM_PLANT)), cutoff, ends[3], c.plants, newest.plants)
    && ScanIs(s.boms, Since(marks(BOM)), cutoff, ends[4], c.boms, newest.boms)
    && ScanIs(s.details, Since(marks(BOM_D)), cutoff, ends[5], c.details, newest.details)
    && ScanIs(s.routings, Since(marks(ITEM_ROUTING)), cutoff, ends[6], c.routings, newest.routings)
    && ScanIs(s.steps, Since(marks(ITEM_ROUTING_D)), cutoff, ends[7], c.steps, newest.steps)
    && ScanIs(s.operations, Since(marks(OPERATION)), cutoff, ends[8], c.operations, newest.operations)
    && ScanIs(s.customers, Since(marks(CUSTOMER)), cutoff, ends[9], c.customers, newest.customers)
    && ScanIs(s.departments, Since(marks(ADMIN_UNIT)), cutoff, ends[10], c.departments, newest.departments)
  }

  /** Table after table is scanned, while all of them keep changing. */
  method ScanTables(s: Tables, marks: Marks, cutoff: Keyset.Time) returns (changes: ChangeLists, newest: MarkList, ends: seq<Keyset.Time>)
    requires WellFormedTables(s) && OnGrid(cutoff)
    ensures Ends(ends, cutoff) && ScansAre(s, marks, cutoff, ends, changes, newest)
  {
    hide WellFormed, ScanIs, Since;
    var orders, o, t0 := ScanTable(s.orders, marks(SALES_ORDER_DOC), cutoff, cutoff);
    var lines, l, t1 := ScanTable(s.lines, marks(SALES_ORDER_DOC_D), cutoff, t0);
    var items, i, t2 := ScanTable(s.items, marks(ITEM), cutoff, t1);
    var plants, p, t3 := ScanTable(s.plants, marks(ITEM_PLANT), cutoff, t2);
    var boms, b, t4 := ScanTable(s.boms, marks(BOM), cutoff, t3);
    var details, d, t5 := ScanTable(s.details, marks(BOM_D), cutoff, t4);
    var routings, r, t6 := ScanTable(s.routings, marks(ITEM_ROUTING), cutoff, t5);
    var steps, st, t7 := ScanTable(s.steps, marks(ITEM_ROUTING_D), cutoff, t6);
    var operations, op, t8 := ScanTable(s.operations, marks(OPERATION), cutoff, t7);
    var customers, c, t9 := ScanTable(s.customers, marks(CUSTOMER), cutoff, t8);
    var departments, dp, t10 := ScanTable(s.departments, marks(ADMIN_UNIT), cutoff, t9);
    changes := ChangeLists(orders, lines, items, plants, boms, details, routings, steps, operations, customers, departments);
    newest := MarkList(o, l, i, p, b, d, r, st, op, c, dp);
    ends := [t0, t1, t2, t3, t4, t5, t6, t7, t8, t9, t10];
  }

  lemma ScannedTogether(s: Tables, marks: Marks, cutoff: Keyset.Time, ends: seq<Keyset.Time>, changes: ChangeLists, newest: MarkList)
    requires Ends(ends, cutoff) && ScansAre(s, marks, cutoff, ends, changes, newest)
    ensures AllScanned(HistoryOf(s), marks, cutoff, ends[10], ToChanges(changes))
  {
    hide Scanned, TableOf, Values, IsNewest;
    ScannedLater(TableOf(s.orders), Since(marks(SALES_ORDER_DOC)), cutoff, ends[0], ends[10], Values(changes.orders));
    ScannedLater(TableOf(s.lines), Since(marks(SALES_ORDER_DOC_D)), cutoff, ends[1], ends[10], Values(changes.lines));
    ScannedLater(TableOf(s.items), Since(marks(ITEM)), cutoff, ends[2], ends[10], Values(changes.items));
    ScannedLater(TableOf(s.plants), Since(marks(ITEM_PLANT)), cutoff, ends[3], ends[10], Values(changes.plants));
    ScannedLater(TableOf(s.boms), Since(marks(BOM)), cutoff, ends[4], ends[10], Values(changes.boms));
    ScannedLater(TableOf(s.details), Since(marks(BOM_D)), cutoff, ends[5], ends[10], Values(changes.details));
    ScannedLater(TableOf(s.routings), Since(marks(ITEM_ROUTING)), cutoff, ends[6], ends[10], Values(changes.routings));
    ScannedLater(TableOf(s.steps), Since(marks(ITEM_ROUTING_D)), cutoff, ends[7], ends[10], Values(changes.steps));
    ScannedLater(TableOf(s.operations), Since(marks(OPERATION)), cutoff, ends[8], ends[10], Values(changes.operations));
    ScannedLater(TableOf(s.customers), Since(marks(CUSTOMER)), cutoff, ends[9], ends[10], Values(changes.customers));
  }

  lemma NewestOfScans(s: Tables, marks: Marks, cutoff: Keyset.Time, ends: seq<Keyset.Time>, changes: ChangeLists, newest: MarkList)
    requires Ends(ends, cutoff) && OnGrid(cutoff) && ScansAre(s, marks, cutoff, ends, changes, newest)
    ensures AllNewest(s, Some(marks), cutoff, ends[10], ToMarks(newest)) && MarksBehind(ToMarks(newest), cutoff)
  {
    hide Scanned, TableOf, Values, IsNewest, AllNewest, MarksBehind, ToMarks;
    NewestTogether(s, Some(marks), cutoff, ends, newest);
  }

  /** The first loop of read_bundle: what it reports of the rows at rest, and the newest mark of each table. */
  method ReadChanges(s: Tables, marks: Marks, cutoff: Keyset.Time) returns (changes: ChangeLists, newest: Marks, end: Keyset.Time)
    requires WellFormedTables(s) && OnGrid(cutoff)
    ensures cutoff <= end && AllScanned(HistoryOf(s), marks, cutoff, end, ToChanges(changes))
    ensures MarksBehind(newest, cutoff) && AllNewest(s, Some(marks), cutoff, end, newest)
  {
    hide WellFormedTables, ScansAre, AllScanned, AllNewest, MarksBehind, HistoryOf, ToChanges;
    var list, ends;
    changes, list, ends := ScanTables(s, marks, cutoff);
    newest := ToMarks(list);
    end := ends[10];
    ScannedTogether(s, marks, cutoff, ends, changes, list);
    NewestOfScans(s, marks, cutoff, ends, changes, list);
  }
}
