/** Where a promise of the synchroniser has a condition: the exact condition, and a run that shows it is needed. */
module OrderSyncConditions {
  import opened Wrappers
  import opened Keyset
  import opened OrderSync
  import opened OrderSyncProofs
  import opened OrderSyncTheorems
  import opened OrderSyncClient

  // ----- From which stamp on nothing is lost -----

  /** What the next incremental scan would start from, less the overlap. */
  function Anchor(w: World, kind: Kind, now: Time): Time {
    var s := StartRun(w.server, kind, now);
    Boundary(s, s.running[kind].upper) - OVERLAP
  }

  /** The floor moves only when an incremental run begins although no scan has ever finished, and the anchor of that
      run is later. */
  lemma FloorMovesExactly(h: set<Version>, stream: Stream, w: World, step: Step)
    requires Enabled(h, stream, w, step)
    ensures Next(h, stream, w, step).floor != w.floor <==> RaisesFloor(w, step)
  {
  }

  predicate RaisesFloor(w: World, step: Step) {
    && step.Begin? && step.kind != Initialization && w.server.cursor.lastUpper.None?
    && (w.floor.None? || w.floor.value < Anchor(w, step.kind, step.now))
  }

  /** A finished scan, or a snapshot that the floor has come to, ends that. */
  predicate FloorIsFixed(w: World) {
    && w.floor.Some?
    && (w.server.cursor.lastUpper.Some? || w.server.snapshot == Some(w.floor.value + OVERLAP))
  }

  lemma StepKeepsFloor(h: set<Version>, stream: Stream, w: World, step: Step)
    requires FloorIsFixed(w) && Enabled(h, stream, w, step)
    ensures FloorIsFixed(Next(h, stream, w, step)) && Next(h, stream, w, step).floor == w.floor
  {
  }

  lemma {:induction false} RunsKeepFloor(h: set<Version>, stream: Stream, w: World, steps: seq<Step>, w': World)
    requires FloorIsFixed(w) && Reaches(h, stream, w, steps, w')
    ensures FloorIsFixed(w') && w'.floor == w.floor
    decreases |steps|
  {
    if steps != [] {
      StepKeepsFloor(h, stream, w, steps[0]);
      RunsKeepFloor(h, stream, Next(h, stream, w, steps[0]), steps[1..], w');
    }
  }

  /** Once a scan has finished, its stamp floor is the one that counts for good: whatever happens afterwards, no row
      stamped from there on is lost. */
  lemma NoLostUpdateFromFixedFloor(h: set<Version>, stream: Stream, before: seq<Step>, w0: World, steps: seq<Step>, w: World, v: Version)
    requires WellFormed(h) && Reaches(h, stream, EMPTY_WORLD, before, w0) && FloorIsFixed(w0) && Reaches(h, stream, w0, steps, w)
    requires w.completed.Some? && v.visibleAt <= w.completed.value && Current(h, v, w.clock)
    requires w0.floor.value <= Stamp(v)
    ensures v.id in w.server.staged
    ensures var r := w.server.staged[v.id];
      r.business == v.business && r.open == v.open && r.content == v.content && r.stamp in {Truncate(v.raw), Quantise(v.raw)}
  {
    EmptyWorldInvariant(h, stream);
    RunsKeepInvariant(h, stream, EMPTY_WORLD, before, w0);
    RunsKeepInvariant(h, stream, w0, steps, w);
    RunsKeepFloor(h, stream, w0, steps, w);
  }

  /** The first compensation after an inventory fixes the floor at the snapshot less the overlap. */
  lemma CompensationFixesFloor(h: set<Version>, stream: Stream, w: World, now: Time)
    requires Invariant(h, stream, w) && Enabled(h, stream, w, Begin(Compensation, now))
    ensures FloorIsFixed(Next(h, stream, w, Begin(Compensation, now)))
  {
  }

  /** A source that is only ever scanned incrementally and whose first run fails: the second run starts from its own
      time, and what was stamped between the two anchors is lost although the second run completes. */
  lemma FailedFirstScanLosesRows() returns (h: set<Version>, v: Version, first: seq<Step>, w1: World, rest: seq<Step>, w: World)
    ensures WellFormed(h) && Reaches(h, Inventory, EMPTY_WORLD, first, w1) && Reaches(h, Inventory, w1, rest, w)
    ensures w1.floor == Some(OVERLAP) && w.floor == Some(4 * OVERLAP)
    ensures w.completed.Some? && v.visibleAt <= w.completed.value && Current(h, v, w.clock) && OVERLAP <= Stamp(v)
    ensures v.id !in w.server.staged
  {
    hide Reaches;
    v := Version(1, 0, 3 * OVERLAP, 3 * OVERLAP, 0, true, 0);
    h := {v};
    Start(h, Inventory, EMPTY_WORLD);
    first, w1 := Onward(h, Inventory, EMPTY_WORLD, [], EMPTY_WORLD, Begin(Incremental, 2 * OVERLAP));
    Start(h, Inventory, w1);
    var w2, w3, w4;
    rest, w2 := Onward(h, Inventory, w1, [], w1, Fail);
    rest, w3 := Onward(h, Inventory, w1, rest, w2, Begin(Incremental, 5 * OVERLAP));
    assert w3.session.value.page == Key(4 * OVERLAP, MIN_PK);
    assert Window(h, SweepOf(Inventory, w3, w3.session.value), 5 * OVERLAP, w3.session.value.page) == {};
    rest, w4 := Onward(h, Inventory, w1, rest, w3, Page(5 * OVERLAP, []));
    rest, w := Onward(h, Inventory, w1, rest, w4, Complete);
  }

  lemma Onward(h: set<Version>, stream: Stream, w: World, steps: seq<Step>, w1: World, step: Step) returns (steps': seq<Step>, w2: World)
    requires Reaches(h, stream, w, steps, w1) && Enabled(h, stream, w1, step)
    ensures w2 == Next(h, stream, w1, step) && Reaches(h, stream, w, steps', w2)
  {
    steps', w2 := steps + [step], Next(h, stream, w1, step);
    ReachesStep(h, stream, w, steps, w1, step);
  }

  // ----- When a stamp goes back -----

  /** A row scanned by an incremental run before there was an inventory, and read again, unchanged, by the inventory. */
  lemma InventoryLowersStamp() returns (h: set<Version>, v: Version, steps: seq<Step>, w: World, again: Step)
    ensures WellFormed(h) && Reaches(h, Inventory, EMPTY_WORLD, steps, w) && Enabled(h, Inventory, w, again)
    ensures var w' := Next(h, Inventory, w, again);
            && w.server.staged.Keys == {v.id} && IsStaged(w.server.staged, v)
            && w'.server.staged.Keys == {v.id} && IsStaged(w'.server.staged, v)
            && w'.server.staged[v.id].stamp == w.server.staged[v.id].stamp - MICROSECOND
  {
    hide Reaches;
    v := Version(1, 0, 2 * OVERLAP - 3, 2 * OVERLAP - 3, 0, true, 0);
    h := {v};
    var before;
    steps, before := ScannedFirst(h, v);
    hide Enabled, Next;
    steps, w, again := InventoriedThen(h, v, steps, before);
  }

  lemma ScannedFirst(h: set<Version>, v: Version) returns (steps: seq<Step>, w: World)
    requires v == Version(1, 0, 2 * OVERLAP - 3, 2 * OVERLAP - 3, 0, true, 0) && h == {v}
    ensures Reaches(h, Inventory, EMPTY_WORLD, steps, w) && w.clock == 2 * OVERLAP && w.session.None?
    ensures w.server.staged == map[v.id := RecordOf(Incremental, v)]
    ensures Initialization !in w.server.running && w.server.snapshot.None? && w.server.initCursor.None?
    ensures forall after :: InitializationBatch(after) !in w.server.ledger
  {
    hide Reaches;
    var w1, w2;
    Start(h, Inventory, EMPTY_WORLD);
    steps, w1 := Onward(h, Inventory, EMPTY_WORLD, [], EMPTY_WORLD, Begin(Incremental, 2 * OVERLAP));
    assert Window(h, SweepOf(Inventory, w1, w1.session.value), 2 * OVERLAP, w1.session.value.page) == {v};
    steps, w2 := Onward(h, Inventory, EMPTY_WORLD, steps, w1, Page(2 * OVERLAP, [v]));
    SingleUpsert(map[], Incremental, v);
    steps, w := Onward(h, Inventory, EMPTY_WORLD, steps, w2, Complete);
  }

  lemma InventoriedThen(h: set<Version>, v: Version, steps: seq<Step>, w: World) returns (steps': seq<Step>, w1: World, again: Step)
    requires v == Version(1, 0, 2 * OVERLAP - 3, 2 * OVERLAP - 3, 0, true, 0) && h == {v}
    requires Reaches(h, Inventory, EMPTY_WORLD, steps, w) && w.clock == 2 * OVERLAP && w.session.None?
    requires Initialization !in w.server.running && w.server.snapshot.None? && w.server.initCursor.None?
    requires forall after :: InitializationBatch(after) !in w.server.ledger
    ensures Reaches(h, Inventory, EMPTY_WORLD, steps', w1) && Enabled(h, Inventory, w1, again)
    ensures w1.server.staged == w.server.staged
    ensures Next(h, Inventory, w1, again).server.staged == w.server.staged[v.id := RecordOf(Initialization, v)]
  {
    hide Reaches;
    steps', w1 := Onward(h, Inventory, EMPTY_WORLD, steps, w, Begin(Initialization, 3 * OVERLAP));
    assert Window(h, SweepOf(Inventory, w1, w1.session.value), 3 * OVERLAP, w1.session.value.page) == {v};
    again := Page(3 * OVERLAP, [v]);
    SingleUpsert(w1.server.staged, Initialization, v);
  }

  lemma SingleUpsert(staged: map<int, Record>, kind: Kind, v: Version)
    ensures Upsert(staged, kind, [v]) == staged[v.id := RecordOf(kind, v)]
  {
    assert [v][..0] == [];
    assert Upsert(staged, kind, []) == staged;
  }

  // ----- When a source counts as initialised -----

  /** One session of a scan, from its first page to its end. */
  lemma {:induction false} ScanKeepsInventory(h: set<Version>, stream: Stream, w: World, steps: seq<Step>, w': World)
    requires w.session.Some? && w.session.value.kind != Initialization && Reaches(h, stream, w, steps, w')
    requires PagesThenComplete(steps)
    ensures w'.inventoried == w.inventoried && w'.server.initialized
    decreases |steps|
  {
    if |steps| > 1 {
      assert steps[0].Page?;
      ScanKeepsInventory(h, stream, Next(h, stream, w, steps[0]), steps[1..], w');
    } else {
      assert steps[1..] == [];
    }
  }

  predicate PagesThenComplete(steps: seq<Step>) {
    && steps != [] && steps[|steps| - 1] == Complete
    && forall i :: 0 <= i < |steps| - 1 ==> steps[i].Page?
  }

  /** An incremental scan that completes leaves a source that counts as initialised; it is one, in the sense that
      everything was inventoried, exactly if it was inventoried before. */
  lemma IncrementalInitializesExactly(h: set<Version>, stream: Stream, w: World, steps: seq<Step>, w': World)
    requires w.session.None? && Reaches(h, stream, w, steps, w') && |steps| > 1
    requires steps[0].Begin? && steps[0].kind == Incremental && PagesThenComplete(steps[1..])
    ensures w'.server.initialized
    ensures (w'.server.initialized ==> w'.inventoried) <==> w.inventoried
  {
    ScanKeepsInventory(h, stream, Next(h, stream, w, steps[0]), steps[1..], w');
  }

  // ----- The stored bound -----

  /** A page lowers the stored bound of the last scan exactly if it ends a scan whose own bound is older. */
  lemma BoundGoesBackExactly(h: set<Version>, stream: Stream, w: World, readAt: Time, rows: seq<Version>)
    requires WellFormed(h) && Invariant(h, stream, w) && Enabled(h, stream, w, Page(readAt, rows)) && w.session.value.kind != Initialization
    ensures var before, after := w.server.cursor.lastUpper, Next(h, stream, w, Page(readAt, rows)).server.cursor.lastUpper;
      before.Some? && (after.None? || after.value < before.value)
      <==> before.Some? && |rows| < LIMIT && w.session.value.bound < before.value
  {
    PagesPassEveryGuard(h, stream, w, readAt, rows);
  }

  /** It happens: a crashed incremental run is resumed after a compensation with a later bound has finished. */
  lemma StoredBoundGoesBack() returns (steps: seq<Step>, w: World, w': World, page: Step)
    ensures Reaches({}, Inventory, EMPTY_WORLD, steps, w) && Enabled({}, Inventory, w, page) && w' == Next({}, Inventory, w, page)
    ensures w.server.cursor.lastUpper == Some(40) && w'.server.cursor.lastUpper == Some(10)
  {
    hide Reaches, Enabled, Next, StartRun;
    var w5, w8;
    steps, w5 := InventoriedAfterCrash();
    steps, w8 := CompensatedAt40(steps, w5);
    steps, w, page, w' := ResumedAt60(steps, w8);
  }

  /** An incremental run with bound 10 crashes; then the source is inventoried at 20. */
  lemma InventoriedAfterCrash() returns (steps: seq<Step>, w: World)
    ensures Reaches({}, Inventory, EMPTY_WORLD, steps, w)
    ensures w.session.None? && w.clock == 20 && w.inventoried && w.server.ledger == {InitializationBatch(Key(MIN_BUSINESS_DATE, MIN_PK))}
    ensures w.server.running == map[Incremental := Run(0, 10, 0)] && w.server.nextRun == 2
    ensures w.server.snapshot == Some(20) && w.server.cursor == Cursor(None, None, None, None)
  {
    hide Reaches;
    var empty: set<Version> := {};
    var w1, w2, w3, w4;
    assert Reaches(empty, Inventory, EMPTY_WORLD, [], EMPTY_WORLD) by { Start(empty, Inventory, EMPTY_WORLD); }
    steps, w1 := Onward(empty, Inventory, EMPTY_WORLD, [], EMPTY_WORLD, Begin(Incremental, 10));
    steps, w2 := Onward(empty, Inventory, EMPTY_WORLD, steps, w1, Crash);
    steps, w3 := Onward(empty, Inventory, EMPTY_WORLD, steps, w2, Begin(Initialization, 20));
    assert Window(empty, SweepOf(Inventory, w3, w3.session.value), 20, w3.session.value.page) == {};
    steps, w4 := Onward(empty, Inventory, EMPTY_WORLD, steps, w3, Page(20, []));
    steps, w := Onward(empty, Inventory, EMPTY_WORLD, steps, w4, Complete);
  }

  lemma Start(h: set<Version>, stream: Stream, w: World)
    ensures Reaches(h, stream, w, [], w)
  {
  }

  lemma CompensatedAt40(steps: seq<Step>, w: World) returns (steps': seq<Step>, w': World)
    requires Reaches({}, Inventory, EMPTY_WORLD, steps, w) && w.session.None? && w.clock == 20 && w.inventoried
    requires w.server.ledger == {InitializationBatch(Key(MIN_BUSINESS_DATE, MIN_PK))}
    requires w.server.running == map[Incremental := Run(0, 10, 0)] && w.server.nextRun == 2
    requires w.server.snapshot == Some(20) && w.server.cursor == Cursor(None, None, None, None)
    ensures Reaches({}, Inventory, EMPTY_WORLD, steps', w') && w'.session.None? && w'.clock == 40
    ensures w'.server.running == map[Incremental := Run(0, 10, 0)] && w'.server.cursor.lastUpper == Some(40)
    ensures w'.server.cursor.activeRun == None && IncrementalBatch(Incremental, 10, 1) !in w'.server.ledger
  {
    hide Reaches;
    var empty: set<Version> := {};
    var w1, w2;
    steps', w1 := Onward(empty, Inventory, EMPTY_WORLD, steps, w, Begin(Compensation, 40));
    assert Window(empty, SweepOf(Inventory, w1, w1.session.value), 40, w1.session.value.page) == {};
    steps', w2 := Onward(empty, Inventory, EMPTY_WORLD, steps', w1, Page(40, []));
    steps', w' := Onward(empty, Inventory, EMPTY_WORLD, steps', w2, Complete);
  }

  lemma ResumedAt60(steps: seq<Step>, w: World) returns (steps': seq<Step>, w1: World, page: Step, w2: World)
    requires Reaches({}, Inventory, EMPTY_WORLD, steps, w) && w.session.None? && w.clock == 40
    requires w.server.running == map[Incremental := Run(0, 10, 0)] && w.server.cursor.lastUpper == Some(40)
    requires w.server.cursor.activeRun == None && IncrementalBatch(Incremental, 10, 1) !in w.server.ledger
    ensures Reaches({}, Inventory, EMPTY_WORLD, steps', w1) && Enabled({}, Inventory, w1, page) && w2 == Next({}, Inventory, w1, page)
    ensures w1.server.cursor.lastUpper == Some(40) && w2.server.cursor.lastUpper == Some(10)
  {
    hide Reaches;
    var empty: set<Version> := {};
    steps', w1 := Onward(empty, Inventory, EMPTY_WORLD, steps, w, Begin(Incremental, 60));
    assert Window(empty, SweepOf(Inventory, w1, w1.session.value), 60, w1.session.value.page) == {};
    page := Page(60, []);
    w2 := Next(empty, Inventory, w1, page);
  }
}
