/** What the synchroniser promises over every run, and where a promise has a condition. */
module OrderSyncTheorems {
  import opened Wrappers
  import opened Keyset
  import opened OrderSync
  import opened OrderSyncProofs

  lemma EmptyWorldInvariant(h: set<Version>, stream: Stream)
    ensures Invariant(h, stream, EMPTY_WORLD)
  {
  }

  // ----- No lost update -----

  /**
   Once any scan with bound U has completed, a row that was visible at U and has not changed since is
   staged exactly as it stands, from the floor of the first scan on.
   */
  lemma NoLostUpdate(h: set<Version>, stream: Stream, steps: seq<Step>, w: World, v: Version)
    requires WellFormed(h) && Reaches(h, stream, EMPTY_WORLD, steps, w)
    requires w.completed.Some? && v.visibleAt <= w.completed.value && Current(h, v, w.clock)
    requires w.floor.Some? && w.floor.value <= Stamp(v)
    ensures v.id in w.server.staged
    ensures var r := w.server.staged[v.id];
      r.business == v.business && r.open == v.open && r.content == v.content && r.stamp in {Truncate(v.raw), Quantise(v.raw)}
  {
    EmptyWorldInvariant(h, stream);
    RunsKeepInvariant(h, stream, EMPTY_WORLD, steps, w);
  }

  /** A row stamped below the floor was visible when the snapshot was taken. */
  lemma BelowFloorWasInventoried(h: set<Version>, stream: Stream, w: World, v: Version)
    requires WellFormed(h) && TimesInvariant(w) && w.inventoried && v in h
    requires w.floor.Some? && Stamp(v) < w.floor.value
    ensures v.visibleAt <= w.server.snapshot.value
  {
    QuantiseAgainstGrid(v.raw, w.server.snapshot.value - OVERLAP);
  }

  /** After initialisation and a completed scan, the floor is gone: every row in scope is staged as it stands. */
  lemma InitializationReachesSource(h: set<Version>, stream: Stream, steps: seq<Step>, w: World, v: Version)
    requires WellFormed(h) && Reaches(h, stream, EMPTY_WORLD, steps, w)
    requires w.inventoried && w.completed.Some?
    requires v.visibleAt <= w.completed.value && Current(h, v, w.clock)
    requires stream == Inventory || START <= v.business <= w.server.snapshot.GetOr(0) || (v.business < START && v.open)
    requires stream == Orders ==> MIN_BUSINESS_DATE <= v.business
    ensures v.id in w.server.staged
    ensures var r := w.server.staged[v.id];
      r.business == v.business && r.open == v.open && r.content == v.content && r.stamp in {Truncate(v.raw), Quantise(v.raw)}
  {
    EmptyWorldInvariant(h, stream);
    RunsKeepInvariant(h, stream, EMPTY_WORLD, steps, w);
    assert CoverageInvariant(h, stream, w);
    if Stamp(v) < w.floor.value {
      BelowFloorWasInventoried(h, stream, w, v);
      assert Wanted(Inventoried(stream, w.server.snapshot.value), v);
    } else {
      assert Wanted(Changes(w.floor, w.completed.value), v);
    }
  }

  // ----- What a page is, and that nothing else is staged -----

  /** The row as a READ COMMITTED statement at time t finds it. */
  ghost predicate ReadAs(h: set<Version>, v: Version, t: Time) {
    v in h && v.visibleAt <= t && forall w <- h :: w.id == v.id && w.visibleAt <= t ==> w.number <= v.number
  }

  /** A scan page holds rows stamped after the cursor and by the bound, in that order, and if it is not full all of them. */
  lemma ScanPageIsExact(h: set<Version>, stream: Stream, w: World, readAt: Time, rows: seq<Version>)
    requires Enabled(h, stream, w, Page(readAt, rows)) && w.session.value.kind != Initialization
    ensures forall i, j :: 0 <= i < j < |rows| ==> Quantise(rows[i].raw) < Quantise(rows[j].raw) || (Quantise(rows[i].raw) == Quantise(rows[j].raw) && rows[i].id < rows[j].id)
    ensures forall v <- rows :: ReadAs(h, v, readAt) && InScanRange(w.session.value, v)
    ensures |rows| < LIMIT ==> forall v <- h :: ReadAs(h, v, readAt) && InScanRange(w.session.value, v) ==> v in rows
  {
  }

  predicate InScanRange(c: Session, v: Version) {
    && Quantise(v.raw) <= c.bound
    && (c.page.time < Quantise(v.raw) || (c.page.time == Quantise(v.raw) && c.page.pk < v.id))
  }

  /** A scan page moves the page cursor and the last processed row to its last row; without rows both stand where the
      session last was.  The bound is stored with the page that ends the scan. */
  lemma ScanPageMovesCursor(h: set<Version>, stream: Stream, w: World, readAt: Time, rows: seq<Version>)
    requires WellFormed(h) && Invariant(h, stream, w) && Enabled(h, stream, w, Page(readAt, rows)) && w.session.value.kind != Initialization
    ensures var c, before, after := w.session.value, w.server.cursor, Next(h, stream, w, Page(readAt, rows)).server.cursor;
      && after.activeRun == Some(c.runId)
      && after.lastUpper == (if |rows| < LIMIT then Some(c.bound) else before.lastUpper)
      && (rows != [] ==>
            var last := Key(Quantise(rows[|rows| - 1].raw), rows[|rows| - 1].id);
            after.activePage == Some(last) && after.lastProcessed == Some(last))
      && (rows == [] ==> after.activePage == c.lastActual && after.lastProcessed == if c.lastActual.Some? then c.lastActual else before.lastProcessed)
  {
    PagesPassEveryGuard(h, stream, w, readAt, rows);
  }

  /** An initialisation page holds rows of the scope after the cursor: by business date for orders, by key for the rest. */
  lemma InitializationPageIsExact(h: set<Version>, stream: Stream, w: World, readAt: Time, rows: seq<Version>)
    requires Invariant(h, stream, w) && Enabled(h, stream, w, Page(readAt, rows)) && w.session.value.kind == Initialization
    ensures forall v <- rows :: ReadAs(h, v, readAt) && IsOpenOrRecent(stream, v, w.server.snapshot) && InInventoryRange(stream, w.session.value, v)
    ensures |rows| < LIMIT ==>
      forall v <- h :: ReadAs(h, v, readAt) && IsOpenOrRecent(stream, v, w.server.snapshot) && InInventoryRange(stream, w.session.value, v) ==> v in rows
  {
  }

  /** The initial scope, with the snapshot the server keeps. */
  predicate IsOpenOrRecent(stream: Stream, v: Version, snapshot: Option<Time>) {
    stream == Inventory || (snapshot.Some? && START <= v.business <= snapshot.value) || (v.business < START && v.open)
  }

  predicate InInventoryRange(stream: Stream, c: Session, v: Version) {
    if stream == Orders then c.page.time < v.business || (c.page.time == v.business && c.page.pk < v.id)
    else c.page.time < MIN_BUSINESS_DATE || (c.page.time == MIN_BUSINESS_DATE && c.page.pk < v.id)
  }

  /** Staging holds rows of the scope only, each as it was at some time. */
  ghost predicate StagesOnlyScope(h: set<Version>, stream: Stream, staged: map<int, Record>, snapshot: Option<Time>) {
    forall id <- staged :: exists v <- h :: v.id == id && IsStaged(staged, v) && IsOpenOrRecent(stream, v, snapshot)
  }

  /** As long as no scan begins, nothing outside the scope is staged. */
  lemma {:induction false} InventoryStagesOnlyScope(h: set<Version>, stream: Stream, w: World, steps: seq<Step>, w': World)
    requires WellFormed(h) && Invariant(h, stream, w) && Reaches(h, stream, w, steps, w')
    requires StagesOnlyScope(h, stream, w.server.staged, w.server.snapshot)
    requires w.session.Some? ==> w.session.value.kind == Initialization
    requires forall step <- steps :: step.Begin? ==> step.kind == Initialization
    ensures StagesOnlyScope(h, stream, w'.server.staged, w'.server.snapshot)
    decreases |steps|
  {
    if steps != [] {
      StepKeepsInvariant(h, stream, w, steps[0]);
      StepStagesOnlyScope(h, stream, w, steps[0]);
      hide Invariant, StagesOnlyScope, WellFormed;
      InventoryStagesOnlyScope(h, stream, Next(h, stream, w, steps[0]), steps[1..], w');
    }
  }

  lemma StepStagesOnlyScope(h: set<Version>, stream: Stream, w: World, step: Step)
    requires WellFormed(h) && Invariant(h, stream, w) && Enabled(h, stream, w, step)
    requires StagesOnlyScope(h, stream, w.server.staged, w.server.snapshot)
    requires (w.session.Some? ==> w.session.value.kind == Initialization) && (step.Begin? ==> step.kind == Initialization)
    ensures var w' := Next(h, stream, w, step); StagesOnlyScope(h, stream, w'.server.staged, w'.server.snapshot)
  {
    hide IsStaged, IsRecordOf;
    if step.Page? {
      CommitIsApplied(h, stream, w, step.readAt, step.rows);
      InitializationPageIsExact(h, stream, w, step.readAt, step.rows);
      UpsertOnlyScope(h, stream, w.server.staged, w.server.snapshot, step.rows);
    }
  }

  lemma {:induction false} UpsertOnlyScope(h: set<Version>, stream: Stream, staged: map<int, Record>, snapshot: Option<Time>, rows: seq<Version>)
    requires StagesOnlyScope(h, stream, staged, snapshot)
    requires forall r <- rows :: r in h && IsOpenOrRecent(stream, r, snapshot)
    ensures StagesOnlyScope(h, stream, Upsert(staged, Initialization, rows), snapshot)
  {
    if rows != [] {
      var last, before := rows[|rows| - 1], Upsert(staged, Initialization, rows[..|rows| - 1]);
      var after := Upsert(staged, Initialization, rows);
      UpsertOnlyScope(h, stream, staged, snapshot, rows[..|rows| - 1]);
      forall id | id in after ensures exists v <- h :: v.id == id && IsStaged(after, v) && IsOpenOrRecent(stream, v, snapshot) {
        if id == last.id {
          assert last in rows && IsStaged(after, last);
        } else {
          var v :| v in h && v.id == id && IsStaged(before, v) && IsOpenOrRecent(stream, v, snapshot);
          assert IsStaged(after, v);
        }
      }
    }
  }

  // ----- Staging never goes back -----

  /** A row is staged at least as new as v. */
  ghost predicate StagedFrom(h: set<Version>, t: Time, staged: map<int, Record>, v: Version) {
    exists v' <- h :: v'.id == v.id && v.number <= v'.number && v'.visibleAt <= t && IsStaged(staged, v')
  }

  /** A page changes a staged record only by putting the row it read in its place. */
  lemma {:induction false} UpsertAt(h: set<Version>, t: Time, staged: map<int, Record>, kind: Kind, rows: seq<Version>, id: int)
    requires WellFormed(h) && id in staged && forall r <- rows :: Current(h, r, t)
    ensures id in Upsert(staged, kind, rows)
    ensures (forall r <- rows :: r.id != id) ==> Upsert(staged, kind, rows)[id] == staged[id]
    ensures forall r <- rows :: r.id == id ==> Upsert(staged, kind, rows)[id] == RecordOf(kind, r)
  {
    if rows != [] {
      var last := rows[|rows| - 1];
      assert rows == rows[..|rows| - 1] + [last];
      UpsertAt(h, t, staged, kind, rows[..|rows| - 1], id);
      if last.id == id {
        forall r <- rows | r.id == id ensures r == last {
          CurrentIsUnique(h, r, last, t);
        }
      }
    }
  }

  /** Over any run a staged row is never replaced by an earlier state of it. */
  lemma {:induction false} StagedNeverRegresses(h: set<Version>, stream: Stream, w: World, steps: seq<Step>, w': World, v: Version)
    requires WellFormed(h) && Invariant(h, stream, w) && Reaches(h, stream, w, steps, w')
    requires v in h && v.visibleAt <= w.clock && IsStaged(w.server.staged, v)
    ensures StagedFrom(h, w'.clock, w'.server.staged, v)
    decreases |steps|
  {
    if steps != [] {
      var w1 := Next(h, stream, w, steps[0]);
      StepKeepsInvariant(h, stream, w, steps[0]);
      StepNeverRegresses(h, stream, w, steps[0], v);
      var v1 :| v1 in h && v1.id == v.id && v.number <= v1.number && v1.visibleAt <= w1.clock && IsStaged(w1.server.staged, v1);
      StagedNeverRegresses(h, stream, w1, steps[1..], w', v1);
    }
  }

  lemma StepNeverRegresses(h: set<Version>, stream: Stream, w: World, step: Step, v: Version)
    requires WellFormed(h) && Invariant(h, stream, w) && Enabled(h, stream, w, step)
    requires v in h && v.visibleAt <= w.clock && IsStaged(w.server.staged, v)
    ensures StagedFrom(h, Next(h, stream, w, step).clock, Next(h, stream, w, step).server.staged, v)
  {
    if step.Page? {
      CommitIsApplied(h, stream, w, step.readAt, step.rows);
      UpsertAt(h, step.readAt, w.server.staged, w.session.value.kind, step.rows, v.id);
    }
  }

  /** So its stamp loses a microsecond at most. */
  lemma StampLosesAtMostMicrosecond(h: set<Version>, stream: Stream, w: World, steps: seq<Step>, w': World, id: int)
    requires WellFormed(h) && Invariant(h, stream, w) && Reaches(h, stream, w, steps, w')
    requires id in w.server.staged
    ensures id in w'.server.staged && w.server.staged[id].stamp - MICROSECOND <= w'.server.staged[id].stamp
  {
    var v :| v in h && v.id == id && v.visibleAt <= w.clock && IsStaged(w.server.staged, v);
    StagedNeverRegresses(h, stream, w, steps, w', v);
    hide Invariant, Reaches, Current, IsRecordOf;
    var v' :| v' in h && v'.id == v.id && v.number <= v'.number && v'.visibleAt <= w'.clock && IsStaged(w'.server.staged, v');
    RecordsInOrder(w.server.staged[id], v, w'.server.staged[id], v');
  }

  lemma RecordsInOrder(a: Record, v: Version, b: Record, v': Version)
    requires v.raw <= v'.raw && IsRecordOf(a, v) && IsRecordOf(b, v')
    ensures a.stamp - MICROSECOND <= b.stamp
  {
    TruncateAgainstQuantise(v.raw, v'.raw);
  }

  lemma TruncateAgainstQuantise(a: Time, b: Time)
    requires a <= b
    ensures Truncate(a) <= Truncate(b) <= Quantise(b) && Quantise(a) <= Quantise(b) && Quantise(a) <= Truncate(b) + MICROSECOND
    ensures Truncate(b) < Quantise(a) ==> Quantise(a) == Quantise(b)
  {
  }

  /** A step reads again, in an initialisation page, a row staged with a stamp that the cast rounds up. */
  predicate ReadsRoundedUp(w: World, step: Step, id: int)
    requires id in w.server.staged
  {
    && step.Page? && w.session.Some? && w.session.value.kind == Initialization
    && exists r <- step.rows :: r.id == id && Truncate(r.raw) < Stamp(r) == w.server.staged[id].stamp
  }

  /** A step lowers a staged stamp exactly if it is such a step. */
  lemma StampFallsExactly(h: set<Version>, stream: Stream, w: World, step: Step, id: int)
    requires WellFormed(h) && Invariant(h, stream, w) && Enabled(h, stream, w, step) && id in w.server.staged
    ensures var after := Next(h, stream, w, step).server.staged;
            id in after && (after[id].stamp < w.server.staged[id].stamp <==> ReadsRoundedUp(w, step, id))
  {
    if step.Page? {
      CommitIsApplied(h, stream, w, step.readAt, step.rows);
      var kind := w.session.value.kind;
      hide Invariant, Enabled, Next;
      UpsertAt(h, step.readAt, w.server.staged, kind, step.rows, id);
      forall r <- step.rows | r.id == id
        ensures RecordOf(kind, r).stamp < w.server.staged[id].stamp <==> kind == Initialization && Truncate(r.raw) < Stamp(r) == w.server.staged[id].stamp
      {
        NewerRecord(h, w.clock, step.readAt, w.server.staged, kind, r);
      }
    }
  }

  /** A row read again has a lower stamp than the one staged only in the form that is not rounded. */
  lemma NewerRecord(h: set<Version>, t: Time, t': Time, staged: map<int, Record>, kind: Kind, r: Version)
    requires WellFormed(h) && Genuine(h, t, staged) && t <= t' && Current(h, r, t') && r.id in staged
    ensures RecordOf(kind, r).stamp < staged[r.id].stamp
       <==> kind == Initialization && Truncate(r.raw) < Stamp(r) == staged[r.id].stamp
  {
    var u :| u in h && u.id == r.id && u.visibleAt <= t && IsStaged(staged, u);
    assert u.number <= r.number;
    assert u.raw <= r.raw;
    TruncateAgainstQuantise(u.raw, r.raw);
  }

  /** No initialisation begins, and none is under way. */
  predicate ScansOnly(w: World, steps: seq<Step>) {
    && (w.session.Some? ==> w.session.value.kind != Initialization)
    && (forall step <- steps :: step.Begin? ==> step.kind != Initialization)
  }

  /** Over runs of scans alone no stamp ever goes back. */
  lemma {:induction false} ScansNeverLowerStamps(h: set<Version>, stream: Stream, w: World, steps: seq<Step>, w': World, id: int)
    requires WellFormed(h) && Invariant(h, stream, w) && Reaches(h, stream, w, steps, w')
    requires ScansOnly(w, steps) && id in w.server.staged
    ensures id in w'.server.staged && w.server.staged[id].stamp <= w'.server.staged[id].stamp
    decreases |steps|
  {
    if steps != [] {
      StepKeepsInvariant(h, stream, w, steps[0]);
      StampFallsExactly(h, stream, w, steps[0], id);
      ScansNeverLowerStamps(h, stream, Next(h, stream, w, steps[0]), steps[1..], w', id);
    }
  }

  // ----- Guards that never fire -----

  /** No page a live session reads trips the client's guard, is refused by the service, or reuses a batch key. */
  lemma PagesPassEveryGuard(h: set<Version>, stream: Stream, w: World, readAt: Time, rows: seq<Version>)
    requires WellFormed(h) && Invariant(h, stream, w) && Enabled(h, stream, w, Page(readAt, rows))
    requires w.session.value.kind != Initialization
    ensures var c := w.session.value;
            var c' := AfterPage(SweepOf(stream, w, c), c, rows);
            && AssertCursorProgress(c.page, c'.lastActual, |rows|).Ok?
            && ServiceAccepts(rows, c'.lastActual, |rows| == LIMIT)
            && IncrementalBatch(c.kind, c.bound, c'.batch) !in w.server.ledger
  {
    var c := w.session.value;
    var sweep := SweepOf(stream, w, c);
    if rows != [] {
      PageMakesProgress(h, sweep, readAt, c.page, rows);
    }
    forall i | 1 <= i < |rows|
      ensures Stamp(rows[i - 1]) <= Stamp(rows[i]) && !(Stamp(rows[i]) == Stamp(rows[i - 1]) && rows[i].id == rows[i - 1].id)
    {
      assert Before(KeyOf(ByStamp, rows[i - 1]), KeyOf(ByStamp, rows[i]));
    }
  }

  /** A non-empty initialisation page has a batch key of its own, across every earlier run. */
  lemma InitializationBatchesAreDistinct(h: set<Version>, stream: Stream, w: World, readAt: Time, rows: seq<Version>)
    requires WellFormed(h) && Invariant(h, stream, w) && Enabled(h, stream, w, Page(readAt, rows))
    requires w.session.value.kind == Initialization && rows != []
    ensures InitializationBatch(AfterPage(SweepOf(stream, w, w.session.value), w.session.value, rows).page) !in w.server.ledger
  {
    PageMakesProgress(h, SweepOf(stream, w, w.session.value), readAt, w.session.value.page, rows);
  }

  /** A retried request (the first answer was lost) leaves the server as one request does. */
  lemma RetriedCommitIsIdempotent(s: Server, kind: Kind, upper: Time, rows: seq<Version>, number: nat, after: Option<Key>, full: bool)
    requires kind in s.running
    ensures var once := CommitIncremental(s, kind, upper, rows, number, after, full);
            kind in once.running && CommitIncremental(once, kind, upper, rows, number, after, full) == once
  {
  }

  // ----- The run command -----

  /** main() starts an incremental scan only where the `run` command would. */
  ghost predicate DrivenByRun(h: set<Version>, stream: Stream, w: World, steps: seq<Step>)
    decreases |steps|
  {
    steps == [] ||
    (&& Enabled(h, stream, w, steps[0])
     && (steps[0].Begin? && steps[0].kind == Incremental ==> !NeedsInitialization(RunCommand, Some(w.server)))
     && DrivenByRun(h, stream, Next(h, stream, w, steps[0]), steps[1..]))
  }

  /** `initialized` means what it says, together with what makes that inductive. */
  predicate TrulyInitialized(w: World) {
    && (w.server.initialized ==> w.inventoried && w.completed.Some?)
    && (w.session.Some? && w.session.value.kind != Initialization ==> w.inventoried)
    && (w.completed.Some? ==> w.inventoried)
  }

  lemma {:induction false} RunCommandInitializes(h: set<Version>, stream: Stream, w: World, steps: seq<Step>, w': World)
    requires TrulyInitialized(w) && Reaches(h, stream, w, steps, w') && DrivenByRun(h, stream, w, steps)
    ensures TrulyInitialized(w')
    decreases |steps|
  {
    if steps != [] {
      var w1 := Next(h, stream, w, steps[0]);
      assert TrulyInitialized(w1);
      RunCommandInitializes(h, stream, w1, steps[1..], w');
    }
  }

  /** Started with `run` alone, a source that no longer needs initialisation has all its rows in scope staged. */
  lemma RunCommandReachesSource(h: set<Version>, stream: Stream, steps: seq<Step>, w: World, v: Version)
    requires WellFormed(h) && Reaches(h, stream, EMPTY_WORLD, steps, w) && DrivenByRun(h, stream, EMPTY_WORLD, steps)
    requires !NeedsInitialization(RunCommand, Some(w.server))
    ensures w.inventoried && w.completed.Some?
    ensures (Current(h, v, w.clock) && v.visibleAt <= w.completed.value && (stream == Orders ==> MIN_BUSINESS_DATE <= v.business)
             && (stream == Inventory || START <= v.business <= w.server.snapshot.GetOr(0) || (v.business < START && v.open))) ==>
      && v.id in w.server.staged
      && var r := w.server.staged[v.id];
         r.business == v.business && r.open == v.open && r.content == v.content && r.stamp in {Truncate(v.raw), Quantise(v.raw)}
  {
    RunCommandInitializes(h, stream, EMPTY_WORLD, steps, w);
    if Current(h, v, w.clock) && v.visibleAt <= w.completed.value && (stream == Orders ==> MIN_BUSINESS_DATE <= v.business)
       && (stream == Inventory || START <= v.business <= w.server.snapshot.GetOr(0) || (v.business < START && v.open)) {
      InitializationReachesSource(h, stream, steps, w, v);
    }
  }

  /**
   The `incremental` command does not have that property: issued first, it marks the source as
   initialised although nothing was ever inventoried, and a row older than the overlap stays out.
   */
  lemma IncrementalFirstSkipsInitialization() returns (h: set<Version>, v: Version, steps: seq<Step>, w: World)
    ensures WellFormed(h) && Reaches(h, Inventory, EMPTY_WORLD, steps, w)
    ensures Current(h, v, w.clock) && InScope(Inventory, v, w.clock) && w.completed.Some? && v.visibleAt <= w.completed.value
    ensures !NeedsInitialization(RunCommand, Some(w.server)) && !w.inventoried && v.id !in w.server.staged
  {
    v := Version(1, 0, 0, 0, 0, true, 0);
    h := {v};
    var now := 2 * OVERLAP;
    var w1 := Next(h, Inventory, EMPTY_WORLD, Begin(Incremental, now));
    var c := w1.session.value;
    assert c.page == Key(OVERLAP, MIN_PK);
    assert Window(h, SweepOf(Inventory, w1, c), now, c.page) == {};
    var w2 := Next(h, Inventory, w1, Page(now, []));
    w := Next(h, Inventory, w2, Complete);
    steps := [Begin(Incremental, now), Page(now, []), Complete];
    assert steps[1..] == [Page(now, []), Complete];
    assert steps[1..][1..] == [Complete];
    assert Reaches(h, Inventory, w2, [Complete], w);
    assert Reaches(h, Inventory, w1, steps[1..], w);
  }

  // ----- A source at rest -----

  /** pages[i] is read after the last row of pages[i-1]; only the last one is partial. */
  ghost predicate Paged(o: Order, window: set<Version>, pages: seq<seq<Version>>)
    decreases |pages|
  {
    && pages != []
    && IsPage(o, window, pages[0], LIMIT)
    && (if |pages| == 1 then |pages[0]| < LIMIT
        else |pages[0]| == LIMIT && Paged(o, AfterRow(o, window, pages[0][LIMIT - 1]), pages[1..]))
  }

  ghost function AfterRow(o: Order, window: set<Version>, r: Version): set<Version> {
    set v <- window | Before(KeyOf(o, r), KeyOf(o, v))
  }

  ghost function Concat(pages: seq<seq<Version>>): seq<Version> {
    if pages == [] then [] else pages[0] + Concat(pages[1..])
  }

  /**
   On a source at rest the pages put together are the whole window in key order, each row once, in
   |window| / LIMIT + 1 queries.
   */
  lemma {:induction false} StaticPagesTile(o: Order, window: set<Version>, pages: seq<seq<Version>>)
    requires Paged(o, window, pages)
    ensures Ordered(o, Concat(pages))
    ensures forall v :: v in Concat(pages) <==> v in window
    ensures |Concat(pages)| == |window|
    ensures |pages| == |window| / LIMIT + 1
    decreases |pages|
  {
    if |pages| == 1 {
      assert Concat(pages[1..]) == [];
      assert Concat(pages) == pages[0];
      OrderedCount(o, window, pages[0]);
    } else {
      var last := pages[0][LIMIT - 1];
      var later := AfterRow(o, window, last);
      var rest := Concat(pages[1..]);
      StaticPagesTile(o, later, pages[1..]);
      forall i, j | 0 <= i < j < |Concat(pages)|
        ensures Before(KeyOf(o, Concat(pages)[i]), KeyOf(o, Concat(pages)[j]))
      {
        if i < LIMIT <= j {
          assert rest[j - LIMIT] in rest;
          assert i == LIMIT - 1 || Before(KeyOf(o, pages[0][i]), KeyOf(o, last));
        }
      }
      forall v ensures v in Concat(pages) <==> v in window {
        assert v in pages[0] ==> v in window;
        assert v in window && v !in pages[0] ==> last in pages[0] && v in later;
      }
      OrderedCount(o, window, Concat(pages));
      OrderedCount(o, later, rest);
      assert |window| == LIMIT + |later|;
    }
  }

  /** Strictly ordered rows are as many as the set they list. */
  lemma {:induction false} OrderedCount(o: Order, window: set<Version>, rows: seq<Version>)
    requires Ordered(o, rows) && forall v :: v in rows <==> v in window
    ensures |rows| == |window|
    decreases |rows|
  {
    if rows != [] {
      var r := rows[|rows| - 1];
      var init := rows[..|rows| - 1];
      assert rows == init + [r];
      assert r !in init by {
        forall i | 0 <= i < |init| ensures init[i] != r {
          assert Before(KeyOf(o, rows[i]), KeyOf(o, rows[|rows| - 1]));
        }
      }
      OrderedCount(o, window - {r}, init);
    }
  }

  // ----- Seven digits against six -----

  /** The predicate without the CAST compares the raw column with the cursor Python kept. */
  ghost function RawWindow(window: set<Version>, cursor: Key): set<Version> {
    set v <- window | Before(cursor, KeyOf(ByRawStamp, v))
  }

  function RawCursor(rows: seq<Version>, otherwise: Key): Key {
    if rows == [] then otherwise else Key(Truncate(rows[|rows| - 1].raw), rows[|rows| - 1].id)
  }

  /** The rows that share microsecond t with a cursor but carry a seventh digit. */
  ghost function OffGridRows(window: set<Version>, t: Time): set<Version> {
    set v <- window | t < v.raw < t + MICROSECOND
  }

  /** pages[i] answers the raw query for cursors[i], on a source at rest. */
  ghost predicate RawScan(window: set<Version>, cursors: seq<Key>, pages: seq<seq<Version>>) {
    && |cursors| == |pages| + 1
    && forall i :: 0 <= i < |pages| ==>
         IsPage(ByRawStamp, RawWindow(window, cursors[i]), pages[i], LIMIT) && cursors[i + 1] == RawCursor(pages[i], cursors[i])
  }

  /** The rows a raw query finds within the cursor's microsecond. */
  ghost function BelowNext(window: set<Version>, cursor: Key): set<Version> {
    set v <- RawWindow(window, cursor) | v.raw < cursor.time + MICROSECOND
  }

  /** A full raw page leaves the cursor in its microsecond exactly when LIMIT of the rows it finds lie there. */
  lemma RawPageStaysInMicrosecond(window: set<Version>, cursor: Key, rows: seq<Version>)
    requires OnGrid(cursor.time)
    requires IsPage(ByRawStamp, RawWindow(window, cursor), rows, LIMIT) && |rows| == LIMIT
    ensures RawCursor(rows, cursor).time == cursor.time <==> |BelowNext(window, cursor)| >= LIMIT
  {
    var near := BelowNext(window, cursor);
    var last := rows[|rows| - 1];
    assert last in rows;
    var listed := set r <- rows;
    OrderedCount(ByRawStamp, listed, rows);
    if last.raw < cursor.time + MICROSECOND {
      forall r <- listed ensures r in near {
        assert r == last || Before(KeyOf(ByRawStamp, r), KeyOf(ByRawStamp, last));
      }
      CardinalityMonotone(listed, near);
    } else {
      forall v <- near ensures v in listed - {last} {
      }
      CardinalityMonotone(near, listed - {last});
    }
  }

  lemma RawPageIsFull(window: set<Version>, cursor: Key, rows: seq<Version>)
    requires IsPage(ByRawStamp, RawWindow(window, cursor), rows, LIMIT) && |OffGridRows(window, cursor.time)| >= LIMIT
    ensures |rows| == LIMIT && |BelowNext(window, cursor)| >= LIMIT
  {
    var off := OffGridRows(window, cursor.time);
    CardinalityMonotone(off, BelowNext(window, cursor));
    if |rows| < LIMIT {
      var listed := set r <- rows;
      OrderedCount(ByRawStamp, listed, rows);
      CardinalityMonotone(off, listed);
    }
  }

  /** LIMIT rows with a seventh digit in one microsecond: no number of pages gets past it, every one is full. */
  lemma {:induction false} RawPagingLoopsForever(window: set<Version>, cursors: seq<Key>, pages: seq<seq<Version>>, n: nat)
    requires RawScan(window, cursors, pages) && n < |pages| && OnGrid(cursors[0].time)
    requires |OffGridRows(window, cursors[0].time)| >= LIMIT
    ensures |pages[n]| == LIMIT && cursors[n + 1].time == cursors[0].time
  {
    if n > 0 {
      RawPagingLoopsForever(window, cursors, pages, n - 1);
    }
    RawPageIsFull(window, cursors[n], pages[n]);
    RawPageStaysInMicrosecond(window, cursors[n], pages[n]);
  }

  /** If no row lies on the microsecond itself, every page is the first one again, and the guard would raise. */
  lemma {:induction false} RawPagesRepeat(window: set<Version>, cursors: seq<Key>, pages: seq<seq<Version>>, n: nat)
    requires RawScan(window, cursors, pages) && n < |pages| && OnGrid(cursors[0].time)
    requires |OffGridRows(window, cursors[0].time)| >= LIMIT && forall v <- window :: v.raw != cursors[0].time
    ensures pages[n] == pages[0] && cursors[n + 1] == cursors[1]
    ensures n > 0 ==> AssertCursorProgress(cursors[n], Some(cursors[n + 1]), |pages[n]|).Err?
  {
    RawPagingLoopsForever(window, cursors, pages, n);
    if n > 0 {
      RawPagesRepeat(window, cursors, pages, n - 1);
      RawPagingLoopsForever(window, cursors, pages, n - 1);
      assert cursors[n] == cursors[1] && cursors[n].time == cursors[0].time;
      assert RawWindow(window, cursors[n]) == RawWindow(window, cursors[0]);
      PageIsUnique(ByRawStamp, RawWindow(window, cursors[0]), pages[n], pages[0], LIMIT);
    }
  }

  lemma {:induction false} CardinalityMonotone<T>(a: set<T>, b: set<T>)
    requires a <= b
    ensures |a| <= |b|
  {
    assert b == a + (b - a);
  }
}
