/** Every step of the synchroniser keeps the invariant. */
module OrderSyncProofs {
  import opened Wrappers
  import opened Keyset
  import opened OrderSync

  // ----- Staging a page -----

  lemma {:induction false} UpsertStages(h: set<Version>, t: Time, staged: map<int, Record>, kind: Kind, rows: seq<Version>, v: Version)
    requires WellFormed(h) && Current(h, v, t)
    requires forall r <- rows :: Current(h, r, t)
    ensures v in rows || IsStaged(staged, v) ==> IsStaged(Upsert(staged, kind, rows), v)
  {
    if rows != [] {
      var r := rows[|rows| - 1];
      assert rows == rows[..|rows| - 1] + [r];
      UpsertStages(h, t, staged, kind, rows[..|rows| - 1], v);
      if r.id == v.id {
        CurrentIsUnique(h, r, v, t);
      }
    }
  }

  lemma {:induction false} UpsertGenuine(h: set<Version>, t: Time, staged: map<int, Record>, kind: Kind, rows: seq<Version>)
    requires Genuine(h, t, staged)
    requires forall r <- rows :: Current(h, r, t)
    ensures Genuine(h, t, Upsert(staged, kind, rows))
  {
    if rows != [] {
      UpsertGenuine(h, t, staged, kind, rows[..|rows| - 1]);
      assert Current(h, rows[|rows| - 1], t);
    }
  }

  // ----- Coverage -----

  lemma CoveredLater(h: set<Version>, t: Time, t': Time, staged: map<int, Record>, sweep: Sweep, p: Option<Key>)
    requires Covered(h, t, staged, sweep, p) && Horizon(sweep) <= t <= t'
    ensures Covered(h, t', staged, sweep, p)
  {
    forall v <- h | Current(h, v, t') && Wanted(sweep, v) ensures Current(h, v, t) {}
  }

  lemma GenuineLater(h: set<Version>, t: Time, t': Time, staged: map<int, Record>)
    requires Genuine(h, t, staged) && t <= t'
    ensures Genuine(h, t', staged)
  {
  }

  lemma CoveredAfterUpsert(h: set<Version>, t: Time, staged: map<int, Record>, sweep: Sweep, p: Option<Key>, kind: Kind, rows: seq<Version>)
    requires WellFormed(h) && Covered(h, t, staged, sweep, p)
    requires forall r <- rows :: Current(h, r, t)
    ensures Covered(h, t, Upsert(staged, kind, rows), sweep, p)
  {
    forall v <- h | Current(h, v, t) && Wanted(sweep, v) && NotAfter(p, KeyOf(OrderOf(sweep), v))
      ensures IsStaged(Upsert(staged, kind, rows), v)
    {
      UpsertStages(h, t, staged, kind, rows, v);
    }
  }

  /** What a sweep wants, its query can see. */
  lemma WantedMatches(h: set<Version>, sweep: Sweep, v: Version)
    requires WellFormed(h) && v in h && Wanted(sweep, v)
    requires sweep.Changes? ==> OnGrid(sweep.upper)
    ensures Matches(sweep, v)
  {
    if sweep.Changes? {
      QuantiseAgainstGrid(v.raw, sweep.upper);
    }
  }

  /** One page carries coverage from the cursor to its last row, a partial page to the end. */
  lemma PageExtends(h: set<Version>, t: Time, staged: map<int, Record>, sweep: Sweep, from: Key, kind: Kind, rows: seq<Version>)
    requires WellFormed(h) && Covered(h, t, staged, sweep, Some(from))
    requires sweep.Changes? ==> OnGrid(sweep.upper)
    requires IsPage(OrderOf(sweep), Window(h, sweep, t, from), rows, LIMIT)
    ensures Covered(h, t, Upsert(staged, kind, rows), sweep, if |rows| < LIMIT then None else LastKey(sweep, rows, Some(from)))
  {
    var o := OrderOf(sweep);
    var p := if |rows| < LIMIT then None else LastKey(sweep, rows, Some(from));
    assert forall r <- rows :: Current(h, r, t);
    forall v <- h | Current(h, v, t) && Wanted(sweep, v) && NotAfter(p, KeyOf(o, v))
      ensures IsStaged(Upsert(staged, kind, rows), v)
    {
      WantedMatches(h, sweep, v);
      if Before(from, KeyOf(o, v)) {
        assert v in Window(h, sweep, t, from);
        assert |rows| == LIMIT ==> rows[|rows| - 1] in rows;
        assert v in rows;
      }
      UpsertStages(h, t, staged, kind, rows, v);
    }
  }

  /** Rows stamped before a finished scan's overlap window were visible to that scan. */
  lemma OverlapSuffices(h: set<Version>, t: Time, staged: map<int, Record>, floor: Option<Time>, bound: Time, upper: Time)
    requires WellFormed(h) && OnGrid(bound)
    requires Covered(h, t, staged, Changes(floor, bound), Some(Key(bound - OVERLAP, MIN_PK)))
    ensures Covered(h, t, staged, Changes(floor, upper), Some(Key(bound - OVERLAP, MIN_PK)))
  {
    hide Quantise, Current, IsStaged;
    forall v <- h | Current(h, v, t) && Wanted(Changes(floor, upper), v) && NotAfter(Some(Key(bound - OVERLAP, MIN_PK)), KeyOf(ByStamp, v))
      ensures IsStaged(staged, v)
    {
      StampedBeforeOverlap(h, v, bound);
      assert Wanted(Changes(floor, bound), v);
    }
  }

  lemma StampedBeforeOverlap(h: set<Version>, v: Version, bound: Time)
    requires WellFormed(h) && v in h && OnGrid(bound) && NotAfter(Some(Key(bound - OVERLAP, MIN_PK)), KeyOf(ByStamp, v))
    ensures v.visibleAt <= bound
  {
    QuantiseAgainstGrid(v.raw, bound - OVERLAP);
  }

  lemma NothingBelowFloor(h: set<Version>, t: Time, staged: map<int, Record>, floor: Time, upper: Time, anchor: Time)
    requires WellFormed(h) && anchor <= floor
    ensures Covered(h, t, staged, Changes(Some(floor), upper), Some(Key(anchor, MIN_PK)))
  {
  }

  lemma NothingBelowMinimum(h: set<Version>, t: Time, staged: map<int, Record>, stream: Stream, snapshot: Time)
    requires WellFormed(h)
    ensures Covered(h, t, staged, Inventoried(stream, snapshot), Some(Key(MIN_BUSINESS_DATE, MIN_PK)))
  {
  }

  lemma HigherFloor(h: set<Version>, t: Time, staged: map<int, Record>, floor: Option<Time>, floor': Option<Time>, upper: Time, p: Option<Key>)
    requires Covered(h, t, staged, Changes(floor, upper), p)
    requires floor.Some? && floor'.Some? && floor.value <= floor'.value
    ensures Covered(h, t, staged, Changes(floor', upper), p)
  {
  }

  // ----- The steps -----

  lemma BeginTimes(h: set<Version>, stream: Stream, w: World, kind: Kind, now: Time)
    requires TimesInvariant(w) && RunsInvariant(w) && Enabled(h, stream, w, Begin(kind, now))
    ensures TimesInvariant(Next(h, stream, w, Begin(kind, now)))
  {
    var s' := StartRun(w.server, kind, now);
    assert forall k <- s'.running :: OnGrid(s'.running[k].upper) && s'.running[k].upper <= now;
    assert Boundary(s', s'.running[kind].upper) <= now;
  }

  lemma StartRunKeepsServer(s: Server, kind: Kind, now: Time)
    requires ServerInvariant(s)
    ensures ServerInvariant(StartRun(s, kind, now)) && kind in StartRun(s, kind, now).running
  {
    var s' := StartRun(s, kind, now);
    if kind !in s.running {
      assert s'.running[kind].id == s.nextRun;
      assert forall k <- s'.running :: k == kind || (k in s.running && s'.running[k] == s.running[k]);
    }
  }

  lemma BeginRuns(h: set<Version>, stream: Stream, w: World, kind: Kind, now: Time)
    requires TimesInvariant(w) && RunsInvariant(w) && Enabled(h, stream, w, Begin(kind, now))
    ensures RunsInvariant(Next(h, stream, w, Begin(kind, now)))
  {
    StartRunKeepsServer(w.server, kind, now);
  }

  lemma BeginLedger(h: set<Version>, stream: Stream, w: World, kind: Kind, now: Time)
    requires LedgerInvariant(w) && Enabled(h, stream, w, Begin(kind, now))
    ensures LedgerInvariant(Next(h, stream, w, Begin(kind, now)))
  {
  }

  /** Coverage facts are about the past: they survive the clock and a floor that only rises. */
  lemma BeginKeepsCoverage(h: set<Version>, stream: Stream, w: World, kind: Kind, now: Time)
    requires WellFormed(h) && Invariant(h, stream, w) && Enabled(h, stream, w, Begin(kind, now))
    ensures CoverageInvariant(h, stream, Next(h, stream, w, Begin(kind, now)).(session := None))
  {
    hide Covered, Genuine, LedgerInvariant, SessionInvariant;
    var w' := Next(h, stream, w, Begin(kind, now));
    var s, s' := w.server, w'.server;
    GenuineLater(h, w.clock, now, s.staged);
    if s.cursor.lastUpper.Some? {
      CoveredLater(h, w.clock, now, s.staged, Changes(w.floor, s.cursor.lastUpper.value), Some(Key(s.cursor.lastUpper.value - OVERLAP, MIN_PK)));
    }
    forall k <- s'.running | s'.cursor.activeRun == Some(s'.running[k].id) && s'.cursor.activePage.Some?
      ensures Covered(h, now, s.staged, Changes(w'.floor, s'.running[k].upper), s.cursor.activePage)
    {
      assert k in s.running && s.running[k] == s'.running[k];
      CoveredLater(h, w.clock, now, s.staged, Changes(w.floor, s.running[k].upper), s.cursor.activePage);
      HigherFloor(h, now, s.staged, w.floor, w'.floor, s.running[k].upper, s.cursor.activePage);
    }
    if s.snapshot.Some? {
      if s.initCursor.Some? {
        CoveredLater(h, w.clock, now, s.staged, Inventoried(stream, s.snapshot.value), s.initCursor);
      }
      if w.inventoried {
        CoveredLater(h, w.clock, now, s.staged, Inventoried(stream, s.snapshot.value), None);
      }
    }
    if w.completed.Some? {
      CoveredLater(h, w.clock, now, s.staged, Changes(w.floor, w.completed.value), None);
      HigherFloor(h, now, s.staged, w.floor, w'.floor, w.completed.value, None);
    }
  }

  /** Wherever a session starts, everything its sweep wants behind the cursor is already staged. */
  lemma BeginCoversSession(h: set<Version>, stream: Stream, w: World, kind: Kind, now: Time)
    requires WellFormed(h) && Invariant(h, stream, w) && Enabled(h, stream, w, Begin(kind, now))
    ensures var w' := Next(h, stream, w, Begin(kind, now));
            var c := w'.session.value;
            !c.done && Covered(h, now, w'.server.staged, SweepOf(stream, w', c), Some(c.page))
  {
    BeginTimes(h, stream, w, kind, now);
    BeginRuns(h, stream, w, kind, now);
    BeginKeepsCoverage(h, stream, w, kind, now);
    var w' := Next(h, stream, w, Begin(kind, now));
    var s := w'.server;
    var c := w'.session.value;
    if kind == Initialization {
      NothingBelowMinimum(h, now, s.staged, stream, c.bound);
    } else if s.cursor.activeRun == Some(c.runId) && s.cursor.activePage.Some? {
      assert s.running[kind].id == c.runId;
    } else if s.cursor.lastUpper.Some? {
      OverlapSuffices(h, now, s.staged, w'.floor, s.cursor.lastUpper.value, c.bound);
    } else {
      NothingBelowFloor(h, now, s.staged, w'.floor.value, c.bound, c.page.time);
    }
  }

  /** A non-empty page moves the cursor, so its batch key is new and assert_cursor_progress is silent. */
  lemma PageMakesProgress(h: set<Version>, sweep: Sweep, t: Time, from: Key, rows: seq<Version>)
    requires IsPage(OrderOf(sweep), Window(h, sweep, t, from), rows, LIMIT)
    requires rows != []
    ensures Before(from, KeyOf(OrderOf(sweep), rows[|rows| - 1]))
  {
    assert rows[|rows| - 1] in rows;
  }

  lemma IncrementalPageBookkeeping(h: set<Version>, stream: Stream, w: World, readAt: Time, rows: seq<Version>)
    requires WellFormed(h) && Invariant(h, stream, w) && Enabled(h, stream, w, Page(readAt, rows))
    requires w.session.value.kind != Initialization
    ensures var w' := Next(h, stream, w, Page(readAt, rows)); TimesInvariant(w') && RunsInvariant(w') && LedgerInvariant(w')
  {
    hide CoverageInvariant, WellFormed, IsPage, Window, Upsert;
    var c := w.session.value;
    assert IncrementalBatch(c.kind, c.bound, c.batch + 1) !in w.server.ledger;
  }

  lemma InitializationPageServer(h: set<Version>, stream: Stream, w: World, readAt: Time, rows: seq<Version>)
    requires WellFormed(h) && Invariant(h, stream, w) && Enabled(h, stream, w, Page(readAt, rows))
    requires w.session.value.kind == Initialization
    ensures var s, w' := w.server, Next(h, stream, w, Page(readAt, rows));
            var s' := w'.server;
            && s'.snapshot == s.snapshot && s'.nextRun == s.nextRun && s'.cursor == s.cursor
            && s'.initCursor == Some(w'.session.value.page)
            && !Before(w'.session.value.page, w.session.value.page)
            && s'.ledger == s.ledger + {InitializationBatch(w'.session.value.page)}
            && s'.running.Keys == s.running.Keys
            && forall k <- s.running :: s'.running[k] == s.running[k].(batches := s'.running[k].batches) && (k != Initialization ==> s'.running[k] == s.running[k])
  {
    var c := w.session.value;
    if rows != [] {
      PageMakesProgress(h, SweepOf(stream, w, c), readAt, c.page, rows);
      assert InitializationBatch(AfterPage(SweepOf(stream, w, c), c, rows).page) !in w.server.ledger;
    }
  }

  lemma InitializationPageBookkeeping(h: set<Version>, stream: Stream, w: World, readAt: Time, rows: seq<Version>)
    requires WellFormed(h) && Invariant(h, stream, w) && Enabled(h, stream, w, Page(readAt, rows))
    requires w.session.value.kind == Initialization
    ensures var w' := Next(h, stream, w, Page(readAt, rows)); TimesInvariant(w') && RunsInvariant(w') && LedgerInvariant(w')
  {
    InitializationPageServer(h, stream, w, readAt, rows);
    InitializationPageTimes(h, stream, w, readAt, rows);
    InitializationPageLedger(h, stream, w, readAt, rows);
  }

  lemma InitializationPageTimes(h: set<Version>, stream: Stream, w: World, readAt: Time, rows: seq<Version>)
    requires WellFormed(h) && Invariant(h, stream, w) && Enabled(h, stream, w, Page(readAt, rows))
    requires w.session.value.kind == Initialization
    ensures var w' := Next(h, stream, w, Page(readAt, rows)); TimesInvariant(w') && RunsInvariant(w')
  {
    InitializationPageServer(h, stream, w, readAt, rows);
  }

  lemma InitializationPageLedger(h: set<Version>, stream: Stream, w: World, readAt: Time, rows: seq<Version>)
    requires WellFormed(h) && Invariant(h, stream, w) && Enabled(h, stream, w, Page(readAt, rows))
    requires w.session.value.kind == Initialization
    ensures LedgerInvariant(Next(h, stream, w, Page(readAt, rows)))
  {
    InitializationPageServer(h, stream, w, readAt, rows);
  }

  /** The server applies every page a live session commits: no batch key is ever taken. */
  lemma CommitIsApplied(h: set<Version>, stream: Stream, w: World, readAt: Time, rows: seq<Version>)
    requires WellFormed(h) && Invariant(h, stream, w) && Enabled(h, stream, w, Page(readAt, rows))
    ensures Next(h, stream, w, Page(readAt, rows)).server.staged == Upsert(w.server.staged, w.session.value.kind, rows)
    ensures w.session.value.kind != Initialization ==>
      Next(h, stream, w, Page(readAt, rows)).server.cursor.activeRun == Some(w.session.value.runId)
  {
    var c := w.session.value;
    if rows != [] {
      PageMakesProgress(h, SweepOf(stream, w, c), readAt, c.page, rows);
    }
  }

  /** Coverage of any sweep whose horizon has passed survives a page of another. */
  lemma CoveredAfterPage(h: set<Version>, w: World, readAt: Time, sweep: Sweep, p: Option<Key>, kind: Kind, rows: seq<Version>)
    requires WellFormed(h) && Covered(h, w.clock, w.server.staged, sweep, p)
    requires Horizon(sweep) <= w.clock <= readAt
    requires forall r <- rows :: Current(h, r, readAt)
    ensures Covered(h, readAt, Upsert(w.server.staged, kind, rows), sweep, p)
  {
    CoveredLater(h, w.clock, readAt, w.server.staged, sweep, p);
    CoveredAfterUpsert(h, readAt, w.server.staged, sweep, p, kind, rows);
  }

  lemma PageCoversSession(h: set<Version>, stream: Stream, w: World, readAt: Time, rows: seq<Version>)
    requires WellFormed(h) && Invariant(h, stream, w) && Enabled(h, stream, w, Page(readAt, rows))
    ensures var c := w.session.value;
            var sweep := SweepOf(stream, w, c);
            Covered(h, readAt, Upsert(w.server.staged, w.session.value.kind, rows), sweep,
                    if |rows| < LIMIT then None else LastKey(sweep, rows, Some(c.page)))
  {
    var c := w.session.value;
    var sweep := SweepOf(stream, w, c);
    CoveredLater(h, w.clock, readAt, w.server.staged, sweep, Some(c.page));
    PageExtends(h, readAt, w.server.staged, sweep, c.page, c.kind, rows);
  }

  lemma CoveredUpTo(h: set<Version>, t: Time, staged: map<int, Record>, sweep: Sweep, p: Option<Key>)
    requires Covered(h, t, staged, sweep, None)
    ensures Covered(h, t, staged, sweep, p)
  {
  }

  lemma PageKeepsInitialCoverage(h: set<Version>, stream: Stream, w: World, readAt: Time, rows: seq<Version>)
    requires WellFormed(h) && Invariant(h, stream, w) && Enabled(h, stream, w, Page(readAt, rows))
    ensures var w' := Next(h, stream, w, Page(readAt, rows));
            && (w'.server.snapshot.Some? && w'.server.initCursor.Some? ==>
                Covered(h, readAt, w'.server.staged, Inventoried(stream, w'.server.snapshot.value), w'.server.initCursor))
            && (w'.inventoried && w'.server.snapshot.Some? ==>
                Covered(h, readAt, w'.server.staged, Inventoried(stream, w'.server.snapshot.value), None))
  {
    var s := w.server;
    var w' := Next(h, stream, w, Page(readAt, rows));
    CommitIsApplied(h, stream, w, readAt, rows);
    if s.snapshot.Some? {
      var sweep := Inventoried(stream, s.snapshot.value);
      if w.inventoried {
        CoveredAfterPage(h, w, readAt, sweep, None, w.session.value.kind, rows);
      }
      if w.session.value.kind == Initialization {
        PageCoversSession(h, stream, w, readAt, rows);
        InitializationPageBookkeeping(h, stream, w, readAt, rows);
        if |rows| < LIMIT {
          CoveredUpTo(h, readAt, w'.server.staged, sweep, w'.server.initCursor);
        }
      } else if s.initCursor.Some? {
        CoveredAfterPage(h, w, readAt, sweep, s.initCursor, w.session.value.kind, rows);
      }
    }
  }

  lemma PageKeepsRunCoverage(h: set<Version>, stream: Stream, w: World, readAt: Time, rows: seq<Version>, k: Kind)
    requires WellFormed(h) && Invariant(h, stream, w) && Enabled(h, stream, w, Page(readAt, rows))
    requires var s' := Next(h, stream, w, Page(readAt, rows)).server;
             k in s'.running && s'.cursor.activeRun == Some(s'.running[k].id) && s'.cursor.activePage.Some?
    ensures var s' := Next(h, stream, w, Page(readAt, rows)).server;
            Covered(h, readAt, s'.staged, Changes(w.floor, s'.running[k].upper), s'.cursor.activePage)
  {
    var s := w.server;
    var c := w.session.value;
    var s' := Next(h, stream, w, Page(readAt, rows)).server;
    CommitIsApplied(h, stream, w, readAt, rows);
    if c.kind == Initialization {
      CoveredAfterPage(h, w, readAt, Changes(w.floor, s.running[k].upper), s.cursor.activePage, w.session.value.kind, rows);
    } else {
      assert k == c.kind;
      PageCoversSession(h, stream, w, readAt, rows);
      if |rows| < LIMIT {
        CoveredUpTo(h, readAt, s'.staged, Changes(w.floor, c.bound), s'.cursor.activePage);
      }
    }
  }

  lemma PageKeepsScanCoverage(h: set<Version>, stream: Stream, w: World, readAt: Time, rows: seq<Version>)
    requires WellFormed(h) && Invariant(h, stream, w) && Enabled(h, stream, w, Page(readAt, rows))
    ensures var w' := Next(h, stream, w, Page(readAt, rows));
            var b := w'.server.cursor.lastUpper;
            && (b.Some? ==> Covered(h, readAt, w'.server.staged, Changes(w.floor, b.value), Some(Key(b.value - OVERLAP, MIN_PK))))
            && (w.completed.Some? ==> Covered(h, readAt, w'.server.staged, Changes(w.floor, w.completed.value), None))
  {
    var c := w.session.value;
    var w' := Next(h, stream, w, Page(readAt, rows));
    var b := w'.server.cursor.lastUpper;
    CommitIsApplied(h, stream, w, readAt, rows);
    if w.completed.Some? {
      CoveredAfterPage(h, w, readAt, Changes(w.floor, w.completed.value), None, w.session.value.kind, rows);
    }
    if b.Some? {
      if b == w.server.cursor.lastUpper {
        CoveredAfterPage(h, w, readAt, Changes(w.floor, b.value), Some(Key(b.value - OVERLAP, MIN_PK)), w.session.value.kind, rows);
      } else {
        PageCoversSession(h, stream, w, readAt, rows);
        CoveredUpTo(h, readAt, w'.server.staged, Changes(w.floor, b.value), Some(Key(b.value - OVERLAP, MIN_PK)));
      }
    }
  }

  lemma PageKeepsCoverage(h: set<Version>, stream: Stream, w: World, readAt: Time, rows: seq<Version>)
    requires WellFormed(h) && Invariant(h, stream, w) && Enabled(h, stream, w, Page(readAt, rows))
    ensures CoverageInvariant(h, stream, Next(h, stream, w, Page(readAt, rows)))
  {
    var w' := Next(h, stream, w, Page(readAt, rows));
    var s' := w'.server;
    CommitIsApplied(h, stream, w, readAt, rows);
    GenuineLater(h, w.clock, readAt, w.server.staged);
    UpsertGenuine(h, readAt, w.server.staged, w.session.value.kind, rows);
    PageKeepsInitialCoverage(h, stream, w, readAt, rows);
    PageKeepsScanCoverage(h, stream, w, readAt, rows);
    PageCoversSession(h, stream, w, readAt, rows);
    forall k <- s'.running | s'.cursor.activeRun == Some(s'.running[k].id) && s'.cursor.activePage.Some?
      ensures Covered(h, readAt, s'.staged, Changes(w.floor, s'.running[k].upper), s'.cursor.activePage)
    {
      PageKeepsRunCoverage(h, stream, w, readAt, rows, k);
    }
  }

  lemma BeginKeepsInvariant(h: set<Version>, stream: Stream, w: World, kind: Kind, now: Time)
    requires WellFormed(h) && Invariant(h, stream, w) && Enabled(h, stream, w, Begin(kind, now))
    ensures Invariant(h, stream, Next(h, stream, w, Begin(kind, now)))
  {
    BeginTimes(h, stream, w, kind, now);
    BeginRuns(h, stream, w, kind, now);
    BeginLedger(h, stream, w, kind, now);
    BeginKeepsCoverage(h, stream, w, kind, now);
    BeginCoversSession(h, stream, w, kind, now);
  }

  lemma PageKeepsInvariant(h: set<Version>, stream: Stream, w: World, readAt: Time, rows: seq<Version>)
    requires WellFormed(h) && Invariant(h, stream, w) && Enabled(h, stream, w, Page(readAt, rows))
    ensures Invariant(h, stream, Next(h, stream, w, Page(readAt, rows)))
  {
    PageKeepsCoverage(h, stream, w, readAt, rows);
    if w.session.value.kind == Initialization {
      InitializationPageBookkeeping(h, stream, w, readAt, rows);
    } else {
      IncrementalPageBookkeeping(h, stream, w, readAt, rows);
    }
  }

  /** Every step of every process keeps the invariant, whatever the source does meanwhile. */
  lemma StepKeepsInvariant(h: set<Version>, stream: Stream, w: World, step: Step)
    requires WellFormed(h) && Invariant(h, stream, w) && Enabled(h, stream, w, step)
    ensures Invariant(h, stream, Next(h, stream, w, step))
  {
    match step
    case Begin(kind, now) => BeginKeepsInvariant(h, stream, w, kind, now);
    case Page(readAt, rows) => PageKeepsInvariant(h, stream, w, readAt, rows);
    case Complete =>
    case Fail =>
    case Crash =>
  }

  /** So every reachable world satisfies it. */
  lemma {:induction false} RunsKeepInvariant(h: set<Version>, stream: Stream, w: World, steps: seq<Step>, w': World)
    requires WellFormed(h) && Invariant(h, stream, w) && Reaches(h, stream, w, steps, w')
    ensures Invariant(h, stream, w')
    decreases |steps|
  {
    if steps != [] {
      StepKeepsInvariant(h, stream, w, steps[0]);
      RunsKeepInvariant(h, stream, Next(h, stream, w, steps[0]), steps[1..], w');
    }
  }
}
