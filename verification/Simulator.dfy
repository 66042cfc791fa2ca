/**
 The read-only simulator: one page per run, always re-reading the overlap window, with the raw stamp
 column in its queries and microseconds in its cursor file.
 */
module Simulator {
  import opened Keyset
  import opened OrderSyncTheorems

  datatype Cursor = Cursor(time: Time, pk: int, initialized: bool)

  /** initial_cursor */
  function InitialCursor(now: Time, lookback: nat): Cursor {
    Cursor(now - lookback, MIN_PK, false)
  }

  /** Where the query of a run starts: the whole overlap is read again. */
  function QueryKey(previous: Cursor): Key {
    Key(previous.time - OVERLAP, MIN_PK)
  }

  ghost function Window(h: set<Version>, readAt: Time, previous: Cursor, upper: Time): set<Version> {
    set v | v in h && Current(h, v, readAt) && v.raw <= upper && Before(QueryKey(previous), KeyOf(ByRawStamp, v))
  }

  /** primary_key_after of a stream; nothing is assumed of it unless said so. */
  type KeyAfter = (int, int) -> bool

  /** simulate_stream: the cursor after a batch. */
  function NextCursor(after: KeyAfter, previous: Cursor, records: seq<Version>, limit: nat, upper: Time): Cursor {
    if records == [] || |records| < limit then
      Cursor(upper, MIN_PK, true)
    else
      var final := records[|records| - 1];
      var finalTime := Truncate(final.raw);
      if finalTime > previous.time || (finalTime == previous.time && after(final.id, previous.pk)) || !previous.initialized then
        Cursor(finalTime, final.id, true)
      else
        previous.(initialized := true)
  }

  // ----- Runs -----

  /** One stream: its cursor, what has been handed out, when the source was last read, when the cursor last moved. */
  datatype State = State(cursor: Cursor, emitted: set<Version>, clock: Time, savedAt: Time)

  /** One run: the bound it takes from the source clock, the moment it reads, and the page it gets. */
  datatype Batch = Batch(upper: Time, readAt: Time, records: seq<Version>)

  ghost predicate Possible(h: set<Version>, limit: nat, s: State, b: Batch) {
    && OnGrid(b.upper) && s.clock <= b.upper <= b.readAt
    && IsPage(ByRawStamp, Window(h, b.readAt, s.cursor, b.upper), b.records, limit)
  }

  function After(after: KeyAfter, limit: nat, s: State, b: Batch): State {
    var cursor := NextCursor(after, s.cursor, b.records, limit, b.upper);
    State(cursor, s.emitted + (set r <- b.records), b.readAt,
          if cursor == s.cursor.(initialized := true) && |b.records| >= limit then s.savedAt else b.readAt)
  }

  ghost predicate Runs(h: set<Version>, after: KeyAfter, limit: nat, s: State, batches: seq<Batch>, s': State)
    decreases |batches|
  {
    if batches == [] then s' == s
    else Possible(h, limit, s, batches[0]) && Runs(h, after, limit, After(after, limit, s, batches[0]), batches[1..], s')
  }

  /** Before the first run: nothing handed out, the cursor a look-back before now. */
  predicate Fresh(s: State, now: Time, lookback: nat) {
    s == State(InitialCursor(now, lookback), {}, now, now)
  }

  // ----- Safety -----

  /** Every row visible when the cursor was saved, unchanged since, between the origin and the cursor, has been handed out. */
  ghost predicate Emitted(h: set<Version>, origin: Time, s: State) {
    s.cursor.initialized ==>
      forall v <- h :: (Current(h, v, s.clock) && v.visibleAt <= s.savedAt
        && origin <= v.raw && !Before(Key(s.cursor.time, s.cursor.pk), KeyOf(ByRawStamp, v))) ==> v in s.emitted
  }

  /** Every row that no later run will read again has been handed out as it is. */
  ghost predicate NothingLeftBehind(h: set<Version>, origin: Time, s: State) {
    forall v <- h :: Current(h, v, s.clock) && origin <= v.raw < s.cursor.time - OVERLAP ==> v in s.emitted
  }

  ghost predicate Invariant(h: set<Version>, origin: Time, s: State) {
    && s.cursor.time <= s.savedAt <= s.clock
    && (!s.cursor.initialized ==> s.cursor.time - OVERLAP <= origin && s.cursor.pk == MIN_PK)
    && Emitted(h, origin, s) && NothingLeftBehind(h, origin, s)
  }

  lemma FreshInvariant(h: set<Version>, s: State, now: Time, lookback: nat)
    requires WellFormed(h) && Fresh(s, now, lookback)
    ensures Invariant(h, s.cursor.time - OVERLAP, s)
  {
  }

  /** The rows of a page that lie at or before its cursor are all in it. */
  lemma PageReachesCursor(h: set<Version>, after: KeyAfter, limit: nat, s: State, b: Batch, v: Version)
    requires WellFormed(h) && limit > 0 && Possible(h, limit, s, b)
    requires v in Window(h, b.readAt, s.cursor, b.upper)
    requires var c := NextCursor(after, s.cursor, b.records, limit, b.upper);
             (|b.records| < limit || c != s.cursor.(initialized := true)) && !Before(Key(c.time, c.pk), KeyOf(ByRawStamp, v))
    ensures v in b.records
  {
    if |b.records| == limit {
      assert b.records[limit - 1] in b.records;
    }
  }

  lemma RunKeepsEmitted(h: set<Version>, origin: Time, after: KeyAfter, limit: nat, s: State, b: Batch)
    requires WellFormed(h) && limit > 0 && Invariant(h, origin, s) && Possible(h, limit, s, b)
    ensures Emitted(h, origin, After(after, limit, s, b))
  {
    var s' := After(after, limit, s, b);
    forall v <- h | Current(h, v, s'.clock) && v.visibleAt <= s'.savedAt
      && origin <= v.raw && !Before(Key(s'.cursor.time, s'.cursor.pk), KeyOf(ByRawStamp, v))
      ensures v in s'.emitted
    {
      if |b.records| >= limit && s'.cursor == s.cursor.(initialized := true) {
        assert Current(h, v, s.clock);
      } else if v.raw < s.cursor.time - OVERLAP {
        assert Current(h, v, s.clock);
      } else {
        CursorWithinBound(h, after, limit, s, b);
        assert v in Window(h, b.readAt, s.cursor, b.upper);
        PageReachesCursor(h, after, limit, s, b, v);
      }
    }
  }

  /** No cursor goes past the bound of its run. */
  lemma CursorWithinBound(h: set<Version>, after: KeyAfter, limit: nat, s: State, b: Batch)
    requires limit > 0 && s.cursor.time <= s.clock && Possible(h, limit, s, b)
    ensures NextCursor(after, s.cursor, b.records, limit, b.upper).time <= b.upper
  {
    if b.records != [] {
      assert b.records[|b.records| - 1] in b.records;
    }
  }

  lemma RunLeavesNothingBehind(h: set<Version>, origin: Time, after: KeyAfter, limit: nat, s: State, b: Batch)
    requires WellFormed(h) && limit > 0 && Invariant(h, origin, s) && Possible(h, limit, s, b)
    ensures NothingLeftBehind(h, origin, After(after, limit, s, b))
  {
    var s' := After(after, limit, s, b);
    CursorWithinBound(h, after, limit, s, b);
    forall v <- h | Current(h, v, s'.clock) && origin <= v.raw < s'.cursor.time - OVERLAP
      ensures v in s'.emitted
    {
      if v.raw < s.cursor.time - OVERLAP {
        assert Current(h, v, s.clock);
      } else {
        assert v in Window(h, b.readAt, s.cursor, b.upper);
        PageReachesCursor(h, after, limit, s, b, v);
      }
    }
  }

  lemma RunKeepsInvariant(h: set<Version>, origin: Time, after: KeyAfter, limit: nat, s: State, b: Batch)
    requires WellFormed(h) && limit > 0 && Invariant(h, origin, s) && Possible(h, limit, s, b)
    ensures Invariant(h, origin, After(after, limit, s, b))
    ensures s.cursor.initialized ==> s.cursor.time <= After(after, limit, s, b).cursor.time
  {
    CursorWithinBound(h, after, limit, s, b);
    RunKeepsEmitted(h, origin, after, limit, s, b);
    RunLeavesNothingBehind(h, origin, after, limit, s, b);
  }

  /** Over all runs, whatever primary_key_after answers, and the time of an initialised cursor never decreases. */
  lemma {:induction false} SimulatorIsSafe(h: set<Version>, origin: Time, after: KeyAfter, limit: nat, s: State, batches: seq<Batch>, s': State)
    requires WellFormed(h) && limit > 0 && Invariant(h, origin, s) && Runs(h, after, limit, s, batches, s')
    ensures Invariant(h, origin, s')
    ensures s.cursor.initialized ==> s'.cursor.initialized && s.cursor.time <= s'.cursor.time
    decreases |batches|
  {
    if batches != [] {
      RunKeepsInvariant(h, origin, after, limit, s, batches[0]);
      SimulatorIsSafe(h, origin, after, limit, After(after, limit, s, batches[0]), batches[1..], s');
    }
  }

  /** From a stream never read before on: the origin is the start of its first query. */
  lemma FirstRunOnIsSafe(h: set<Version>, after: KeyAfter, limit: nat, now: Time, lookback: nat, s: State, batches: seq<Batch>, s': State)
    requires WellFormed(h) && limit > 0 && Fresh(s, now, lookback) && Runs(h, after, limit, s, batches, s')
    ensures Invariant(h, now - lookback - OVERLAP, s')
    ensures batches != [] ==> s'.cursor.initialized
  {
    FreshInvariant(h, s, now, lookback);
    SimulatorIsSafe(h, now - lookback - OVERLAP, after, limit, s, batches, s');
    if batches != [] {
      var s1 := After(after, limit, s, batches[0]);
      RunKeepsInvariant(h, now - lookback - OVERLAP, after, limit, s, batches[0]);
      SimulatorIsSafe(h, now - lookback - OVERLAP, after, limit, s1, batches[1..], s');
    }
  }

  // ----- Rows that become visible behind the cursor -----

  /** Rows of a window at or before the cursor. */
  ghost function AtOrBefore(window: set<Version>, c: Cursor): set<Version> {
    set v <- window | !Before(Key(c.time, c.pk), KeyOf(ByRawStamp, v))
  }

  /** Every row the source held at the last read, from the origin to the cursor, has been handed out. */
  ghost predicate UpToDate(h: set<Version>, origin: Time, s: State) {
    forall v <- h :: (Current(h, v, s.clock) && origin <= v.raw
      && !Before(Key(s.cursor.time, s.cursor.pk), KeyOf(ByRawStamp, v))) ==> v in s.emitted
  }

  /** A run cuts off a row at or before the cursor, which it leaves as it is, that was not handed out before. */
  ghost predicate CutsOff(h: set<Version>, origin: Time, after: KeyAfter, limit: nat, s: State, b: Batch) {
    && |b.records| == limit && After(after, limit, s, b).cursor == s.cursor
    && exists v <- AtOrBefore(Window(h, b.readAt, s.cursor, b.upper), s.cursor) :: origin <= v.raw && v !in b.records && v !in s.emitted
  }

  lemma RunIsUpToDateExactly(h: set<Version>, origin: Time, after: KeyAfter, limit: nat, s: State, b: Batch)
    requires WellFormed(h) && limit > 0 && Invariant(h, origin, s) && Possible(h, limit, s, b)
    ensures UpToDate(h, origin, After(after, limit, s, b)) <==> !CutsOff(h, origin, after, limit, s, b)
  {
  }

  /** From a stream's first run on, for every stamp and every answer of primary_key_after: after the last of any number
      of runs everything up to the cursor has been handed out, as the source held it at that run's read, exactly if
      that run does not cut off a new row behind an unmoved cursor. */
  lemma UpToDateExactly(h: set<Version>, after: KeyAfter, limit: nat, now: Time, lookback: nat, s: State, batches: seq<Batch>, s': State, b: Batch)
    requires WellFormed(h) && limit > 0 && Fresh(s, now, lookback) && Runs(h, after, limit, s, batches, s') && Possible(h, limit, s', b)
    ensures UpToDate(h, now - lookback - OVERLAP, After(after, limit, s', b)) <==> !CutsOff(h, now - lookback - OVERLAP, after, limit, s', b)
  {
    FirstRunOnIsSafe(h, after, limit, now, lookback, s, batches, s');
    RunIsUpToDateExactly(h, now - lookback - OVERLAP, after, limit, s', b);
  }

  /** A guard that needs no record of what was handed out: a batch as large as the rows of its window up to the cursor. */
  lemma LargeBatchIsUpToDate(h: set<Version>, origin: Time, after: KeyAfter, limit: nat, s: State, b: Batch)
    requires WellFormed(h) && limit > 0 && Invariant(h, origin, s) && Possible(h, limit, s, b)
    requires |AtOrBefore(Window(h, b.readAt, s.cursor, b.upper), s.cursor)| <= limit
    ensures UpToDate(h, origin, After(after, limit, s, b))
  {
    var again := AtOrBefore(Window(h, b.readAt, s.cursor, b.upper), s.cursor);
    forall v <- again | v !in b.records ensures false {
      var listed := set r <- b.records;
      OrderedCount(ByRawStamp, listed, b.records);
      assert listed <= again - {v};
      CardinalityMonotone(listed, again - {v});
    }
    RunIsUpToDateExactly(h, origin, after, limit, s, b);
  }

  /** UUID order as SQL Server has it, for keys numbered in that order. */
  function LaterKey(): KeyAfter {
    (x: int, y: int) => x > y
  }

  /** The batch can cut one off: three runs of a fresh stream, of one row each, and the row that is lost behind the cursor. */
  lemma UnmovedCursorMissesLateRow() returns (h: set<Version>, s: State, batches: seq<Batch>, s': State, late: Version)
    ensures WellFormed(h) && Fresh(s, 40, 0) && Runs(h, LaterKey(), 1, s, batches, s')
    ensures Current(h, late, s'.clock) && s.cursor.time - OVERLAP <= late.raw
    ensures !Before(Key(s'.cursor.time, s'.cursor.pk), KeyOf(ByRawStamp, late)) && late !in s'.emitted
  {
    hide WellFormed, Current;
    var a, early := Version(5, 0, 30, 30, 0, true, 0), Version(1, 0, 10, 50, 0, true, 0);
    late := Version(2, 0, 20, 60, 0, true, 0);
    h := {a, early, late};
    UnchangingRows(h, late, 60);
    s := State(InitialCursor(40, 0), {}, 40, 40);
    var s1, s2 := State(Cursor(30, 5, true), {a}, 40, 40), State(Cursor(30, 5, true), {a, early}, 50, 40);
    s' := State(Cursor(30, 5, true), {a, early}, 60, 40);
    var b1, b2, b3 := Batch(40, 40, [a]), Batch(50, 50, [early]), Batch(60, 60, [early]);
    batches := [b1, b2, b3];
    OneRowRun(h, s, b1, a);
    OneRowRun(h, s1, b2, early);
    OneRowRun(h, s2, b3, early);
    hide Runs, Possible, Window;
    ThreeRuns(h, LaterKey(), 1, s, b1, s1, b2, s2, b3, s');
  }

  lemma UnchangingRows(h: set<Version>, v: Version, t: Time)
    requires forall v <- h, w <- h :: v.id == w.id ==> v == w
    requires v in h && forall v <- h :: v.raw <= v.visibleAt <= t && v.visibleAt <= v.raw + OVERLAP && MIN_PK < v.id
    ensures WellFormed(h) && Current(h, v, t)
  {
  }

  /** Where no row changes, a run of one row reads the first of those visible since the overlap. */
  lemma OneRowRun(h: set<Version>, s: State, b: Batch, first: Version)
    requires (forall v <- h, w <- h :: v.id == w.id ==> v == w) && OnGrid(b.upper) && s.clock <= b.upper <= b.readAt
    requires first in h && b.records == [first]
    requires forall v <- h :: v.visibleAt <= b.readAt && v.raw <= b.upper && Before(QueryKey(s.cursor), KeyOf(ByRawStamp, v)) ==>
      v == first || Before(KeyOf(ByRawStamp, first), KeyOf(ByRawStamp, v))
    requires first.visibleAt <= b.readAt && first.raw <= b.upper && Before(QueryKey(s.cursor), KeyOf(ByRawStamp, first))
    ensures Possible(h, 1, s, b)
  {
    var window := Window(h, b.readAt, s.cursor, b.upper);
    assert first in window;
    forall v <- window | v !in b.records ensures Before(KeyOf(ByRawStamp, first), KeyOf(ByRawStamp, v)) {
      assert v in h && v.visibleAt <= b.readAt;
    }
  }

  lemma ThreeRuns(h: set<Version>, after: KeyAfter, limit: nat, s: State, b1: Batch, s1: State, b2: Batch, s2: State, b3: Batch, s3: State)
    requires Possible(h, limit, s, b1) && s1 == After(after, limit, s, b1)
    requires Possible(h, limit, s1, b2) && s2 == After(after, limit, s1, b2)
    requires Possible(h, limit, s2, b3) && s3 == After(after, limit, s2, b3)
    ensures Runs(h, after, limit, s, [b1, b2, b3], s3)
  {
    hide Possible, After;
    assert [b1, b2, b3][1..] == [b2, b3] && [b2, b3][1..] == [b3] && [b3][1..] == [];
    assert Runs(h, after, limit, s2, [b3], s3);
    assert Runs(h, after, limit, s1, [b2, b3], s3);
  }

  // ----- Liveness -----

  /** Rows of a window in or before the cursor's microsecond. */
  ghost function InOrBefore(window: set<Version>, time: Time): set<Version> {
    set v <- window | Truncate(v.raw) <= time
  }

  /** For every stamp and every answer of primary_key_after: a full batch moves the cursor forward in time exactly if
      the rows of its window in or before the cursor's microsecond do not fill it. */
  lemma FullBatchAdvancesExactly(h: set<Version>, after: KeyAfter, limit: nat, s: State, b: Batch)
    requires limit > 0 && Possible(h, limit, s, b) && |b.records| == limit
    ensures s.cursor.time < NextCursor(after, s.cursor, b.records, limit, b.upper).time
       <==> |InOrBefore(Window(h, b.readAt, s.cursor, b.upper), s.cursor.time)| < limit
  {
    LimitRowsFill(Window(h, b.readAt, s.cursor, b.upper), b.records, limit, s.cursor.time);
  }

  /** The last row of a full answer is late exactly if the early rows are fewer. */
  lemma LimitRowsFill(window: set<Version>, records: seq<Version>, limit: nat, time: Time)
    requires limit > 0 && IsPage(ByRawStamp, window, records, limit) && |records| == limit
    ensures time < Truncate(records[limit - 1].raw) <==> |InOrBefore(window, time)| < limit
  {
    var again, final := InOrBefore(window, time), records[limit - 1];
    var listed := set r <- records;
    assert final in records;
    OrderedCount(ByRawStamp, listed, records);
    if Truncate(final.raw) <= time {
      forall r <- listed ensures r in again {
        assert r == final || Before(KeyOf(ByRawStamp, r), KeyOf(ByRawStamp, final));
      }
      CardinalityMonotone(listed, again);
    } else {
      forall v <- again ensures v in listed - {final} {
      }
      CardinalityMonotone(again, listed - {final});
    }
  }

  /** For every stamp and every answer of primary_key_after: a full batch leaves the cursor as it is exactly if the rows
      before the cursor's microsecond fill it, or those up to its end do and the last key is not a later one. */
  lemma FullBatchIsStuckExactly(h: set<Version>, after: KeyAfter, limit: nat, s: State, b: Batch)
    requires limit > 0 && Possible(h, limit, s, b) && |b.records| == limit && s.cursor.initialized
    ensures var window, pk := Window(h, b.readAt, s.cursor, b.upper), b.records[limit - 1].id;
      NextCursor(after, s.cursor, b.records, limit, b.upper) == s.cursor <==>
        (|InOrBefore(window, s.cursor.time - 1)| >= limit || (|InOrBefore(window, s.cursor.time)| >= limit && (pk == s.cursor.pk || !after(pk, s.cursor.pk))))
  {
    var window := Window(h, b.readAt, s.cursor, b.upper);
    LimitRowsFill(window, b.records, limit, s.cursor.time - 1);
    LimitRowsFill(window, b.records, limit, s.cursor.time);
  }

  /** With microsecond stamps and the server's own key order, a full batch leaves the cursor as it is exactly if the
      rows at or before it fill the batch. */
  lemma CountDecidesStuck(h: set<Version>, after: KeyAfter, limit: nat, s: State, b: Batch)
    requires limit > 0 && Possible(h, limit, s, b) && |b.records| == limit && s.cursor.initialized
    requires forall v <- Window(h, b.readAt, s.cursor, b.upper) :: OnGrid(v.raw)
    requires forall x, y :: after(x, y) <==> x > y
    ensures NextCursor(after, s.cursor, b.records, limit, b.upper) == s.cursor
       <==> |AtOrBefore(Window(h, b.readAt, s.cursor, b.upper), s.cursor)| >= limit
  {
    var final := b.records[limit - 1];
    var listed := set r <- b.records;
    var again := AtOrBefore(Window(h, b.readAt, s.cursor, b.upper), s.cursor);
    assert final in b.records;
    OrderedCount(ByRawStamp, listed, b.records);
    if Before(Key(s.cursor.time, s.cursor.pk), KeyOf(ByRawStamp, final)) {
      forall v <- again ensures v in listed - {final} {
      }
      CardinalityMonotone(again, listed - {final});
    } else {
      forall r <- listed ensures r in again {
        assert r == final || Before(KeyOf(ByRawStamp, r), KeyOf(ByRawStamp, final));
      }
      CardinalityMonotone(listed, again);
    }
  }

  /** The source has come to rest: nothing becomes visible after this moment. */
  ghost predicate AtRest(h: set<Version>, t: Time) {
    forall v <- h :: v.visibleAt <= t
  }

  /** What a query from this cursor finds on a source at rest, whenever it is issued. */
  ghost function Found(h: set<Version>, t: Time, c: Cursor): set<Version> {
    set v <- h | Current(h, v, t) && Before(QueryKey(c), KeyOf(ByRawStamp, v))
  }

  lemma FoundAgain(h: set<Version>, limit: nat, s: State, b: Batch)
    requires WellFormed(h) && AtRest(h, s.clock) && Possible(h, limit, s, b)
    ensures AtRest(h, b.readAt) && Window(h, b.readAt, s.cursor, b.upper) == Found(h, s.clock, s.cursor)
    ensures forall c: Cursor :: c.time == s.cursor.time ==> Found(h, b.readAt, c) == Found(h, s.clock, s.cursor)
  {
    assert forall v <- h :: Current(h, v, b.readAt) <==> Current(h, v, s.clock);
  }

  /** An answer from a window with this many early rows is full. */
  lemma EarlyRowsFill(window: set<Version>, records: seq<Version>, limit: nat, early: set<Version>)
    requires IsPage(ByRawStamp, window, records, limit) && early <= window && |early| >= limit
    ensures |records| == limit
  {
    if |records| < limit {
      var listed := set r <- records;
      OrderedCount(ByRawStamp, listed, records);
      assert early <= listed;
      CardinalityMonotone(early, listed);
    }
  }

  /** On a source at rest, for every stamp and every answer of primary_key_after: the next run moves an initialised
      cursor forward in time, or to the present, exactly if fewer than limit rows lie in or before its microsecond. */
  lemma TimeMovesExactly(h: set<Version>, after: KeyAfter, limit: nat, s: State, b: Batch)
    requires WellFormed(h) && limit > 0 && AtRest(h, s.clock) && s.cursor.initialized && s.cursor.time <= s.clock && Possible(h, limit, s, b)
    ensures var next := NextCursor(after, s.cursor, b.records, limit, b.upper);
      if |InOrBefore(Found(h, s.clock, s.cursor), s.cursor.time)| >= limit then next.time == s.cursor.time && next.initialized
      else s.cursor.time < next.time || next == Cursor(b.upper, MIN_PK, true)
  {
    var window := Window(h, b.readAt, s.cursor, b.upper);
    FoundAgain(h, limit, s, b);
    if |InOrBefore(window, s.cursor.time)| >= limit {
      EarlyRowsFill(window, b.records, limit, InOrBefore(window, s.cursor.time));
      LimitRowsFill(window, b.records, limit, s.cursor.time);
    } else if |b.records| == limit {
      LimitRowsFill(window, b.records, limit, s.cursor.time);
    }
  }

  /** And if limit rows do, no number of runs ever moves it in time. */
  lemma {:induction false} TimeStuckForever(h: set<Version>, after: KeyAfter, limit: nat, s: State, batches: seq<Batch>, s': State)
    requires WellFormed(h) && limit > 0 && AtRest(h, s.clock) && s.cursor.initialized && s.cursor.time <= s.clock
    requires Runs(h, after, limit, s, batches, s')
    requires |InOrBefore(Found(h, s.clock, s.cursor), s.cursor.time)| >= limit
    ensures s'.cursor.time == s.cursor.time
    decreases |batches|
  {
    if batches != [] {
      var b := batches[0];
      var s1 := After(after, limit, s, b);
      FoundAgain(h, limit, s, b);
      TimeMovesExactly(h, after, limit, s, b);
      assert Found(h, s1.clock, s1.cursor) == Found(h, s.clock, s.cursor);
      TimeStuckForever(h, after, limit, s1, batches[1..], s');
    }
  }

  /** On a source at rest, for every stamp and every answer of primary_key_after: if a full batch of what there is to
      find leaves the cursor as it is, no number of runs ever moves it. */
  lemma {:induction false} CursorStuckForever(h: set<Version>, after: KeyAfter, limit: nat, s: State, records: seq<Version>,
                                              batches: seq<Batch>, s': State)
    requires WellFormed(h) && limit > 0 && AtRest(h, s.clock) && s.cursor.time <= s.clock
    requires IsPage(ByRawStamp, Found(h, s.clock, s.cursor), records, limit) && |records| == limit
    requires NextCursor(after, s.cursor, records, limit, s.clock) == s.cursor
    requires Runs(h, after, limit, s, batches, s')
    ensures s'.cursor == s.cursor
    decreases |batches|
  {
    if batches != [] {
      FoundAgain(h, limit, s, batches[0]);
      PageIsUnique(ByRawStamp, Found(h, s.clock, s.cursor), records, batches[0].records, limit);
      CursorStuckForever(h, after, limit, After(after, limit, s, batches[0]), records, batches[1..], s');
    }
  }

  /** With microsecond stamps and the server's own key order, limit rows at or before the cursor hold it, key and all,
      forever; CountDecidesStuck is the other half. */
  lemma CountHoldsCursor(h: set<Version>, after: KeyAfter, limit: nat, s: State, batches: seq<Batch>, s': State)
    requires WellFormed(h) && limit > 0 && AtRest(h, s.clock) && s.cursor.initialized && s.cursor.time <= s.clock
    requires (forall v <- h :: OnGrid(v.raw)) && (forall x, y :: after(x, y) <==> x > y)
    requires Runs(h, after, limit, s, batches, s')
    requires |AtOrBefore(Found(h, s.clock, s.cursor), s.cursor)| >= limit
    ensures s'.cursor == s.cursor
  {
    if batches != [] {
      var b := batches[0];
      FoundAgain(h, limit, s, b);
      EarlyRowsFill(Found(h, s.clock, s.cursor), b.records, limit, AtOrBefore(Found(h, s.clock, s.cursor), s.cursor));
      CountDecidesStuck(h, after, limit, s, b);
      CursorStuckForever(h, after, limit, s, b.records, batches, s');
    }
  }

  /** Rows before the cursor's microsecond hold it likewise, whatever the stamps and the key comparison. */
  lemma EarlierRowsHoldCursor(h: set<Version>, after: KeyAfter, limit: nat, s: State, batches: seq<Batch>, s': State)
    requires WellFormed(h) && limit > 0 && AtRest(h, s.clock) && s.cursor.initialized && s.cursor.time <= s.clock
    requires Runs(h, after, limit, s, batches, s')
    requires |InOrBefore(Found(h, s.clock, s.cursor), s.cursor.time - 1)| >= limit
    ensures s'.cursor == s.cursor
  {
    if batches != [] {
      var b := batches[0];
      FoundAgain(h, limit, s, b);
      EarlyRowsFill(Found(h, s.clock, s.cursor), b.records, limit, InOrBefore(Found(h, s.clock, s.cursor), s.cursor.time - 1));
      FullBatchIsStuckExactly(h, after, limit, s, b);
      CursorStuckForever(h, after, limit, s, b.records, batches, s');
    }
  }

  // ----- One simulation over all streams of a source -----

  /** simulate_stream: one page, read at some later moment, and the cursor it leads to. */
  method SimulateStream(h: set<Version>, previous: Cursor, after: KeyAfter, now: Time, limit: nat)
    returns (records: seq<Version>, next: Cursor, ghost readAt: Time)
    requires WellFormed(h)
    ensures now <= readAt && IsPage(ByRawStamp, Window(h, readAt, previous, now), records, limit)
    ensures next == NextCursor(after, previous, records, limit, now)
  {
    var moment: Time :| now <= moment;
    var window := set v | v in h && Current(h, v, moment) && v.raw <= now && Before(QueryKey(previous), KeyOf(ByRawStamp, v));
    forall v <- window, w <- window | v.id == w.id ensures v == w {
      CurrentIsUnique(h, v, w, moment);
    }
    records := TopRows(ByRawStamp, window, limit);
    assert window == Window(h, moment, previous, now);
    next, readAt := NextCursor(after, previous, records, limit, now), moment;
  }

  /** The cursor file: one cursor per stream that has been read before. */
  class CursorDocument {
    var streams: map<string, Cursor>

    /** The cursor a run of this stream starts from. */
    function Previous(key: string, now: Time, lookback: nat): Cursor
      reads this
    {
      if key in streams then streams[key] else InitialCursor(now, lookback)
    }

    /**
     simulate_source: each stream is read once, up to the same bound; those whose query raises an error are
     reported, keep their cursors and do not disturb the others.
     */
    method SimulateSource(sources: map<string, set<Version>>, keys: seq<string>, after: KeyAfter,
                          now: Time, lookback: nat, limit: nat, raising: set<string>)
      returns (records: map<string, seq<Version>>, failed: seq<string>, ghost readAt: map<string, Time>)
      requires forall k <- keys :: k in sources && WellFormed(sources[k])
      requires forall i, j :: 0 <= i < j < |keys| ==> keys[i] != keys[j]
      modifies this
      ensures readAt.Keys == records.Keys && forall k :: k in records <==> k in keys && k !in raising
      ensures forall k :: k in failed <==> k in keys && k in raising
      ensures forall k <- records ::
        && now <= readAt[k]
        && IsPage(ByRawStamp, Window(sources[k], readAt[k], old(Previous(k, now, lookback)), now), records[k], limit)
        && k in streams && streams[k] == NextCursor(after, old(Previous(k, now, lookback)), records[k], limit, now)
      ensures forall k :: k !in records ==> (k in streams <==> k in old(streams)) && (k in streams ==> streams[k] == old(streams)[k])
    {
      hide WellFormed, IsPage, Window, NextCursor;
      records, failed, readAt := map[], [], map[];
      for n := 0 to |keys|
        invariant readAt.Keys == records.Keys && forall k :: k in records <==> k in keys[..n] && k !in raising
        invariant forall k :: k in failed <==> k in keys[..n] && k in raising
        invariant forall k <- records ::
          && now <= readAt[k]
          && IsPage(ByRawStamp, Window(sources[k], readAt[k], old(Previous(k, now, lookback)), now), records[k], limit)
          && k in streams && streams[k] == NextCursor(after, old(Previous(k, now, lookback)), records[k], limit, now)
        invariant forall k :: k !in records ==> (k in streams <==> k in old(streams)) && (k in streams ==> streams[k] == old(streams)[k])
      {
        var key := keys[n];
        assert key !in records;
        var previous := Previous(key, now, lookback);
        if key in raising {
          failed := failed + [key];
        } else {
          var page, next;
          ghost var moment;
          page, next, moment := SimulateStream(sources[key], previous, after, now, limit);
          streams := streams[key := next];
          records := records[key := page];
          readAt := readAt[key := moment];
        }
      }
    }
  }

  // ----- Duplicates within a batch -----

  /** duplicate_source_ids */
  method DuplicateSourceIds(ids: seq<int>) returns (duplicates: set<int>)
    ensures forall x :: x in duplicates <==> exists i, j :: 0 <= i < j < |ids| && ids[i] == x && ids[j] == x
  {
    var seen: set<int> := {};
    duplicates := {};
    for n := 0 to |ids|
      invariant forall x :: x in seen <==> x in ids[..n]
      invariant forall x :: x in duplicates <==> exists i, j :: 0 <= i < j < n && ids[i] == x && ids[j] == x
    {
      var value := ids[n];
      if value in seen {
        duplicates := duplicates + {value};
      }
      seen := seen + {value};
    }
  }

  /** One statement never reads two states of a row, so a batch has no duplicates to report. */
  lemma BatchHasNoDuplicates(h: set<Version>, limit: nat, s: State, b: Batch, i: nat, j: nat)
    requires WellFormed(h) && Possible(h, limit, s, b) && i < j < |b.records|
    ensures b.records[i].id != b.records[j].id
  {
    assert b.records[i] in b.records && b.records[j] in b.records;
    assert Before(KeyOf(ByRawStamp, b.records[i]), KeyOf(ByRawStamp, b.records[j]));
    DistinctRowsHaveDistinctIds(h, b.records[i], b.records[j], b.readAt);
  }
}
