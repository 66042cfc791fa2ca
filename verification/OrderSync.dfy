/**
 The ERP -> staging synchroniser as a state machine: the server's run, batch and cursor tables, one
 client session, and the steps a process can take, crashes included.  One stream of one source.
 */
module OrderSync {
  import opened Wrappers
  import opened Keyset

  /** What init_sql pages over: orders by business date, outbound lines and inventory by key alone. */
  datatype Stream = Orders | OutboundInitial | Inventory

  datatype Kind = Initialization | Compensation | Incremental

  // ----- The server -----

  /** erp_staging_raw_records: one row per source id; equal records have equal content hashes. */
  datatype Record = Record(stamp: Time, business: Time, open: bool, content: int)

  /** A RUNNING row of erp_sync_runs, with the number of its last committed batch. */
  datatype Run = Run(id: nat, upper: Time, batches: nat)

  datatype BatchKey =
    | InitializationBatch(after: Key)
    | IncrementalBatch(kind: Kind, upper: Time, number: nat)

  /** The INCREMENTAL row of erp_sync_cursors. */
  datatype Cursor = Cursor(lastUpper: Option<Time>, activeRun: Option<nat>,
                           activePage: Option<Key>, lastProcessed: Option<Key>)

  datatype Server = Server(staged: map<int, Record>, snapshot: Option<Time>, initialized: bool,
                           running: map<Kind, Run>, nextRun: nat, ledger: set<BatchKey>,
                           initCursor: Option<Key>, cursor: Cursor)

  const EMPTY_SERVER: Server :=
    Server(map[], None, false, map[], 0, {}, None, Cursor(None, None, None, None))

  /** The scans project the stamp rounded by the cast, initialisation as pytds truncates it. */
  function RecordOf(kind: Kind, v: Version): Record {
    Record(if kind == Initialization then Truncate(v.raw) else Stamp(v), v.business, v.open, v.content)
  }

  /** INSERT ... ON CONFLICT DO UPDATE WHERE content_hash differs. */
  function Upsert(staged: map<int, Record>, kind: Kind, rows: seq<Version>): map<int, Record> {
    if rows == [] then staged
    else Upsert(staged, kind, rows[..|rows| - 1])[rows[|rows| - 1].id := RecordOf(kind, rows[|rows| - 1])]
  }

  /** A run of this kind that is still RUNNING is handed out again, bounds included. */
  function StartRun(s: Server, kind: Kind, now: Time): Server {
    var snapshot := if kind == Initialization && s.snapshot.None? then Some(now) else s.snapshot;
    if kind in s.running then
      s.(snapshot := snapshot)
    else
      var upper := if kind == Initialization then snapshot.GetOr(now) else now;
      s.(snapshot := snapshot, running := s.running[kind := Run(s.nextRun, upper, 0)], nextRun := s.nextRun + 1)
  }

  function CommitInitialization(s: Server, rows: seq<Version>, number: nat, after: Key): Server
    requires Initialization in s.running
  {
    var key := InitializationBatch(after);
    if key in s.ledger then s else
    s.(staged := Upsert(s.staged, Initialization, rows),
       running := s.running[Initialization := s.running[Initialization].(batches := number)],
       ledger := s.ledger + {key},
       initCursor := Some(after))
  }

  function CommitIncremental(s: Server, kind: Kind, upper: Time, rows: seq<Version>, number: nat,
                             after: Option<Key>, full: bool): Server
    requires kind in s.running
  {
    var key := IncrementalBatch(kind, upper, number);
    if key in s.ledger then s else
    s.(staged := Upsert(s.staged, kind, rows),
       running := s.running[kind := s.running[kind].(batches := number)],
       ledger := s.ledger + {key},
       cursor := Cursor(if full then s.cursor.lastUpper else Some(upper),
                        Some(s.running[kind].id),
                        after,
                        if after.Some? then after else s.cursor.lastProcessed))
  }

  function CompleteRun(s: Server, kind: Kind): Server {
    s.(running := s.running - {kind},
       initialized := s.initialized || kind != Initialization,
       cursor := s.cursor.(activeRun := None, activePage := None))
  }

  function FailRun(s: Server, kind: Kind): Server {
    s.(running := s.running - {kind})
  }

  // ----- Sweeps: what one scan is after -----

  /** A scan for everything stamped from `floor` on and visible by `upper`, or for the initial scope. */
  datatype Sweep = Changes(floor: Option<Time>, upper: Time) | Inventoried(stream: Stream, snapshot: Time)

  function OrderOf(sweep: Sweep): Order {
    match sweep
    case Changes(_, _) => ByStamp
    case Inventoried(stream, _) => if stream == Orders then ByBusinessDate else ByPrimaryKey
  }

  /** E10_SCOPE / T_SCOPE with the openness of an order taken from the row itself. */
  predicate InScope(stream: Stream, v: Version, snapshot: Time) {
    stream == Inventory || START <= v.business <= snapshot || (v.business < START && v.open)
  }

  /** The WHERE clause apart from the cursor. */
  predicate Matches(sweep: Sweep, v: Version) {
    match sweep
    case Changes(_, upper) => Stamp(v) <= upper
    case Inventoried(stream, snapshot) => InScope(stream, v, snapshot)
  }

  /** What the scan must not miss. */
  predicate Wanted(sweep: Sweep, v: Version) {
    match sweep
    case Changes(floor, upper) => floor.Some? && floor.value <= Stamp(v) && v.visibleAt <= upper
    case Inventoried(stream, snapshot) =>
      v.visibleAt <= snapshot && InScope(stream, v, snapshot) && (stream == Orders ==> MIN_BUSINESS_DATE <= v.business)
  }

  function Horizon(sweep: Sweep): Time {
    match sweep case Changes(_, upper) => upper case Inventoried(_, snapshot) => snapshot
  }

  /** The rows a page query at time t can return. */
  ghost function Window(h: set<Version>, sweep: Sweep, t: Time, from: Key): set<Version> {
    set v | v in h && Current(h, v, t) && Matches(sweep, v) && Before(from, KeyOf(OrderOf(sweep), v))
  }

  // ----- The client -----

  /** Local variables of initialize / incremental between two pages. */
  datatype Session = Session(kind: Kind, runId: nat, bound: Time, page: Key, lastActual: Option<Key>,
                             batch: nat, done: bool)

  /** Everything, with three history variables the proofs speak of. */
  datatype World = World(server: Server, session: Option<Session>, clock: Time,
                         floor: Option<Time>, inventoried: bool, completed: Option<Time>)

  const EMPTY_WORLD: World := World(EMPTY_SERVER, None, 0, None, false, None)

  datatype Step =
    | Begin(kind: Kind, now: Time)
    | Page(readAt: Time, rows: seq<Version>)
    | Complete
    | Fail
    | Crash

  function SweepOf(stream: Stream, w: World, s: Session): Sweep {
    if s.kind == Initialization then Inventoried(stream, s.bound) else Changes(w.floor, s.bound)
  }

  /** overlap_boundary: the last finished scan, else the snapshot, else this run's own bound. */
  function Boundary(s: Server, upper: Time): Time {
    s.cursor.lastUpper.GetOr(s.snapshot.GetOr(upper))
  }

  function BeginIncremental(s: Server, kind: Kind): Session
    requires kind in s.running
  {
    var run := s.running[kind];
    var anchor := Key(Boundary(s, run.upper) - OVERLAP, MIN_PK);
    var resumed := s.cursor.activeRun == Some(run.id);
    Session(kind, run.id, run.upper, if resumed then s.cursor.activePage.GetOr(anchor) else anchor,
            s.cursor.lastProcessed, run.batches, false)
  }

  function BeginInitialization(s: Server): Session
    requires Initialization in s.running
  {
    var run := s.running[Initialization];
    Session(Initialization, run.id, run.upper, s.initCursor.GetOr(Key(MIN_BUSINESS_DATE, MIN_PK)),
            None, run.batches, false)
  }

  /** The earliest stamp the finished and running scans answer for. */
  function FloorAfterBegin(w: World, kind: Kind, server: Server): Option<Time>
    requires kind in server.running
  {
    if kind == Initialization || server.cursor.lastUpper.Some? then w.floor else
    var anchor := Boundary(server, server.running[kind].upper) - OVERLAP;
    if w.floor.Some? && w.floor.value > anchor then w.floor else Some(anchor)
  }

  function LastKey(sweep: Sweep, rows: seq<Version>, otherwise: Option<Key>): Option<Key> {
    if rows == [] then otherwise else Some(KeyOf(OrderOf(sweep), rows[|rows| - 1]))
  }

  /** The session after one page: the cursor moves to the last row, a partial page ends the scan. */
  function AfterPage(sweep: Sweep, s: Session, rows: seq<Version>): Session {
    s.(page := LastKey(sweep, rows, Some(s.page)).value, lastActual := LastKey(sweep, rows, s.lastActual),
       batch := s.batch + 1, done := |rows| < LIMIT)
  }

  function ServerAfterPage(sweep: Sweep, server: Server, s: Session, rows: seq<Version>): Server
    requires s.kind in server.running
  {
    var s' := AfterPage(sweep, s, rows);
    if s.kind == Initialization then
      CommitInitialization(server, rows, s'.batch, s'.page)
    else
      CommitIncremental(server, s.kind, s.bound, rows, s'.batch, s'.lastActual, |rows| == LIMIT)
  }

  // ----- Steps -----

  ghost predicate Enabled(h: set<Version>, stream: Stream, w: World, step: Step) {
    match step
    case Begin(kind, now) => w.session.None? && w.clock < now && OnGrid(now) && (kind == Compensation ==> w.inventoried)
    case Page(readAt, rows) =>
      && w.session.Some? && !w.session.value.done && w.session.value.kind in w.server.running
      && w.clock <= readAt
      && var sweep := SweepOf(stream, w, w.session.value);
         IsPage(OrderOf(sweep), Window(h, sweep, readAt, w.session.value.page), rows, LIMIT)
    case Complete => w.session.Some? && w.session.value.done
    case Fail => w.session.Some?
    case Crash => w.session.Some?
  }

  ghost function Next(h: set<Version>, stream: Stream, w: World, step: Step): World
    requires Enabled(h, stream, w, step)
  {
    match step
    case Begin(kind, now) =>
      var server := StartRun(w.server, kind, now);
      var session := if kind == Initialization then BeginInitialization(server) else BeginIncremental(server, kind);
      w.(server := server, session := Some(session), clock := now, floor := FloorAfterBegin(w, kind, server))
    case Page(readAt, rows) =>
      var s := w.session.value;
      var sweep := SweepOf(stream, w, s);
      w.(server := ServerAfterPage(sweep, w.server, s, rows), session := Some(AfterPage(sweep, s, rows)), clock := readAt)
    case Complete =>
      var s := w.session.value;
      if s.kind == Initialization then
        w.(server := CompleteRun(w.server, s.kind), session := None, inventoried := true)
      else
        w.(server := CompleteRun(w.server, s.kind), session := None, completed := Some(s.bound))
    case Fail => w.(server := FailRun(w.server, w.session.value.kind), session := None)
    case Crash => w.(session := None)
  }

  /** w' is reached from w by these steps, in order. */
  ghost predicate Reaches(h: set<Version>, stream: Stream, w: World, steps: seq<Step>, w': World)
    decreases |steps|
  {
    if steps == [] then w' == w
    else Enabled(h, stream, w, steps[0]) && Reaches(h, stream, Next(h, stream, w, steps[0]), steps[1..], w')
  }

  // ----- Guards of the client and the server -----

  /** assert_cursor_progress: a non-empty page must move the cursor. */
  function AssertCursorProgress(before: Key, after: Option<Key>, rowCount: nat): Result<(), string> {
    if rowCount > 0 && after == Some(before) then Err("paging cursor did not advance") else Ok(())
  }

  datatype Command = Initialize | RunCommand | IncrementalCommand

  /** needs_initialization: what main() does for a command, given the stored source state. */
  predicate NeedsInitialization(command: Command, state: Option<Server>) {
    match command
    case Initialize => true
    case IncrementalCommand => false
    case RunCommand => state.None? || !state.value.initialized
  }

  /** The checks the API service makes on an incremental batch before storing it. */
  predicate ServiceAccepts(rows: seq<Version>, after: Option<Key>, full: bool) {
    && |rows| <= 1000
    && full == (|rows| == 1000)
    && (forall i :: 1 <= i < |rows| ==>
          Stamp(rows[i - 1]) <= Stamp(rows[i]) && !(Stamp(rows[i]) == Stamp(rows[i - 1]) && rows[i].id == rows[i - 1].id))
    && (rows != [] && full ==> after == Some(KeyOf(ByStamp, rows[|rows| - 1])))
  }

  // ----- The invariant -----

  /** All columns of the row, and its stamp to the microsecond, rounded or truncated. */
  predicate IsRecordOf(record: Record, v: Version) {
    && record.business == v.business && record.open == v.open && record.content == v.content
    && record.stamp in {Truncate(v.raw), Quantise(v.raw)}
  }

  predicate IsStaged(staged: map<int, Record>, v: Version) {
    v.id in staged && IsRecordOf(staged[v.id], v)
  }

  predicate NotAfter(p: Option<Key>, k: Key) {
    p.None? || !Before(p.value, k)
  }

  /** Every current row the sweep wants, up to key p (all of them when p is None), is staged as it is. */
  ghost predicate Covered(h: set<Version>, t: Time, staged: map<int, Record>, sweep: Sweep, p: Option<Key>) {
    forall v <- h :: Current(h, v, t) && Wanted(sweep, v) && NotAfter(p, KeyOf(OrderOf(sweep), v)) ==> IsStaged(staged, v)
  }

  /** Staging holds states its rows really had, none of them from the future. */
  ghost predicate Genuine(h: set<Version>, t: Time, staged: map<int, Record>) {
    forall id <- staged :: exists v <- h :: v.id == id && v.visibleAt <= t && IsStaged(staged, v)
  }

  ghost predicate TimesInvariant(w: World) {
    var s := w.server;
    && (s.snapshot.Some? ==> OnGrid(s.snapshot.value) && s.snapshot.value <= w.clock)
    && (s.cursor.lastUpper.Some? ==> OnGrid(s.cursor.lastUpper.value) && s.cursor.lastUpper.value <= w.clock && w.floor.Some?)
    && (forall k <- s.running :: OnGrid(s.running[k].upper) && s.running[k].upper <= w.clock)
    && (w.floor.Some? ==> w.floor.value <= w.clock - OVERLAP && (s.snapshot.Some? ==> w.floor.value <= s.snapshot.value - OVERLAP))
    && (w.completed.Some? ==> w.completed.value <= w.clock && w.floor.Some?)
    && (w.inventoried ==> s.snapshot.Some?)
    && (s.cursor.activeRun.Some? ==> w.floor.Some?)
  }

  /** Run ids are given out once; the initialisation run carries the snapshot. */
  ghost predicate ServerInvariant(s: Server) {
    && (forall k <- s.running :: s.running[k].id < s.nextRun)
    && (forall k <- s.running, k' <- s.running :: s.running[k].id == s.running[k'].id ==> k == k')
    && (Initialization in s.running ==> s.snapshot == Some(s.running[Initialization].upper))
    && (s.cursor.activeRun.Some? ==> s.cursor.activeRun.value < s.nextRun && (Initialization in s.running ==> s.running[Initialization].id != s.cursor.activeRun.value))
    && (s.initCursor.Some? ==> s.snapshot.Some? && !Before(s.initCursor.value, Key(MIN_BUSINESS_DATE, MIN_PK)))
  }

  /** The live session works for a RUNNING run, from where the server says it is. */
  ghost predicate SessionInvariant(s: Server, c: Session, floor: Option<Time>) {
    && c.kind in s.running && s.running[c.kind].id == c.runId && s.running[c.kind].upper == c.bound
    && (c.kind == Initialization ==> c.page == s.initCursor.GetOr(Key(MIN_BUSINESS_DATE, MIN_PK)))
    && (c.kind != Initialization ==> s.running[c.kind].batches == c.batch && floor.Some?)
  }

  ghost predicate RunsInvariant(w: World) {
    ServerInvariant(w.server) && (w.session.Some? ==> SessionInvariant(w.server, w.session.value, w.floor))
  }

  /** No batch key still to be issued has been used. */
  ghost predicate LedgerInvariant(w: World) {
    var s := w.server;
    && (forall after :: InitializationBatch(after) in s.ledger ==> s.initCursor.Some? && !Before(s.initCursor.value, after))
    && (forall kind, upper, number: nat :: IncrementalBatch(kind, upper, number) in s.ledger ==>
          && upper <= w.clock && kind != Initialization
          && (kind in s.running && s.running[kind].upper == upper ==> number <= s.running[kind].batches))
  }

  ghost predicate CoverageInvariant(h: set<Version>, stream: Stream, w: World) {
    var s := w.server;
    && Genuine(h, w.clock, s.staged)
    && (s.cursor.lastUpper.Some? ==>
        Covered(h, w.clock, s.staged, Changes(w.floor, s.cursor.lastUpper.value), Some(Key(s.cursor.lastUpper.value - OVERLAP, MIN_PK))))
    && (forall k <- s.running :: s.cursor.activeRun == Some(s.running[k].id) && s.cursor.activePage.Some? ==>
        Covered(h, w.clock, s.staged, Changes(w.floor, s.running[k].upper), s.cursor.activePage))
    && (s.snapshot.Some? && s.initCursor.Some? ==> Covered(h, w.clock, s.staged, Inventoried(stream, s.snapshot.value), s.initCursor))
    && (w.inventoried && s.snapshot.Some? ==> Covered(h, w.clock, s.staged, Inventoried(stream, s.snapshot.value), None))
    && (w.completed.Some? ==> Covered(h, w.clock, s.staged, Changes(w.floor, w.completed.value), None))
    && (w.session.Some? ==>
        var c := w.session.value;
        Covered(h, w.clock, s.staged, SweepOf(stream, w, c), if c.done then None else Some(c.page)))
  }

  ghost predicate Invariant(h: set<Version>, stream: Stream, w: World) {
    TimesInvariant(w) && RunsInvariant(w) && LedgerInvariant(w) && CoverageInvariant(h, stream, w)
  }
}
