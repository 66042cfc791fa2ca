/** The synchroniser process itself: its loops, run against the state machine of OrderSync. */
module OrderSyncClient {
  import opened Wrappers
  import opened Keyset
  import opened OrderSync
  import opened OrderSyncProofs
  import opened OrderSyncTheorems

  datatype Outcome = Completed | Failed | Crashed

  // ----- Sequences of steps -----

  lemma {:induction false} ReachesStep(h: set<Version>, stream: Stream, w: World, steps: seq<Step>, w1: World, step: Step)
    requires Reaches(h, stream, w, steps, w1) && Enabled(h, stream, w1, step)
    ensures Reaches(h, stream, w, steps + [step], Next(h, stream, w1, step))
    decreases |steps|
  {
    if steps == [] {
      assert (steps + [step])[1..] == [];
    } else {
      assert (steps + [step])[1..] == steps[1..] + [step];
      ReachesStep(h, stream, Next(h, stream, w, steps[0]), steps[1..], w1, step);
    }
  }

  lemma {:induction false} ReachesJoin(h: set<Version>, stream: Stream, w: World, steps: seq<Step>, w1: World, more: seq<Step>, w2: World)
    requires Reaches(h, stream, w, steps, w1) && Reaches(h, stream, w1, more, w2)
    ensures Reaches(h, stream, w, steps + more, w2)
    ensures DrivenByRun(h, stream, w, steps) && DrivenByRun(h, stream, w1, more) ==> DrivenByRun(h, stream, w, steps + more)
    decreases |steps|
  {
    if steps == [] {
      assert steps + more == more;
    } else {
      assert (steps + more)[1..] == steps[1..] + more;
      ReachesJoin(h, stream, Next(h, stream, w, steps[0]), steps[1..], w1, more, w2);
    }
  }

  /** A process begins once; what follows cannot break DrivenByRun. */
  lemma {:induction false} OneBegin(h: set<Version>, stream: Stream, w: World, steps: seq<Step>, w': World)
    requires Reaches(h, stream, w, steps, w')
    requires forall i :: 0 < i < |steps| ==> !steps[i].Begin?
    requires steps != [] && steps[0].Begin? && steps[0].kind == Incremental ==> w.server.initialized
    ensures DrivenByRun(h, stream, w, steps)
    decreases |steps|
  {
    if steps != [] {
      OneBegin(h, stream, Next(h, stream, w, steps[0]), steps[1..], w');
    }
  }

  /** One run of this kind, from its begin to its end. */
  predicate IsRun(kind: Kind, steps: seq<Step>, outcome: Outcome) {
    && |steps| > 1 && steps[0].Begin? && steps[0].kind == kind
    && (forall i :: 0 < i < |steps| ==> !steps[i].Begin?)
    && steps[|steps| - 1] == (match outcome case Completed => Complete case Failed => Fail case Crashed => Crash)
  }

  /** An initialisation that did not complete, or a complete one and the compensation after it. */
  ghost predicate IsInitialization(steps: seq<Step>, outcome: Outcome) {
    || (outcome != Completed && IsRun(Initialization, steps, outcome))
    || exists k :: 0 <= k <= |steps| && IsRun(Initialization, steps[..k], Completed) && IsRun(Compensation, steps[k..], outcome)
  }

  // ----- The process -----

  ghost function Ahead(h: set<Version>, o: Order, page: Key): set<Version> {
    set v <- h | Before(page, KeyOf(o, v))
  }

  /** What a page read by incremental() means for its session. */
  lemma FetchedPage(h: set<Version>, stream: Stream, w: World, readAt: Time, fetched: seq<Version>)
    requires WellFormed(h) && Invariant(h, stream, w)
    requires w.session.Some? && w.session.value.kind != Initialization && !w.session.value.done && w.clock <= readAt
    requires IsPage(ByStamp, Window(h, Changes(None, w.session.value.bound), readAt, w.session.value.page), fetched, LIMIT)
    ensures Enabled(h, stream, w, Page(readAt, fetched))
    ensures var c := w.session.value;
            var c' := AfterPage(Changes(None, c.bound), c, fetched);
            && Next(h, stream, w, Page(readAt, fetched)).session == Some(c')
            && AssertCursorProgress(c.page, c'.lastActual, |fetched|).Ok?
            && (c'.done || |Ahead(h, ByStamp, c'.page)| < |Ahead(h, ByStamp, c.page)|)
  {
    var c := w.session.value;
    var sweep := SweepOf(stream, w, c);
    assert Window(h, Changes(None, c.bound), readAt, c.page) == Window(h, sweep, readAt, c.page);
    PagesPassEveryGuard(h, stream, w, readAt, fetched);
    if fetched != [] {
      PageAdvances(h, sweep, readAt, c.page, fetched);
    }
  }

  class Synchronizer {
    /** The source database over all time; a query only sees what is current when it runs. */
    const rows: set<Version>
    const stream: Stream
    var clock: Time
    var server: Server
    /** The same state with its history, and no session: processes do not outlive their run. */
    ghost var world: World

    ghost predicate Valid()
      reads this
    {
      && WellFormed(rows)
      && world.server == server && world.clock == clock && world.session.None?
      && Invariant(rows, stream, world)
    }

    constructor (rows: set<Version>, stream: Stream)
      requires WellFormed(rows)
      ensures Valid() && this.rows == rows && this.stream == stream && world == EMPTY_WORLD
    {
      this.rows, this.stream, clock, server, world := rows, stream, 0, EMPTY_SERVER, EMPTY_WORLD;
      EmptyWorldInvariant(rows, stream);
    }

    /** The source clock: a later time, on the microsecond grid. */
    method Now() returns (now: Time)
      modifies this`clock
      ensures clock == now && old(clock) < now && OnGrid(now)
    {
      var later: Time :| clock <= later;
      now := (later / MICROSECOND + 1) * MICROSECOND;
      clock := now;
    }

    /** One page, read at some later moment. */
    method Query(sweep: Sweep, from: Key) returns (page: seq<Version>)
      requires WellFormed(rows)
      modifies this`clock
      ensures old(clock) <= clock
      ensures IsPage(OrderOf(sweep), Window(rows, sweep, clock, from), page, LIMIT)
    {
      var o := OrderOf(sweep);
      var readAt: Time :| clock <= readAt;
      clock := readAt;
      var window := set v | v in rows && Current(rows, v, readAt) && Matches(sweep, v) && Before(from, KeyOf(o, v));
      forall v <- window, w <- window | v.id == w.id ensures v == w {
        CurrentIsUnique(rows, v, w, readAt);
      }
      page := TopRows(o, window, LIMIT);
    }

    /** A process is between two pages: its local variables are those of the session in the history. */
    ghost predicate Live(c: Session, steps: seq<Step>, start: World)
      reads this
    {
      && WellFormed(rows) && Invariant(rows, stream, world)
      && world.server == server && world.clock == clock && world.session == Some(c)
      && Reaches(rows, stream, start, steps, world)
      && steps != [] && steps[0].Begin? && (forall i :: 0 < i < |steps| ==> !steps[i].Begin?)
    }

    /** The record of a step in the history. */
    ghost method Record(step: Step, steps: seq<Step>, start: World) returns (steps': seq<Step>)
      requires WellFormed(rows) && Invariant(rows, stream, world) && Enabled(rows, stream, world, step)
      requires Reaches(rows, stream, start, steps, world)
      modifies this`world
      ensures world == Next(rows, stream, old(world), step)
      ensures Invariant(rows, stream, world)
      ensures steps' == steps + [step] && Reaches(rows, stream, start, steps', world)
    {
      StepKeepsInvariant(rows, stream, world, step);
      ReachesStep(rows, stream, start, steps, world, step);
      world := Next(rows, stream, world, step);
      steps' := steps + [step];
    }

    /** The process is killed: nothing reaches the server. */
    ghost method Die(c: Session, steps: seq<Step>, start: World) returns (steps': seq<Step>)
      requires Live(c, steps, start)
      modifies this`world
      ensures Valid() && Reaches(rows, stream, start, steps', world) && steps' == steps + [Crash]
      ensures world.inventoried == old(world).inventoried
    {
      steps' := Record(Crash, steps, start);
    }

    /** main() catches an exception and reports the run as failed. */
    method ReportFailure(c: Session, ghost steps: seq<Step>, ghost start: World) returns (ghost steps': seq<Step>)
      requires Live(c, steps, start)
      modifies this`server, this`world
      ensures Valid() && Reaches(rows, stream, start, steps', world) && steps' == steps + [Fail]
      ensures world.inventoried == old(world).inventoried
    {
      server := FailRun(server, c.kind);
      steps' := Record(Fail, steps, start);
    }

    method ReportCompletion(c: Session, ghost steps: seq<Step>, ghost start: World) returns (ghost steps': seq<Step>)
      requires Live(c, steps, start) && c.done
      modifies this`server, this`world
      ensures Valid() && Reaches(rows, stream, start, steps', world) && steps' == steps + [Complete]
      ensures if c.kind == Initialization then world == old(world).(server := server, session := None, inventoried := true)
              else world == old(world).(server := server, session := None, completed := Some(c.bound))
      ensures server == CompleteRun(old(server), c.kind)
    {
      server := CompleteRun(server, c.kind);
      steps' := Record(Complete, steps, start);
    }

    /** One turn of the loop in incremental(). */
    method IncrementalPage(c: Session, ghost steps: seq<Step>, ghost start: World) returns (c': Session, ghost steps': seq<Step>)
      requires Live(c, steps, start) && !c.done && c.kind != Initialization
      modifies this
      ensures Live(c', steps', start) && steps'[0] == steps[0]
      ensures c'.kind == c.kind && c'.runId == c.runId && c'.bound == c.bound
      ensures c'.done || |Ahead(rows, ByStamp, c'.page)| < |Ahead(rows, ByStamp, c.page)|
      ensures world.inventoried == old(world).inventoried
    {
      var fetched := Query(Changes(None, c.bound), c.page);
      var last := if fetched == [] then c.lastActual else Some(KeyOf(ByStamp, fetched[|fetched| - 1]));
      c' := c.(batch := c.batch + 1, done := |fetched| < LIMIT, page := if fetched == [] then c.page else last.value, lastActual := last);
      FetchedPage(rows, stream, world, clock, fetched);
      assert AssertCursorProgress(c.page, c'.lastActual, |fetched|).Ok?;
      server := CommitIncremental(server, c.kind, c.bound, fetched, c'.batch, c'.lastActual, |fetched| == LIMIT);
      steps' := Record(Page(clock, fetched), steps, start);
    }

    /** One turn of the loop in initialize(). */
    method InitializationPage(c: Session, ghost steps: seq<Step>, ghost start: World) returns (c': Session, ghost steps': seq<Step>)
      requires Live(c, steps, start) && !c.done && c.kind == Initialization
      modifies this
      ensures Live(c', steps', start) && steps'[0] == steps[0]
      ensures c'.kind == c.kind && c'.runId == c.runId && c'.bound == c.bound
      ensures var o := OrderOf(Inventoried(stream, c.bound));
              c'.done || |Ahead(rows, o, c'.page)| < |Ahead(rows, o, c.page)|
    {
      hide CoverageInvariant, ServerInvariant, LedgerInvariant, WellFormed;
      var sweep := Inventoried(stream, c.bound);
      var fetched := Query(sweep, c.page);
      assert Enabled(rows, stream, world, Page(clock, fetched));
      c' := c.(batch := c.batch + 1, done := |fetched| < LIMIT);
      if fetched != [] {
        var last := KeyOf(OrderOf(sweep), fetched[|fetched| - 1]);
        c' := c'.(page := last, lastActual := Some(last));
        PageAdvances(rows, sweep, clock, c.page, fetched);
      }
      server := CommitInitialization(server, fetched, c'.batch, c'.page);
      steps' := Record(Page(clock, fetched), steps, start);
    }

    /** incremental(): one scan of the changes since the last one, possibly resumed, failed or killed. */
    method Incremental(kind: Kind) returns (outcome: Outcome, ghost steps: seq<Step>)
      requires Valid() && kind != Initialization && (kind == Compensation ==> world.inventoried)
      modifies this
      ensures Valid() && Reaches(rows, stream, old(world), steps, world)
      ensures IsRun(kind, steps, outcome)
      ensures outcome == Completed ==>
        && server.initialized
        && world.completed == Some(if kind in old(server.running) then old(server.running)[kind].upper else steps[0].now)
      ensures world.inventoried == old(world).inventoried
    {
      hide CoverageInvariant, ServerInvariant, LedgerInvariant, Ahead, WellFormed;
      ghost var start := world;
      var now := Now();
      server := StartRun(server, kind, now);
      var c := BeginIncremental(server, kind);
      steps := Record(Begin(kind, now), [], start);
      while !c.done
        invariant Live(c, steps, start) && steps[0] == Begin(kind, now)
        invariant c.kind == kind && c.bound == if kind in start.server.running then start.server.running[kind].upper else now
        invariant world.inventoried == start.inventoried
        decreases !c.done, |Ahead(rows, ByStamp, c.page)|
      {
        if * {
          steps := Die(c, steps, start);
          return Crashed, steps;
        }
        if * {
          steps := ReportFailure(c, steps, start);
          return Failed, steps;
        }
        c, steps := IncrementalPage(c, steps, start);
      }
      steps := ReportCompletion(c, steps, start);
      outcome := Completed;
    }

    /** initialize(): page through the initial scope, then compensate for what changed meanwhile. */
    method Initialize() returns (outcome: Outcome, ghost steps: seq<Step>)
      requires Valid()
      modifies this
      ensures Valid() && Reaches(rows, stream, old(world), steps, world)
      ensures DrivenByRun(rows, stream, old(world), steps) && IsInitialization(steps, outcome)
      ensures outcome == Completed ==> world.inventoried && world.completed.Some? && server.initialized
    {
      hide CoverageInvariant, ServerInvariant, LedgerInvariant, Ahead, WellFormed;
      ghost var start := world;
      var now := Now();
      server := StartRun(server, Initialization, now);
      var c := BeginInitialization(server);
      steps := Record(Begin(Initialization, now), [], start);
      while !c.done
        invariant Live(c, steps, start) && steps[0] == Begin(Initialization, now) && c.kind == Initialization
        invariant c.bound == server.running[Initialization].upper
        decreases !c.done, |Ahead(rows, OrderOf(Inventoried(stream, c.bound)), c.page)|
      {
        if * {
          steps := Die(c, steps, start);
          OneBegin(rows, stream, start, steps, world);
          return Crashed, steps;
        }
        if * {
          steps := ReportFailure(c, steps, start);
          OneBegin(rows, stream, start, steps, world);
          return Failed, steps;
        }
        c, steps := InitializationPage(c, steps, start);
      }
      steps := ReportCompletion(c, steps, start);
      OneBegin(rows, stream, start, steps, world);
      ghost var middle := world;
      ghost var more;
      assert IsRun(Initialization, steps, Completed);
      outcome, more := Incremental(Compensation);
      OneBegin(rows, stream, middle, more, world);
      ReachesJoin(rows, stream, start, steps, middle, more, world);
      assert (steps + more)[..|steps|] == steps && (steps + more)[|steps|..] == more;
      steps := steps + more;
    }

    /** main(): the command decides between initialisation and an incremental scan. */
    method Sync(command: Command) returns (outcome: Outcome, ghost steps: seq<Step>)
      requires Valid()
      modifies this
      ensures Valid() && Reaches(rows, stream, old(world), steps, world)
      ensures command != IncrementalCommand ==> DrivenByRun(rows, stream, old(world), steps)
      ensures if command == OrderSync.Initialize || (command == RunCommand && !old(server).initialized) then IsInitialization(steps, outcome)
              else IsRun(OrderSync.Incremental, steps, outcome)
      ensures outcome == Completed ==> server.initialized && world.completed.Some?
    {
      ghost var start := world;
      if NeedsInitialization(command, Some(server)) {
        outcome, steps := Initialize();
      } else {
        outcome, steps := Incremental(OrderSync.Incremental);
        if command != IncrementalCommand {
          OneBegin(rows, stream, start, steps, world);
        }
      }
    }
  }

  /** A non-empty page leaves fewer versions ahead of the cursor, which is why the loops end. */
  lemma PageAdvances(h: set<Version>, sweep: Sweep, t: Time, from: Key, page: seq<Version>)
    requires IsPage(OrderOf(sweep), Window(h, sweep, t, from), page, LIMIT) && page != []
    ensures |Ahead(h, OrderOf(sweep), KeyOf(OrderOf(sweep), page[|page| - 1]))| < |Ahead(h, OrderOf(sweep), from)|
  {
    var o := OrderOf(sweep);
    var last := page[|page| - 1];
    assert last in page;
    CardinalityMonotone(Ahead(h, o, KeyOf(o, last)), Ahead(h, o, from) - {last});
  }
}
