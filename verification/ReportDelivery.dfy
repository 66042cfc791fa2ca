/**
 send_report as a state machine over its persisted receipt: a component is written down as `sending`
 before the provider is called, and as `sent` or `failed` after it answered.
 */
module ReportDelivery {
  import opened Wrappers

  type User = string

  datatype Component = Text | OperationImage | ReportingImage

  datatype Mark = Sending | Sent | Failed

  /** What a receipt holds for one recipient. */
  datatype Progress = Progress(text: Option<Mark>, operation: Option<Mark>, reporting: Option<Mark>, sendReporting: Option<bool>)

  const NOTHING: Progress := Progress(None, None, None, None)

  /** The JSON receipt: a single recipient keeps its progress flat, several keep it per user. */
  datatype Receipt = Receipt(recipients: Option<seq<User>>, flat: Progress, deliveries: map<User, Progress>)

  const NO_RECEIPT: Receipt := Receipt(None, NOTHING, map[])

  function MarkOf(p: Progress, c: Component): Option<Mark> {
    match c case Text => p.text case OperationImage => p.operation case ReportingImage => p.reporting
  }

  function WithMark(p: Progress, c: Component, m: Mark): Progress {
    match c
    case Text => p.(text := Some(m))
    case OperationImage => p.(operation := Some(m))
    case ReportingImage => p.(reporting := Some(m))
  }

  function ProgressOf(r: Receipt, users: seq<User>, u: User): Progress {
    if |users| == 1 then r.flat else if u in r.deliveries then r.deliveries[u] else NOTHING
  }

  /** Persisting always writes the recipients along. */
  function WithProgress(r: Receipt, users: seq<User>, u: User, p: Progress): Receipt {
    if |users| == 1 then Receipt(Some(users), p, r.deliveries)
    else Receipt(Some(users), r.flat, r.deliveries[u := p])
  }

  predicate HasFlatMarks(r: Receipt) {
    r.flat.text.Some? || r.flat.operation.Some? || r.flat.reporting.Some?
  }

  /** The checks before anything is sent. */
  predicate Refuses(r: Receipt, users: seq<User>) {
    (r.recipients.Some? && r.recipients.value != users) || (|users| > 1 && HasFlatMarks(r))
  }

  // ----- The machine -----

  datatype Stage = Ready(c: Component) | Calling(c: Component, answered: bool) | Deciding | Finished

  /** A run in progress: whose turn it is, and how far it got with them. */
  datatype Session = Session(users: seq<User>, at: nat, stage: Stage)

  /** The receipt on disk, what the provider has accepted (in order), and the run, if one is alive. */
  datatype World = World(disk: Receipt, accepted: seq<(User, Component)>, session: Option<Session>)

  const EMPTY_WORLD: World := World(NO_RECEIPT, [], None)

  datatype Step =
    | Begin(users: seq<User>)
    | Attempt
    | ProviderAccepts
    | Reply(ok: bool)
    | Decide(needed: bool)
    | Abort

  function NextRecipient(s: Session): Session {
    if s.at + 1 < |s.users| then Session(s.users, s.at + 1, Ready(Text)) else s.(stage := Finished)
  }

  function AfterComponent(s: Session, c: Component): Session {
    match c
    case Text => s.(stage := Ready(OperationImage))
    case OperationImage => s.(stage := Deciding)
    case ReportingImage => NextRecipient(s)
  }

  predicate Enabled(w: World, step: Step) {
    match step
    case Begin(users) => w.session.None? && users != []
    case Attempt => w.session.Some? && w.session.value.at < |w.session.value.users| && w.session.value.stage.Ready?
    case ProviderAccepts => w.session.Some? && w.session.value.at < |w.session.value.users| && w.session.value.stage.Calling? && !w.session.value.stage.answered
    case Reply(ok) => w.session.Some? && w.session.value.at < |w.session.value.users| && w.session.value.stage.Calling? && w.session.value.stage.answered == ok
    case Decide(_) => w.session.Some? && w.session.value.at < |w.session.value.users| && w.session.value.stage.Deciding?
    case Abort => w.session.Some?
  }

  /** send(component) up to the provider call. */
  function AttemptStep(w: World, s: Session): World
    requires s.at < |s.users| && s.stage.Ready?
  {
    var u := s.users[s.at];
    var p := ProgressOf(w.disk, s.users, u);
    var c := s.stage.c;
    if MarkOf(p, c) == Some(Sent) then w.(session := Some(AfterComponent(s, c)))
    else if MarkOf(p, c) == Some(Sending) then w.(session := None)
    else w.(disk := WithProgress(w.disk, s.users, u, WithMark(p, c, Sending)), session := Some(s.(stage := Calling(c, false))))
  }

  /** send(component) after the provider answered. */
  function ReplyStep(w: World, s: Session, ok: bool): World
    requires s.at < |s.users| && s.stage.Calling?
  {
    var u := s.users[s.at];
    var p := ProgressOf(w.disk, s.users, u);
    var c := s.stage.c;
    if ok then w.(disk := WithProgress(w.disk, s.users, u, WithMark(p, c, Sent)), session := Some(AfterComponent(s, c)))
    else w.(disk := WithProgress(w.disk, s.users, u, WithMark(p, c, Failed)), session := None)
  }

  /** The reporting image is decided once per recipient, after the operation image. */
  function DecideStep(w: World, s: Session, needed: bool): World
    requires s.at < |s.users|
  {
    var u := s.users[s.at];
    var p := ProgressOf(w.disk, s.users, u);
    var disk := if p.sendReporting.None? then WithProgress(w.disk, s.users, u, p.(sendReporting := Some(needed))) else w.disk;
    var send := p.sendReporting.GetOr(needed);
    w.(disk := disk, session := Some(if send then s.(stage := Ready(ReportingImage)) else NextRecipient(s)))
  }

  function Next(w: World, step: Step): World
    requires Enabled(w, step)
  {
    match step
    case Begin(users) => if Refuses(w.disk, users) then w else w.(session := Some(Session(users, 0, Ready(Text))))
    case Attempt => AttemptStep(w, w.session.value)
    case ProviderAccepts =>
      var s := w.session.value;
      w.(accepted := w.accepted + [(s.users[s.at], s.stage.c)], session := Some(s.(stage := Calling(s.stage.c, true))))
    case Reply(ok) => ReplyStep(w, w.session.value, ok)
    case Decide(needed) => DecideStep(w, w.session.value, needed)
    case Abort => w.(session := None)
  }

  ghost predicate Reaches(w: World, steps: seq<Step>, w': World)
    decreases |steps|
  {
    if steps == [] then w' == w else Enabled(w, steps[0]) && Reaches(Next(w, steps[0]), steps[1..], w')
  }

  // ----- The invariant -----

  predicate Complete(p: Progress) {
    p.text == Some(Sent) && p.operation == Some(Sent) && p.sendReporting.Some? && (p.sendReporting.value ==> p.reporting == Some(Sent))
  }

  /** Text, then the operation image, then the decision, then the reporting image if decided. */
  predicate WellStaged(p: Progress) {
    && (p.operation.Some? ==> p.text == Some(Sent))
    && (p.sendReporting.Some? ==> p.operation == Some(Sent))
    && (p.reporting.Some? ==> p.sendReporting == Some(true))
  }

  /** Two names may stand for one user id; its first place in the list is where it is served. */
  function First(users: seq<User>, u: User): (i: nat)
    requires u in users
    ensures i < |users| && users[i] == u && u !in users[..i]
  {
    if users[0] == u then 0 else First(users[1..], u) + 1
  }

  /** Delivery order in the receipt: nothing for a recipient before the ones in front are complete. */
  predicate InOrder(r: Receipt, users: seq<User>) {
    && (forall u <- users :: WellStaged(ProgressOf(r, users, u)))
    && (forall u <- users, v <- users :: First(users, u) < First(users, v) && ProgressOf(r, users, v) != NOTHING ==> Complete(ProgressOf(r, users, u)))
  }

  function Ordinal(c: Component): nat {
    match c case Text => 0 case OperationImage => 1 case ReportingImage => 2
  }

  /** e comes before f in delivery order: earlier recipient, or same recipient and earlier component. */
  predicate Precedes(users: seq<User>, e: (User, Component), f: (User, Component)) {
    && e.0 in users && f.0 in users
    && (First(users, e.0) < First(users, f.0) || (e.0 == f.0 && Ordinal(e.1) < Ordinal(f.1)))
  }

  /** The provider accepted components in delivery order, so each at most once. */
  predicate AcceptedInOrder(accepted: seq<(User, Component)>, users: seq<User>) {
    forall m, n :: 0 <= m < n < |accepted| ==> Precedes(users, accepted[m], accepted[n])
  }

  /** Whatever was accepted is marked so or unconfirmed; whatever is marked sent was accepted. */
  predicate MarksMatch(r: Receipt, accepted: seq<(User, Component)>, users: seq<User>) {
    && (forall e <- accepted :: e.0 in users && MarkOf(ProgressOf(r, users, e.0), e.1) in {Some(Sending), Some(Sent)})
    && (forall u <- users, c: Component :: MarkOf(ProgressOf(r, users, u), c) == Some(Sent) ==> (u, c) in accepted)
  }

  predicate StageFits(p: Progress, stage: Stage, u: User, accepted: seq<(User, Component)>) {
    match stage
    case Ready(c) => ReadyFor(p, c)
    case Calling(c, answered) => ReadyFor(p, c) && MarkOf(p, c) == Some(Sending) && (answered <==> (u, c) in accepted)
    case Deciding => p.operation == Some(Sent)
    case Finished => Complete(p)
  }

  predicate ReadyFor(p: Progress, c: Component) {
    match c
    case Text => true
    case OperationImage => p.text == Some(Sent)
    case ReportingImage => p.sendReporting == Some(true)
  }

  /** The run serves the recipients of the receipt, and all in front are complete. */
  predicate PlaceFits(disk: Receipt, s: Session) {
    && s.users != [] && s.at < |s.users| && (disk.recipients.Some? ==> disk.recipients.value == s.users)
    && (forall i :: 0 <= i < s.at ==> Complete(ProgressOf(disk, s.users, s.users[i])))
  }

  predicate SessionFits(w: World, s: Session) {
    PlaceFits(w.disk, s) && StageFits(ProgressOf(w.disk, s.users, s.users[s.at]), s.stage, s.users[s.at], w.accepted)
  }

  ghost predicate Invariant(w: World) {
    && (w.disk.recipients.None? ==> w.disk == NO_RECEIPT && w.accepted == [])
    && (w.disk.recipients.Some? ==>
        var users := w.disk.recipients.value;
        users != [] && (|users| > 1 ==> w.disk.flat == NOTHING) && InOrder(w.disk, users) && MarksMatch(w.disk, w.accepted, users) && AcceptedInOrder(w.accepted, users))
    && (w.session.Some? ==> SessionFits(w, w.session.value))
  }

  // ----- Steps keep it -----

  lemma OtherProgress(r: Receipt, users: seq<User>, u: User, p: Progress, v: User)
    requires u in users && v in users
    ensures ProgressOf(WithProgress(r, users, u, p), users, v) == if v == u then p else ProgressOf(r, users, v)
  {
  }

  /** A recipient who is not complete is served at the first place of the list. */
  lemma ServedAtFirst(w: World, s: Session)
    requires SessionFits(w, s) && !Complete(ProgressOf(w.disk, s.users, s.users[s.at]))
    ensures First(s.users, s.users[s.at]) == s.at
    ensures forall u <- s.users :: First(s.users, u) < s.at ==> Complete(ProgressOf(w.disk, s.users, u))
  {
    FirstAtMost(s.users, s.at);
  }

  lemma {:induction false} FirstAtMost(users: seq<User>, i: nat)
    requires i < |users|
    ensures First(users, users[i]) <= i
  {
    if users[0] != users[i] {
      FirstAtMost(users[1..], i - 1);
    }
  }

  /** What the invariant says of the recipient whose turn it is. */
  lemma OwnProgress(w: World, s: Session)
    requires Invariant(w) && w.session == Some(s)
    ensures var u := s.users[s.at];
            var p := ProgressOf(w.disk, s.users, u);
            && u in s.users && WellStaged(p)
            && forall c: Component ::
                 && ((u, c) in w.accepted ==> MarkOf(p, c) in {Some(Sending), Some(Sent)})
                 && (MarkOf(p, c) == Some(Sent) ==> (u, c) in w.accepted)
  {
    hide First, AcceptedInOrder;
    assert s.users[s.at] in s.users;
  }

  /** Replacing the progress of the recipient whose turn it is keeps the receipt in order. */
  lemma ReplaceKeepsOrder(w: World, s: Session, p: Progress)
    requires Invariant(w) && w.session == Some(s) && WellStaged(p)
    requires !Complete(ProgressOf(w.disk, s.users, s.users[s.at]))
    ensures InOrder(WithProgress(w.disk, s.users, s.users[s.at], p), s.users)
    ensures PlaceFits(WithProgress(w.disk, s.users, s.users[s.at], p), s)
    ensures ProgressOf(WithProgress(w.disk, s.users, s.users[s.at], p), s.users, s.users[s.at]) == p
  {
    var users, u := s.users, s.users[s.at];
    var r' := WithProgress(w.disk, users, u, p);
    ServedAtFirst(w, s);
    forall v | v in users ensures ProgressOf(r', users, v) == if v == u then p else ProgressOf(w.disk, users, v) {
      OtherProgress(w.disk, users, u, p, v);
    }
  }

  /** ... and its marks in step with the provider, if only this component's mark moved. */
  lemma ReplaceKeepsMarks(w: World, s: Session, p: Progress)
    requires Invariant(w) && w.session == Some(s)
    requires var u := s.users[s.at];
             var before := ProgressOf(w.disk, s.users, u);
             forall c: Component ::
               && ((u, c) in w.accepted ==> MarkOf(p, c) in {Some(Sending), Some(Sent)})
               && (MarkOf(p, c) == Some(Sent) ==> (u, c) in w.accepted)
    ensures MarksMatch(WithProgress(w.disk, s.users, s.users[s.at], p), w.accepted, s.users)
  {
    var users, u := s.users, s.users[s.at];
    var r' := WithProgress(w.disk, users, u, p);
    forall v | v in users ensures ProgressOf(r', users, v) == if v == u then p else ProgressOf(w.disk, users, v) {
      OtherProgress(w.disk, users, u, p, v);
    }
  }

  /** After a component that is sent comes the next one, the decision, or the next recipient. */
  lemma SentFits(w: World, s: Session, c: Component)
    requires PlaceFits(w.disk, s)
    requires var p := ProgressOf(w.disk, s.users, s.users[s.at]); WellStaged(p) && MarkOf(p, c) == Some(Sent)
    ensures SessionFits(w, AfterComponent(s, c))
  {
  }

  lemma AttemptKeepsInvariant(w: World)
    requires Invariant(w) && Enabled(w, Attempt)
    ensures Invariant(Next(w, Attempt))
  {
    var s := w.session.value;
    var p := ProgressOf(w.disk, s.users, s.users[s.at]);
    var c := s.stage.c;
    OwnProgress(w, s);
    hide InOrder, MarksMatch, AcceptedInOrder, PlaceFits;
    if MarkOf(p, c) == Some(Sent) {
      SentFits(w, s, c);
    } else if MarkOf(p, c) != Some(Sending) {
      ReplaceKeepsOrder(w, s, WithMark(p, c, Sending));
      ReplaceKeepsMarks(w, s, WithMark(p, c, Sending));
      assert PlaceFits(Next(w, Attempt).disk, s.(stage := Calling(c, false))) by { PlaceIgnoresStage(Next(w, Attempt).disk, s, Calling(c, false)); }
    }
  }

  lemma PlaceIgnoresStage(disk: Receipt, s: Session, stage: Stage)
    ensures PlaceFits(disk, s.(stage := stage)) <==> PlaceFits(disk, s)
  {
  }

  lemma ReplyKeepsInvariant(w: World, ok: bool)
    requires Invariant(w) && Enabled(w, Reply(ok))
    ensures Invariant(Next(w, Reply(ok)))
  {
    var s := w.session.value;
    var p' := WithMark(ProgressOf(w.disk, s.users, s.users[s.at]), s.stage.c, if ok then Sent else Failed);
    OwnProgress(w, s);
    hide InOrder, MarksMatch, AcceptedInOrder, PlaceFits;
    ReplaceKeepsOrder(w, s, p');
    ReplaceKeepsMarks(w, s, p');
    if ok {
      SentFits(w.(disk := WithProgress(w.disk, s.users, s.users[s.at], p')), s, s.stage.c);
    }
  }

  /** A decision writes nothing or the decision; what it leads to fits. */
  lemma DecideKeepsInvariant(w: World, needed: bool)
    requires Invariant(w) && Enabled(w, Decide(needed))
    ensures Invariant(Next(w, Decide(needed)))
  {
    var s := w.session.value;
    var p := ProgressOf(w.disk, s.users, s.users[s.at]);
    OwnProgress(w, s);
    hide InOrder, MarksMatch, AcceptedInOrder, PlaceFits;
    if p.sendReporting.None? {
      var p' := p.(sendReporting := Some(needed));
      ReplaceKeepsOrder(w, s, p');
      ReplaceKeepsMarks(w, s, p');
      DecidedFits(w.(disk := WithProgress(w.disk, s.users, s.users[s.at], p')), s);
    } else {
      DecidedFits(w, s);
    }
  }

  /** After the decision, the reporting image is next if it was decided; otherwise the recipient is complete. */
  lemma DecidedFits(w: World, s: Session)
    requires PlaceFits(w.disk, s)
    requires var p := ProgressOf(w.disk, s.users, s.users[s.at]); p.sendReporting.Some? && WellStaged(p)
    ensures var p := ProgressOf(w.disk, s.users, s.users[s.at]);
            SessionFits(w, if p.sendReporting.value then s.(stage := Ready(ReportingImage)) else NextRecipient(s))
  {
  }

  /** The accepted component comes after everything accepted before it. */
  lemma AcceptedLast(w: World, e: (User, Component))
    requires Invariant(w) && Enabled(w, ProviderAccepts) && e in w.accepted
    ensures Precedes(w.session.value.users, e, (w.session.value.users[w.session.value.at], w.session.value.stage.c))
  {
    var s := w.session.value;
    var users := s.users;
    assert users[s.at] in users;
    assert !Complete(ProgressOf(w.disk, users, users[s.at]));
    ServedAtFirst(w, s);
    assert First(users, e.0) <= s.at;
    assert First(users, e.0) == s.at ==> Ordinal(e.1) < Ordinal(s.stage.c);
  }

  lemma AcceptKeepsInvariant(w: World)
    requires Invariant(w) && Enabled(w, ProviderAccepts)
    ensures Invariant(Next(w, ProviderAccepts))
  {
    var s := w.session.value;
    var w' := Next(w, ProviderAccepts);
    forall m, n | 0 <= m < n < |w'.accepted| ensures Precedes(s.users, w'.accepted[m], w'.accepted[n]) {
      if n == |w.accepted| {
        AcceptedLast(w, w.accepted[m]);
      }
    }
  }

  lemma StepKeepsInvariant(w: World, step: Step)
    requires Invariant(w) && Enabled(w, step)
    ensures Invariant(Next(w, step))
  {
    match step
    case Begin(_) =>
    case Attempt => AttemptKeepsInvariant(w);
    case ProviderAccepts => AcceptKeepsInvariant(w);
    case Reply(ok) => ReplyKeepsInvariant(w, ok);
    case Decide(needed) => DecideKeepsInvariant(w, needed);
    case Abort =>
  }

  lemma {:induction false} RunsKeepInvariant(w: World, steps: seq<Step>, w': World)
    requires Invariant(w) && Reaches(w, steps, w')
    ensures Invariant(w')
    decreases |steps|
  {
    if steps != [] {
      StepKeepsInvariant(w, steps[0]);
      RunsKeepInvariant(Next(w, steps[0]), steps[1..], w');
    }
  }

  // ----- What it means -----

  /** Over any number of runs, crashes and errors, no recipient gets a component twice. */
  lemma AtMostOnce(steps: seq<Step>, w: World, m: nat, n: nat)
    requires Reaches(EMPTY_WORLD, steps, w) && m < n < |w.accepted|
    ensures w.accepted[m] != w.accepted[n]
  {
    RunsKeepInvariant(EMPTY_WORLD, steps, w);
    var users := w.disk.recipients.value;
    assert Precedes(users, w.accepted[m], w.accepted[n]);
  }

  /** Every receipt that ever reaches the disk is in delivery order, and so is what the provider accepted. */
  lemma DeliveryOrder(steps: seq<Step>, w: World, users: seq<User>)
    requires Reaches(EMPTY_WORLD, steps, w) && w.disk.recipients == Some(users)
    ensures InOrder(w.disk, users) && AcceptedInOrder(w.accepted, users)
    ensures forall u <- users, c: Component :: MarkOf(ProgressOf(w.disk, users, u), c) == Some(Sent) ==> (u, c) in w.accepted
  {
    RunsKeepInvariant(EMPTY_WORLD, steps, w);
  }

  /** What later steps cannot undo: the recipients, every decision, every `sent`. */
  predicate Settled(before: Receipt, after: Receipt) {
    before.recipients.Some? ==>
      && after.recipients == before.recipients
      && forall u <- before.recipients.value ::
           var p, p' := ProgressOf(before, before.recipients.value, u), ProgressOf(after, before.recipients.value, u);
           && (p.sendReporting.Some? ==> p'.sendReporting == p.sendReporting)
           && forall c: Component :: MarkOf(p, c) == Some(Sent) ==> MarkOf(p', c) == Some(Sent)
  }

  lemma StepSettles(w: World, step: Step)
    requires Invariant(w) && Enabled(w, step)
    ensures Settled(w.disk, Next(w, step).disk)
  {
    hide InOrder, MarksMatch, AcceptedInOrder;
    if w.session.Some? && !step.Begin? && !step.Abort? {
      var s := w.session.value;
      var u := s.users[s.at];
      assert u in s.users;
      forall v, p | v in s.users ensures ProgressOf(WithProgress(w.disk, s.users, u, p), s.users, v) == if v == u then p else ProgressOf(w.disk, s.users, v) {
        OtherProgress(w.disk, s.users, u, p, v);
      }
    }
  }

  lemma {:induction false} ReceiptSettles(w: World, steps: seq<Step>, w': World)
    requires Invariant(w) && Reaches(w, steps, w')
    ensures Settled(w.disk, w'.disk)
    decreases |steps|
  {
    if steps != [] {
      StepKeepsInvariant(w, steps[0]);
      StepSettles(w, steps[0]);
      ReceiptSettles(Next(w, steps[0]), steps[1..], w');
    }
  }

  /** A component whose outcome is unknown: marked `sending`, and the run that marked it is gone. */
  predicate Unconfirmed(w: World, users: seq<User>, i: nat, c: Component) {
    && w.disk.recipients == Some(users) && i < |users| && users[i] !in users[..i]
    && MarkOf(ProgressOf(w.disk, users, users[i]), c) == Some(Sending)
    && (w.session.Some? ==>
        var s := w.session.value;
        s.at < i || (s.at == i && ((s.stage.Ready? && Ordinal(s.stage.c) <= Ordinal(c)) || (s.stage.Deciding? && c == ReportingImage))))
  }

  lemma StepLeavesUnconfirmed(w: World, step: Step, users: seq<User>, i: nat, c: Component)
    requires Invariant(w) && Enabled(w, step) && Unconfirmed(w, users, i, c)
    ensures Unconfirmed(Next(w, step), users, i, c) && Next(w, step).accepted == w.accepted
  {
    if w.session.Some? {
      var s := w.session.value;
      OwnProgress(w, s);
      assert s.at < i ==> users[..i][s.at] == s.users[s.at];
    }
    hide InOrder, MarksMatch, AcceptedInOrder, First;
  }

  /** It blocks this component, everything after it and every later run: the provider is not called again. */
  lemma {:induction false} UnknownOutcomeBlocks(w: World, steps: seq<Step>, w': World, users: seq<User>, i: nat, c: Component)
    requires Invariant(w) && Reaches(w, steps, w') && Unconfirmed(w, users, i, c)
    ensures Unconfirmed(w', users, i, c) && w'.accepted == w.accepted
    decreases |steps|
  {
    if steps != [] {
      StepKeepsInvariant(w, steps[0]);
      StepLeavesUnconfirmed(w, steps[0], users, i, c);
      UnknownOutcomeBlocks(Next(w, steps[0]), steps[1..], w', users, i, c);
    }
  }

  /** A crash or an exception anywhere in the provider call leaves the component unconfirmed. */
  lemma AbortedCallIsUnconfirmed(w: World)
    requires Invariant(w) && w.session.Some? && w.session.value.stage.Calling?
    ensures var s := w.session.value;
            Unconfirmed(Next(w, Abort), s.users, s.at, s.stage.c)
  {
    var s := w.session.value;
    assert s.users[s.at] in s.users;
    ServedAtFirst(w, s);
  }

  // ----- Only an error code permits a retry -----

  /** The run stands in the provider call of this component for this recipient. */
  predicate InCall(w: World, u: User, c: Component) {
    w.session.Some? && var s := w.session.value; s.at < |s.users| && s.users[s.at] == u && s.stage.Calling? && s.stage.c == c
  }

  /** Somewhere in these steps the provider answers that call with an error code. */
  ghost predicate ErrorCodeAnswered(w: World, steps: seq<Step>, u: User, c: Component)
    decreases |steps|
  {
    steps != [] && Enabled(w, steps[0])
    && ((steps[0] == Reply(false) && InCall(w, u, c)) || ErrorCodeAnswered(Next(w, steps[0]), steps[1..], u, c))
  }

  /** Called and not refused: the component is marked as being sent or as sent. */
  predicate Taken(w: World, u: User, c: Component) {
    w.disk.recipients.Some? && u in w.disk.recipients.value
    && MarkOf(ProgressOf(w.disk, w.disk.recipients.value, u), c) in {Some(Sending), Some(Sent)}
  }

  lemma StepKeepsTaken(w: World, step: Step, u: User, c: Component)
    requires Invariant(w) && Enabled(w, step) && Taken(w, u, c) && !(step == Reply(false) && InCall(w, u, c))
    ensures Taken(Next(w, step), u, c)
    ensures !(step.Attempt? && InCall(Next(w, step), u, c))
  {
    hide InOrder, MarksMatch, AcceptedInOrder;
    if w.session.Some? && !step.Begin? && !step.Abort? {
      var s := w.session.value;
      var v := s.users[s.at];
      assert v in s.users;
      forall p ensures ProgressOf(WithProgress(w.disk, s.users, v, p), s.users, u) == if v == u then p else ProgressOf(w.disk, s.users, u) {
        OtherProgress(w.disk, s.users, v, p, u);
      }
    }
  }

  lemma {:induction false} TakenUntilErrorCode(w: World, steps: seq<Step>, w': World, u: User, c: Component)
    requires Invariant(w) && Taken(w, u, c) && Reaches(w, steps, w')
    requires Enabled(w', Attempt) && InCall(Next(w', Attempt), u, c)
    ensures ErrorCodeAnswered(w, steps, u, c)
    decreases |steps|
  {
    if steps == [] {
      StepKeepsTaken(w, Attempt, u, c);
    } else if !(steps[0] == Reply(false) && InCall(w, u, c)) {
      StepKeepsInvariant(w, steps[0]);
      StepKeepsTaken(w, steps[0], u, c);
      TakenUntilErrorCode(Next(w, steps[0]), steps[1..], w', u, c);
    }
  }

  /** Over any number of runs: between two provider calls of one component for one recipient, the provider answered
      with an error code. */
  lemma RetryNeedsErrorCode(w: World, steps: seq<Step>, w': World, u: User, c: Component)
    requires Invariant(w) && InCall(w, u, c) && Reaches(w, steps, w')
    requires Enabled(w', Attempt) && InCall(Next(w', Attempt), u, c)
    ensures ErrorCodeAnswered(w, steps, u, c)
  {
    assert u in w.session.value.users;
    TakenUntilErrorCode(w, steps, w', u, c);
  }

  /** And an error code does permit it: whoever's turn it is, the provider is called exactly if the component is not taken. */
  lemma CalledExactly(w: World)
    requires Invariant(w) && Enabled(w, Attempt)
    ensures var u, c := w.session.value.users[w.session.value.at], w.session.value.stage.c;
            InCall(Next(w, Attempt), u, c) <==> !Taken(w, u, c)
  {
    var s := w.session.value;
    assert s.users[s.at] in s.users;
  }

  /** Text and operation image were accepted for u, and the reporting image exactly if it was decided. */
  predicate Delivered(w: World, users: seq<User>, u: User) {
    && (u, Text) in w.accepted && (u, OperationImage) in w.accepted
    && ProgressOf(w.disk, users, u).sendReporting == Some((u, ReportingImage) in w.accepted)
  }

  /** A run that reaches its end has delivered everything decided, to every recipient. */
  lemma FinishedMeansDelivered(w: World, u: User)
    requires Invariant(w) && w.session.Some? && w.session.value.stage.Finished? && u in w.session.value.users
    requires w.session.value.at == |w.session.value.users| - 1
    ensures Delivered(w, w.session.value.users, u)
  {
    var s := w.session.value;
    var i :| 0 <= i < |s.users| && s.users[i] == u;
    var p := ProgressOf(w.disk, s.users, u);
    assert Complete(p);
    assert WellStaged(p);
    assert MarkOf(p, Text) == Some(Sent) && MarkOf(p, OperationImage) == Some(Sent);
    assert p.sendReporting.value ==> MarkOf(p, ReportingImage) == Some(Sent);
    assert (u, ReportingImage) in w.accepted ==> MarkOf(p, ReportingImage).Some?;
  }

  // ----- When a run starts, and when it can finish -----

  /** A run starts exactly if the receipt is for no recipients yet or for the same ones. */
  lemma StartsExactly(w: World, users: seq<User>)
    requires Invariant(w) && Enabled(w, Begin(users))
    ensures Next(w, Begin(users)).session.Some? <==> w.disk.recipients in {None, Some(users)}
  {
  }

  /** No component's outcome is unknown. */
  predicate AllConfirmed(r: Receipt, users: seq<User>) {
    forall u <- users, c: Component :: MarkOf(ProgressOf(r, users, u), c) != Some(Sending)
  }

  predicate IsFinished(w: World, users: seq<User>) {
    users != [] && w.session == Some(Session(users, |users| - 1, Finished))
  }

  lemma Together(w: World, steps: seq<Step>, w1: World, more: seq<Step>, w2: World)
    requires Reaches(w, steps, w1) && Reaches(w1, more, w2)
    ensures Reaches(w, steps + more, w2)
    decreases |steps|
  {
    if steps == [] {
      assert steps + more == more;
    } else {
      assert (steps + more)[1..] == steps[1..] + more;
      Together(Next(w, steps[0]), steps[1..], w1, more, w2);
    }
  }

  lemma OneStep(w: World, step: Step)
    requires Enabled(w, step)
    ensures Reaches(w, [step], Next(w, step))
  {
    assert [step][1..] == [];
  }

  /** With no outcome unknown, a component is skipped or called and accepted. */
  lemma ComponentSucceeds(w: World, s: Session, c: Component) returns (steps: seq<Step>, w': World)
    requires Invariant(w) && w.session == Some(s) && s.stage == Ready(c) && AllConfirmed(w.disk, s.users)
    ensures Reaches(w, steps, w') && Invariant(w') && w'.session == Some(AfterComponent(s, c)) && AllConfirmed(w'.disk, s.users)
  {
    var u := s.users[s.at];
    assert u in s.users;
    steps, w' := [Attempt], Next(w, Attempt);
    OneStep(w, Attempt);
    StepKeepsInvariant(w, Attempt);
    if MarkOf(ProgressOf(w.disk, s.users, u), c) != Some(Sent) {
      assert w'.session == Some(s.(stage := Calling(c, false)));
      var w2 := Next(w', ProviderAccepts);
      StepKeepsInvariant(w', ProviderAccepts);
      StepKeepsInvariant(w2, Reply(true));
      SentConfirms(w, s, c);
      OneStep(w', ProviderAccepts);
      OneStep(w2, Reply(true));
      hide Invariant, AllConfirmed, Reaches;
      Together(w, [Attempt], w', [ProviderAccepts], w2);
      Together(w, [Attempt] + [ProviderAccepts], w2, [Reply(true)], Next(w2, Reply(true)));
      steps, w' := [Attempt] + [ProviderAccepts] + [Reply(true)], Next(w2, Reply(true));
    }
  }

  lemma SentConfirms(w: World, s: Session, c: Component)
    requires Invariant(w) && w.session == Some(s) && s.stage == Ready(c) && AllConfirmed(w.disk, s.users)
    requires MarkOf(ProgressOf(w.disk, s.users, s.users[s.at]), c) !in {Some(Sent), Some(Sending)}
    ensures var w' := Next(Next(Next(w, Attempt), ProviderAccepts), Reply(true));
            AllConfirmed(w'.disk, s.users) && w'.session == Some(AfterComponent(s, c))
  {
    var users, u := s.users, s.users[s.at];
    var p := ProgressOf(w.disk, users, u);
    hide InOrder, MarksMatch, AcceptedInOrder;
    var r1 := WithProgress(w.disk, users, u, WithMark(p, c, Sending));
    assert u in users;
    OtherProgress(w.disk, users, u, WithMark(p, c, Sending), u);
    var r2 := WithProgress(r1, users, u, WithMark(WithMark(p, c, Sending), c, Sent));
    assert Next(Next(Next(w, Attempt), ProviderAccepts), Reply(true)).disk == r2;
    forall v | v in users
      ensures ProgressOf(r2, users, v) == if v == u then WithMark(WithMark(p, c, Sending), c, Sent) else ProgressOf(w.disk, users, v)
    {
      OtherProgress(w.disk, users, u, WithMark(p, c, Sending), v);
      OtherProgress(r1, users, u, WithMark(WithMark(p, c, Sending), c, Sent), v);
    }
  }

  lemma DecisionConfirms(w: World, s: Session, needed: bool)
    requires Invariant(w) && w.session == Some(s) && s.stage == Deciding && AllConfirmed(w.disk, s.users)
    ensures AllConfirmed(Next(w, Decide(needed)).disk, s.users)
  {
    var users, u := s.users, s.users[s.at];
    var p := ProgressOf(w.disk, users, u).(sendReporting := Some(needed));
    assert u in users;
    forall v | v in users ensures ProgressOf(WithProgress(w.disk, users, u, p), users, v) == if v == u then p else ProgressOf(w.disk, users, v) {
      OtherProgress(w.disk, users, u, p, v);
    }
  }

  /** One recipient from beginning to end. */
  lemma RecipientSucceeds(w: World, s: Session, needed: bool) returns (steps: seq<Step>, w': World)
    requires Invariant(w) && w.session == Some(s) && s.stage == Ready(Text) && AllConfirmed(w.disk, s.users)
    ensures Reaches(w, steps, w') && Invariant(w') && w'.session == Some(NextRecipient(s)) && AllConfirmed(w'.disk, s.users)
  {
    hide Invariant, AllConfirmed, Reaches, AttemptStep, ReplyStep;
    var more, w1, w2;
    steps, w1 := ComponentSucceeds(w, s, Text);
    more, w2 := ComponentSucceeds(w1, s.(stage := Ready(OperationImage)), OperationImage);
    Together(w, steps, w1, more, w2);
    steps := steps + more;
    InvariantPlaces(w2, s.(stage := Deciding));
    DecisionConfirms(w2, s.(stage := Deciding), needed);
    StepKeepsInvariant(w2, Decide(needed));
    OneStep(w2, Decide(needed));
    w' := Next(w2, Decide(needed));
    Together(w, steps, w2, [Decide(needed)], w');
    steps := steps + [Decide(needed)];
    if w'.session == Some(s.(stage := Ready(ReportingImage))) {
      var w3 := w';
      more, w' := ComponentSucceeds(w3, s.(stage := Ready(ReportingImage)), ReportingImage);
      Together(w, steps, w3, more, w');
      steps := steps + more;
    }
  }

  lemma InvariantPlaces(w: World, s: Session)
    requires Invariant(w) && w.session == Some(s)
    ensures s.at < |s.users|
  {
  }

  lemma {:induction false} RestSucceeds(w: World, s: Session, needed: bool) returns (steps: seq<Step>, w': World)
    requires Invariant(w) && w.session == Some(s) && s.stage == Ready(Text) && AllConfirmed(w.disk, s.users)
    ensures Reaches(w, steps, w') && Invariant(w') && IsFinished(w', s.users)
    decreases |s.users| - s.at
  {
    InvariantPlaces(w, s);
    hide Invariant, AllConfirmed, Reaches;
    var w1;
    steps, w1 := RecipientSucceeds(w, s, needed);
    if s.at + 1 < |s.users| {
      var more;
      more, w' := RestSucceeds(w1, NextRecipient(s), needed);
      Together(w, steps, w1, more, w');
      steps := steps + more;
    } else {
      w' := w1;
    }
  }

  /** From every receipt for these recipients without an unknown outcome, whatever failed before and whatever is decided
      now, some run ends, and then everything has been delivered to all. */
  lemma SomeRunFinishes(w: World, users: seq<User>, needed: bool) returns (steps: seq<Step>, w': World)
    requires Invariant(w) && w.session.None? && users != [] && w.disk.recipients in {None, Some(users)} && AllConfirmed(w.disk, users)
    ensures Reaches(w, steps, w') && IsFinished(w', users) && forall u <- users :: Delivered(w', users, u)
  {
    StartsExactly(w, users);
    StepKeepsInvariant(w, Begin(users));
    var more;
    more, w' := RestSucceeds(Next(w, Begin(users)), Session(users, 0, Ready(Text)), needed);
    OneStep(w, Begin(users));
    Together(w, [Begin(users)], Next(w, Begin(users)), more, w');
    steps := [Begin(users)] + more;
    forall u | u in users ensures Delivered(w', users, u) {
      FinishedMeansDelivered(w', u);
    }
  }

  /** And from no other: a run for these recipients can finish exactly if the receipt is theirs, or new, and no outcome
      is unknown. */
  lemma FinishesExactly(w: World, users: seq<User>)
    requires Invariant(w) && w.session.None? && users != []
    ensures CanFinish(w, users) <==> w.disk.recipients in {None, Some(users)} && AllConfirmed(w.disk, users)
  {
    if w.disk.recipients in {None, Some(users)} && AllConfirmed(w.disk, users) {
      var steps, w' := SomeRunFinishes(w, users, false);
    } else {
      forall steps, w' | Reaches(w, steps, w') ensures !IsFinished(w', users) {
        NoRunFinishes(w, users, steps, w');
      }
    }
  }

  ghost predicate CanFinish(w: World, users: seq<User>) {
    exists steps: seq<Step>, w': World :: Reaches(w, steps, w') && IsFinished(w', users)
  }

  lemma NoRunFinishes(w: World, users: seq<User>, steps: seq<Step>, w': World)
    requires Invariant(w) && w.session.None? && users != [] && Reaches(w, steps, w')
    requires w.disk.recipients !in {None, Some(users)} || !AllConfirmed(w.disk, users)
    ensures !IsFinished(w', users)
  {
    RunsKeepInvariant(w, steps, w');
    ReceiptSettles(w, steps, w');
    if w.disk.recipients == Some(users) && !AllConfirmed(w.disk, users) {
      var u, c :| u in users && MarkOf(ProgressOf(w.disk, users, u), c) == Some(Sending);
      UnknownOutcomeBlocks(w, steps, w', users, First(users, u), c);
    }
  }

  // ----- The process -----

  datatype Outcome = Proceed | Raised | Killed

  /** A run that does not proceed was cut off, was answered with an error code, or found an outcome unknown. */
  predicate EndsAs(w: World, users: seq<User>, steps: seq<Step>, outcome: Outcome) {
    outcome != Proceed ==>
      && steps != [] && steps[|steps| - 1] in {Abort, Attempt, Reply(false)}
      && (steps[|steps| - 1] == Attempt ==> !AllConfirmed(w.disk, users))
  }

  /** More steps, the first of them an attempt if so said. */
  predicate Extends(steps: seq<Step>, steps': seq<Step>, attempted: bool) {
    |steps| <= |steps'| && steps'[..|steps|] == steps && (attempted ==> |steps| < |steps'| && steps'[|steps|] == Attempt)
  }

  lemma ExtendsMore(a: seq<Step>, b: seq<Step>, c: seq<Step>, attempted: bool, again: bool)
    requires Extends(a, b, attempted) && Extends(b, c, again)
    ensures Extends(a, c, attempted)
  {
    assert c[..|a|] == c[..|b|][..|a|];
    assert attempted ==> c[|a|] == c[..|b|][|a|];
  }

  class ReportSender {
    /** The receipt file. */
    var disk: Receipt
    ghost var world: World

    ghost predicate Valid()
      reads this
    {
      world.disk == disk && world.session.None? && Invariant(world)
    }

    ghost predicate Live(s: Session, steps: seq<Step>, start: World)
      reads this
    {
      world.disk == disk && world.session == Some(s) && Invariant(world) && Reaches(start, steps, world)
    }

    constructor ()
      ensures Valid() && world == EMPTY_WORLD
    {
      disk, world := NO_RECEIPT, EMPTY_WORLD;
    }

    ghost method Record(step: Step, steps: seq<Step>, start: World) returns (steps': seq<Step>)
      requires Invariant(world) && Enabled(world, step) && Reaches(start, steps, world)
      modifies this`world
      ensures world == Next(old(world), step) && Invariant(world)
      ensures steps' == steps + [step] && Reaches(start, steps', world)
    {
      StepKeepsInvariant(world, step);
      ReachesStep(start, steps, world, step);
      world := Next(world, step);
      steps' := steps + [step];
    }

    /** send(component): skip what is sent, refuse what is unconfirmed, otherwise write, call, write. */
    method Send(s: Session, c: Component, ghost steps: seq<Step>, ghost start: World) returns (outcome: Outcome, ghost steps': seq<Step>)
      requires Live(s, steps, start) && s.stage == Ready(c)
      modifies this
      ensures Reaches(start, steps', world) && Extends(steps, steps', true) && EndsAs(world, s.users, steps', outcome)
      ensures if outcome == Proceed then Live(AfterComponent(s, c), steps', start) else Valid()
    {
      var u := s.users[s.at];
      var p := ProgressOf(disk, s.users, u);
      if MarkOf(p, c) == Some(Sent) {
        steps' := Record(Attempt, steps, start);
        return Proceed, steps';
      }
      if MarkOf(p, c) == Some(Sending) {
        assert u in s.users;
        steps' := Record(Attempt, steps, start);
        return Raised, steps';
      }
      disk := WithProgress(disk, s.users, u, WithMark(p, c, Sending));
      steps' := Record(Attempt, steps, start);
      ghost var called := steps';
      outcome, steps' := CallProvider(s, c, steps', start);
      ExtendsMore(steps, called, steps', true, false);
    }

    /** The provider call and the record of its answer. */
    method CallProvider(s: Session, c: Component, ghost steps: seq<Step>, ghost start: World) returns (outcome: Outcome, ghost steps': seq<Step>)
      requires Live(s.(stage := Calling(c, false)), steps, start)
      modifies this
      ensures Reaches(start, steps', world) && Extends(steps, steps', false) && EndsAs(world, s.users, steps', outcome)
      ensures if outcome == Proceed then Live(AfterComponent(s, c), steps', start) else Valid()
    {
      var u := s.users[s.at];
      var p := ProgressOf(disk, s.users, u);
      steps' := steps;
      var accepted := *;
      if accepted {
        steps' := Record(ProviderAccepts, steps', start);
      }
      if * {
        // No answer: a timeout, an exception, or the end of the process.
        steps' := Record(Abort, steps', start);
        return Raised, steps';
      }
      if accepted {
        disk := WithProgress(disk, s.users, u, WithMark(p, c, Sent));
        steps' := Record(Reply(true), steps', start);
        return Proceed, steps';
      }
      disk := WithProgress(disk, s.users, u, WithMark(p, c, Failed));
      steps' := Record(Reply(false), steps', start);
      outcome := Raised;
    }

    /** The decision on the reporting image, taken once and written down. */
    method DecideReporting(s: Session, ghost steps: seq<Step>, ghost start: World) returns (outcome: Outcome, s': Session, ghost steps': seq<Step>)
      requires Live(s, steps, start) && s.stage == Deciding
      modifies this
      ensures Reaches(start, steps', world) && Extends(steps, steps', false) && EndsAs(world, s.users, steps', outcome)
      ensures if outcome == Proceed then Live(s', steps', start) && s' in {s.(stage := Ready(ReportingImage)), NextRecipient(s)} else Valid()
    {
      s' := s;
      if * {
        // Counting, rendering or waiting failed, or the process ended.
        steps' := Record(Abort, steps, start);
        return Killed, s', steps';
      }
      var u := s.users[s.at];
      var p := ProgressOf(disk, s.users, u);
      var needed := *;
      if p.sendReporting.None? {
        disk := WithProgress(disk, s.users, u, p.(sendReporting := Some(needed)));
      }
      steps' := Record(Decide(needed), steps, start);
      s' := if p.sendReporting.GetOr(needed) then s.(stage := Ready(ReportingImage)) else NextRecipient(s);
      outcome := Proceed;
    }

    /** The body of the loop: one recipient, four stages. */
    method Deliver(s: Session, ghost steps: seq<Step>, ghost start: World) returns (outcome: Outcome, s': Session, ghost steps': seq<Step>)
      requires Live(s, steps, start) && s.stage == Ready(Text)
      modifies this
      ensures Reaches(start, steps', world) && Extends(steps, steps', true) && EndsAs(world, s.users, steps', outcome)
      ensures if outcome == Proceed then Live(s', steps', start) && s' == NextRecipient(s) else Valid()
    {
      hide Invariant, Next, Extends, EndsAs;
      s' := s;
      outcome, steps' := Send(s, Text, steps, start);
      if outcome != Proceed { return; }
      ghost var before := steps';
      outcome, steps' := Send(s.(stage := Ready(OperationImage)), OperationImage, steps', start);
      ExtendsMore(steps, before, steps', true, true);
      if outcome != Proceed { return; }
      before := steps';
      outcome, s', steps' := DecideReporting(s.(stage := Deciding), steps', start);
      ExtendsMore(steps, before, steps', true, false);
      if outcome != Proceed { return; }
      if s'.stage == Ready(ReportingImage) {
        before := steps';
        outcome, steps' := Send(s', ReportingImage, steps', start);
        ExtendsMore(steps, before, steps', true, true);
        s' := NextRecipient(s');
      }
    }

    /** send_report: recipient after recipient. */
    method SendReport(users: seq<User>) returns (outcome: Outcome, ghost steps: seq<Step>)
      requires Valid() && users != []
      modifies this
      ensures Valid() && Reaches(old(world), steps, world)
      ensures if old(disk).recipients in {None, Some(users)} then |steps| > 1 && steps[0] == Begin(users) && steps[1] == Attempt && EndsAs(world, users, steps, outcome)
              else outcome == Raised && world == old(world)
      ensures outcome == Proceed ==> forall u <- users :: Delivered(world, users, u)
    {
      ghost var start := world;
      var refused := Refuses(disk, users);
      steps := Record(Begin(users), [], start);
      if refused {
        return Raised, steps;
      }
      var s := Session(users, 0, Ready(Text));
      ghost var begun := steps;
      while !s.stage.Finished?
        invariant Live(s, steps, start) && s.users == users
        invariant s.stage == Ready(Text) || (s.stage.Finished? && s.at == |users| - 1)
        invariant (steps == begun && s.stage == Ready(Text)) || Extends(begun, steps, true)
        decreases |users| - s.at, !s.stage.Finished?
      {
        ghost var before := steps;
        outcome, s, steps := Deliver(s, steps, start);
        if before != begun {
          ExtendsMore(begun, before, steps, true, true);
        }
        if outcome != Proceed {
          AttemptFollows(users, steps);
          return;
        }
      }
      forall u | u in users ensures Delivered(world, users, u) {
        FinishedMeansDelivered(world, u);
      }
      AttemptFollows(users, steps);
      steps := Record(Abort, steps, start);
      outcome := Proceed;
    }
  }

  lemma AttemptFollows(users: seq<User>, steps: seq<Step>)
    requires Extends([Begin(users)], steps, true)
    ensures |steps| > 1 && steps[0] == Begin(users) && steps[1] == Attempt
  {
    assert steps[0] == steps[..1][0];
  }

  lemma {:induction false} ReachesStep(w: World, steps: seq<Step>, w1: World, step: Step)
    requires Reaches(w, steps, w1) && Enabled(w1, step)
    ensures Reaches(w, steps + [step], Next(w1, step))
    decreases |steps|
  {
    if steps == [] {
      assert (steps + [step])[1..] == [];
    } else {
      assert (steps + [step])[1..] == steps[1..] + [step];
      ReachesStep(Next(w, steps[0]), steps[1..], w1, step);
    }
  }
}
