/**
 The notification dispatcher: at-least-once delivery with a receipt written after the provider
 answered, so duplicates are possible but counted.
 */
module Dispatcher {
  import opened Wrappers

  type Id = string

  // ----- Delivery ids -----

  predicate IsHex(c: char) {
    ('0' <= c <= '9') || ('a' <= c <= 'f')
  }

  /** A lower-case UUID: only such ids get a receipt file. */
  predicate IsValidId(id: Id) {
    |id| == 36 && forall i :: 0 <= i < 36 ==> if i in {8, 13, 18, 23} then id[i] == '-' else IsHex(id[i])
  }

  const HEX: string := "0123456789abcdef"

  predicate AreHex(s: string, n: nat) {
    |s| == n && forall c <- s :: c in HEX
  }

  lemma HexDigits(c: char)
    ensures c in HEX <==> IsHex(c)
  {
    assert HEX == ['0', '1', '2', '3', '4', '5', '6', '7', '8', '9', 'a', 'b', 'c', 'd', 'e', 'f'];
  }

  /** Five groups of hexadecimal digits with hyphens between them. */
  lemma ValidIdExactly(id: Id)
    ensures IsValidId(id) <==> exists a, b, c, d, e ::
      AreHex(a, 8) && AreHex(b, 4) && AreHex(c, 4) && AreHex(d, 4) && AreHex(e, 12) && id == a + "-" + b + "-" + c + "-" + d + "-" + e
  {
    if IsValidId(id) {
      var a, b, c, d, e := id[..8], id[9..13], id[14..18], id[19..23], id[24..];
      HexParts(id);
      assert id == a + "-" + b + "-" + c + "-" + d + "-" + e;
    }
    forall a, b, c, d, e |
      AreHex(a, 8) && AreHex(b, 4) && AreHex(c, 4) && AreHex(d, 4) && AreHex(e, 12) && id == a + "-" + b + "-" + c + "-" + d + "-" + e
      ensures IsValidId(id)
    {
      PartsAreValid(a, b, c, d, e, id);
    }
  }

  lemma HexParts(id: Id)
    requires IsValidId(id)
    ensures AreHex(id[..8], 8) && AreHex(id[9..13], 4) && AreHex(id[14..18], 4) && AreHex(id[19..23], 4) && AreHex(id[24..], 12)
  {
    forall c ensures c in HEX <==> IsHex(c) {
      HexDigits(c);
    }
    hide IsHex;
  }

  lemma PartsAreValid(a: string, b: string, c: string, d: string, e: string, id: Id)
    requires AreHex(a, 8) && AreHex(b, 4) && AreHex(c, 4) && AreHex(d, 4) && AreHex(e, 12)
    requires id == a + "-" + b + "-" + c + "-" + d + "-" + e
    ensures IsValidId(id)
  {
    forall i | 0 <= i < 36 && i !in {8, 13, 18, 23} ensures IsHex(id[i]) {
      var part := if i < 8 then a else if i < 13 then b else if i < 18 then c else if i < 23 then d else e;
      assert id[i] in part;
      HexDigits(id[i]);
    }
  }

  // ----- Attempts -----

  /** What the provider call does; a missing errcode is None. */
  datatype Call =
    | Unsupported                    // bad attachment, target or message type: nothing is sent
    | NoAnswer(accepted: bool)       // an exception or a crash during the call
    | Answer(errcode: Option<int>)

  /** One claimed delivery: the call, whether the receipt was replaced, whether the success callback worked. */
  datatype Attempt = Attempt(call: Call, wrote: bool, callback: bool)

  /** Receipts hold the errcode of the answer, None for null; the sequences record what happened. */
  datatype State = State(receipts: map<Id, Option<int>>, accepted: seq<Id>, lapses: seq<Id>, confirmed: seq<Id>)

  const FRESH: State := State(map[], [], [], [])

  /** The error code is 0: a missing one passes, a null one from a receipt raises. */
  predicate Passes(known: bool, errcode: Option<int>) {
    errcode == Some(0) || (errcode.None? && !known)
  }

  function After(s: State, id: Id, a: Attempt): State {
    var known := id in s.receipts;
    if !known && a.call.Unsupported? then s
    else if !known && a.call.NoAnswer? then
      if a.call.accepted then s.(accepted := s.accepted + [id], lapses := s.lapses + [id]) else s
    else
      var errcode := if known then s.receipts[id] else a.call.errcode;
      if !Passes(known, errcode) then s
      else
        var accepted := if known then s.accepted else s.accepted + [id];
        if !a.wrote then s.(accepted := accepted, lapses := if known then s.lapses else s.lapses + [id])
        else s.(accepted := accepted, receipts := if IsValidId(id) then s.receipts[id := errcode] else s.receipts,
                confirmed := if a.callback then s.confirmed + [id] else s.confirmed)
  }

  /**
   What an attempt does, in terms of what happened: without a receipt the provider accepts if it took the message
   before the answer was lost, or answers 0 or nothing; a receipt is left if that answer was written for a valid id; and
   the delivery is confirmed if a good answer or a receipt with 0 was written and reported.
   */
  lemma AttemptMeans(s: State, id: Id, a: Attempt)
    ensures var s', isNew := After(s, id, a), id !in s.receipts;
      && s'.accepted == s.accepted + (if isNew && a.call in {NoAnswer(true), Answer(Some(0)), Answer(None)} then [id] else [])
      && s'.lapses == s.lapses + (if isNew && (a.call == NoAnswer(true) || (!a.wrote && a.call in {Answer(Some(0)), Answer(None)})) then [id] else [])
      && s'.receipts == (if isNew && a.wrote && IsValidId(id) && a.call in {Answer(Some(0)), Answer(None)} then s.receipts[id := a.call.errcode] else s.receipts)
      && s'.confirmed == s.confirmed + (if a.callback && Delivers(s, id, a) then [id] else [])
  {
    hide IsValidId;
  }

  function AfterAll(s: State, ids: seq<Id>, attempts: seq<Attempt>): State
    requires |ids| == |attempts|
  {
    if ids == [] then s else After(AfterAll(s, ids[..|ids| - 1], attempts[..|ids| - 1]), ids[|ids| - 1], attempts[|ids| - 1])
  }

  function Count(s: seq<Id>, id: Id): nat {
    if s == [] then 0 else Count(s[..|s| - 1], id) + (if s[|s| - 1] == id then 1 else 0)
  }

  lemma CountAppend(s: seq<Id>, x: Id, id: Id)
    ensures Count(s + [x], id) == Count(s, id) + (if x == id then 1 else 0)
  {
    assert (s + [x])[..|s|] == s;
  }

  // ----- Duplicates are bounded -----

  /** The provider accepted a delivery once for its receipt and once for each lapse, no more and no less. */
  ghost predicate Accounted(s: State) {
    && (forall id <- s.receipts :: IsValidId(id) && (s.receipts[id].Some? ==> s.receipts[id] == Some(0)))
    && (forall id :: IsValidId(id) ==> Count(s.accepted, id) == Count(s.lapses, id) + (if id in s.receipts then 1 else 0))
    && (forall id <- s.confirmed :: id in s.accepted)
  }

  lemma AttemptKeepsAccounts(s: State, id: Id, a: Attempt)
    requires Accounted(s)
    ensures Accounted(After(s, id, a))
  {
    hide IsValidId, Count;
    forall x ensures Count(s.accepted + [id], x) == Count(s.accepted, x) + (if id == x then 1 else 0)
                     && Count(s.lapses + [id], x) == Count(s.lapses, x) + (if id == x then 1 else 0) {
      CountAppend(s.accepted, id, x);
      CountAppend(s.lapses, id, x);
    }
    if id in s.receipts {
      CountPositive(s.accepted, id);
    }
  }

  lemma {:induction false} CountPositive(s: seq<Id>, id: Id)
    ensures Count(s, id) > 0 <==> id in s
  {
    if s != [] {
      CountPositive(s[..|s| - 1], id);
      assert s == s[..|s| - 1] + [s[|s| - 1]];
    }
  }

  lemma {:induction false} DuplicatesAreBounded(ids: seq<Id>, attempts: seq<Attempt>)
    requires |ids| == |attempts|
    ensures Accounted(AfterAll(FRESH, ids, attempts))
    ensures forall id :: IsValidId(id) ==>
      var s := AfterAll(FRESH, ids, attempts);
      Count(s.accepted, id) <= 1 + Count(s.lapses, id)
  {
    if ids != [] {
      DuplicatesAreBounded(ids[..|ids| - 1], attempts[..|ids| - 1]);
      AttemptKeepsAccounts(AfterAll(FRESH, ids[..|ids| - 1], attempts[..|ids| - 1]), ids[|ids| - 1], attempts[|ids| - 1]);
    }
  }

  const PLAIN: Attempt := Attempt(Answer(Some(0)), true, true)

  function Claims(id: Id, n: nat): seq<Id> {
    if n == 0 then [] else Claims(id, n - 1) + [id]
  }

  function Plain(n: nat): (attempts: seq<Attempt>)
    ensures |attempts| == n
  {
    if n == 0 then [] else Plain(n - 1) + [PLAIN]
  }

  lemma PlainAttempt(s: State, id: Id)
    requires !IsValidId(id) && s.receipts == map[]
    ensures After(s, id, PLAIN) == State(map[], s.accepted + [id], s.lapses, s.confirmed + [id])
  {
    assert id !in s.receipts;
  }

  /** Without a valid id there is no receipt and no bound: n untroubled claims are n deliveries, with no lapse. */
  lemma {:induction false} InvalidIdsAreUnbounded(id: Id, n: nat)
    requires !IsValidId(id)
    ensures |Claims(id, n)| == n
    ensures var s := AfterAll(FRESH, Claims(id, n), Plain(n));
            Count(s.accepted, id) == n && s.lapses == [] && s.receipts == map[]
  {
    if n > 0 {
      InvalidIdsAreUnbounded(id, n - 1);
      var s := AfterAll(FRESH, Claims(id, n - 1), Plain(n - 1));
      AttemptsAppend(FRESH, Claims(id, n - 1), Plain(n - 1), id, PLAIN);
      PlainAttempt(s, id);
      CountAppend(s.accepted, id, id);
    }
  }

  // ----- Receipts -----

  lemma AttemptOnReceipt(s: State, x: Id, a: Attempt, id: Id)
    requires id in s.receipts
    ensures var s' := After(s, x, a);
            id in s'.receipts && s'.receipts[id] == s.receipts[id] && Count(s'.accepted, id) == Count(s.accepted, id)
            && (s.receipts[id].None? ==> Count(s'.confirmed, id) == Count(s.confirmed, id))
  {
    hide IsValidId, Count;
    CountAppend(s.accepted, x, id);
    CountAppend(s.confirmed, x, id);
  }

  /**
   Once a receipt exists no claim calls the provider for it again, and the receipt stays as it is; one
   that holds null is never confirmed by any of them.
   */
  lemma {:induction false} ReceiptEndsCalls(s: State, ids: seq<Id>, attempts: seq<Attempt>, id: Id)
    requires |ids| == |attempts| && id in s.receipts
    ensures var s' := AfterAll(s, ids, attempts);
            id in s'.receipts && s'.receipts[id] == s.receipts[id] && Count(s'.accepted, id) == Count(s.accepted, id)
            && (s.receipts[id].None? ==> Count(s'.confirmed, id) == Count(s.confirmed, id))
  {
    if ids != [] {
      var k := |ids| - 1;
      ReceiptEndsCalls(s, ids[..k], attempts[..k], id);
      AttemptOnReceipt(AfterAll(s, ids[..k], attempts[..k]), ids[k], attempts[k], id);
    }
  }

  /** A delivery that has a receipt is confirmed by a claim that writes and calls back exactly if its receipt says 0. */
  lemma ConfirmedIffReceiptSaysZero(s: State, id: Id, a: Attempt)
    requires id in s.receipts && a.wrote && a.callback
    ensures Count(After(s, id, a).confirmed, id) == Count(s.confirmed, id) + (if s.receipts[id] == Some(0) then 1 else 0)
    ensures After(s, id, a) == After(s, id, a.(call := Unsupported))
  {
    CountAppend(s.confirmed, id, id);
  }

  /** An answer without an error code is a delivery whose receipt holds null: counted once, and if the callback failed
      then, confirmed by no later claim of any worker. */
  lemma NullAnswerIsNeverConfirmedLater(s: State, id: Id, callback: bool, ids: seq<Id>, attempts: seq<Attempt>)
    requires IsValidId(id) && id !in s.receipts && |ids| == |attempts|
    ensures var s' := AfterAll(After(s, id, Attempt(Answer(None), true, callback)), ids, attempts);
            && id in s'.receipts && s'.receipts[id] == None
            && Count(s'.accepted, id) == Count(s.accepted, id) + 1
            && Count(s'.confirmed, id) == Count(s.confirmed, id) + (if callback then 1 else 0)
  {
    hide IsValidId, Count, AfterAll;
    var s1 := After(s, id, Attempt(Answer(None), true, callback));
    assert id in s1.receipts && s1.receipts[id] == None && s1.accepted == s.accepted + [id];
    assert s1.confirmed == if callback then s.confirmed + [id] else s.confirmed;
    CountAppend(s.accepted, id, id);
    CountAppend(s.confirmed, id, id);
    ReceiptEndsCalls(s1, ids, attempts, id);
  }

  /** Some later claims confirm the delivery. */
  ghost predicate CanBeConfirmed(s: State, id: Id) {
    exists ids: seq<Id>, attempts: seq<Attempt> {:trigger AfterAll(s, ids, attempts)} ::
      |ids| == |attempts| && Count(AfterAll(s, ids, attempts).confirmed, id) > Count(s.confirmed, id)
  }

  /** After any claims, what has a receipt can still be confirmed exactly if the receipt is not null. */
  lemma ConfirmableExactly(s: State, id: Id)
    requires Accounted(s) && id in s.receipts
    ensures CanBeConfirmed(s, id) <==> s.receipts[id].Some?
  {
    if s.receipts[id].Some? {
      ConfirmedIffReceiptSaysZero(s, id, PLAIN);
      AttemptsAppend(s, [], [], id, PLAIN);
      assert AfterAll(s, [] + [id], [] + [PLAIN]) == After(s, id, PLAIN);
    } else {
      forall ids: seq<Id>, attempts: seq<Attempt> | |ids| == |attempts|
        ensures Count(AfterAll(s, ids, attempts).confirmed, id) == Count(s.confirmed, id)
      {
        ReceiptEndsCalls(s, ids, attempts, id);
      }
    }
  }

  // ----- run_once -----

  datatype Notification = Notification(id: string, content: string, groupImage: bool, recipients: seq<Id>)

  /** What happens at the k-th attempt of a run, and whether its failure could be reported. */
  datatype Script = Script(attempt: nat -> Attempt, reported: nat -> bool)

  /** The attempt delivers: it finds a receipt with code 0, or the provider answers with 0 or no code; and it writes. */
  predicate Delivers(s: State, id: Id, a: Attempt) {
    a.wrote && (if id in s.receipts then s.receipts[id] == Some(0) else a.call in {Answer(Some(0)), Answer(None)})
  }

  function NonEmpty(ids: seq<Id>): seq<Id> {
    if ids == [] then [] else (if ids[0] != "" then [ids[0]] else []) + NonEmpty(ids[1..])
  }

  /** A notification without an id is skipped, and one with nothing to send. */
  function Recipients(n: Notification): seq<Id> {
    if n.id == "" || (n.content == "" && !n.groupImage) then [] else NonEmpty(n.recipients)
  }

  /** Who is to be notified: nobody if there is no id or nothing to send, otherwise everyone named. */
  lemma RecipientsAre(n: Notification)
    ensures n.id != "" && (n.content != "" || n.groupImage) ==> (forall x :: x in Recipients(n) <==> x in n.recipients && x != "")
    ensures n.id != "" && (n.content != "" || n.groupImage) && "" !in n.recipients ==> Recipients(n) == n.recipients
    ensures n.id == "" || (n.content == "" && !n.groupImage) ==> Recipients(n) == []
  {
    NonEmptyKeeps(n.recipients);
  }

  lemma {:induction false} NonEmptyKeeps(ids: seq<Id>)
    ensures forall x :: x in NonEmpty(ids) <==> x in ids && x != ""
    ensures "" !in ids ==> NonEmpty(ids) == ids
  {
    if ids != [] {
      assert ids == [ids[0]] + ids[1..];
      NonEmptyKeeps(ids[1..]);
    }
  }

  function AttemptsFrom(script: Script, k: nat, n: nat): (attempts: seq<Attempt>)
    ensures |attempts| == n && forall i :: 0 <= i < n ==> attempts[i] == script.attempt(k + i)
  {
    seq(n, i requires 0 <= i < n => script.attempt(k + i))
  }

  function Played(s: State, ids: seq<Id>, k: nat, script: Script): State {
    AfterAll(s, ids, AttemptsFrom(script, k, |ids|))
  }

  /** The recipients of a notification that are attempted: all, up to a failure that cannot be reported. */
  function Visited(s: State, ids: seq<Id>, k: nat, script: Script): (visited: seq<Id>)
    decreases |ids|
  {
    if ids == [] then []
    else [ids[0]] + if Delivers(s, ids[0], script.attempt(k)) || script.reported(k)
                    then Visited(After(s, ids[0], script.attempt(k)), ids[1..], k + 1, script) else []
  }

  /** The ids attempted in a run. */
  function Attempted(s: State, claimed: seq<Notification>, k: nat, script: Script): seq<Id>
    decreases |claimed|
  {
    if claimed == [] then []
    else
      var visited := Visited(s, Recipients(claimed[0]), k, script);
      visited + Attempted(Played(s, visited, k, script), claimed[1..], k + |visited|, script)
  }

  function AllRecipients(claimed: seq<Notification>): seq<Id> {
    if claimed == [] then [] else Recipients(claimed[0]) + AllRecipients(claimed[1..])
  }

  lemma {:induction false} VisitedAll(s: State, ids: seq<Id>, k: nat, script: Script)
    ensures Visited(s, ids, k, script) <= ids
    ensures (forall n :: script.reported(n)) ==> Visited(s, ids, k, script) == ids
    decreases |ids|
  {
    hide After, Delivers;
    if ids != [] {
      VisitedAll(After(s, ids[0], script.attempt(k)), ids[1..], k + 1, script);
      assert ids == [ids[0]] + ids[1..];
    }
  }

  /** If failures can be reported, every recipient of every notification that is not skipped is attempted once, in order. */
  lemma {:induction false} NobodyIsForgotten(s: State, claimed: seq<Notification>, k: nat, script: Script)
    requires forall n :: script.reported(n)
    ensures Attempted(s, claimed, k, script) == AllRecipients(claimed)
    decreases |claimed|
  {
    hide Visited, Played, Recipients;
    if claimed != [] {
      var visited := Visited(s, Recipients(claimed[0]), k, script);
      VisitedAll(s, Recipients(claimed[0]), k, script);
      NobodyIsForgotten(Played(s, visited, k, script), claimed[1..], k + |visited|, script);
    }
  }

  lemma VisitedNext(s: State, rest: seq<Id>, k: nat, script: Script, id: Id, whole: seq<Id>, ids: seq<Id>)
    requires whole == ids + Visited(s, [id] + rest, k, script)
    ensures whole == if Delivers(s, id, script.attempt(k)) || script.reported(k)
                     then (ids + [id]) + Visited(After(s, id, script.attempt(k)), rest, k + 1, script) else ids + [id]
  {
    assert ([id] + rest)[1..] == rest;
    hide Delivers, After;
  }

  lemma AttemptedNext(s: State, n: Notification, rest: seq<Notification>, k: nat, script: Script, whole: seq<Id>, ids: seq<Id>)
    requires whole == ids + Attempted(s, [n] + rest, k, script)
    ensures var v := Visited(s, Recipients(n), k, script);
            whole == (ids + v) + Attempted(Played(s, v, k, script), rest, k + |v|, script)
  {
    hide Visited, Played, Recipients;
    assert ([n] + rest)[1..] == rest;
  }

  lemma NonEmptyNext(id: Id, rest: seq<Id>)
    ensures NonEmpty([id] + rest) == if id == "" then NonEmpty(rest) else [id] + NonEmpty(rest)
  {
    assert ([id] + rest)[1..] == rest;
  }

  lemma PlayedNext(s: State, ids: seq<Id>, k: nat, script: Script, id: Id)
    ensures Played(s, ids + [id], k, script) == After(Played(s, ids, k, script), id, script.attempt(k + |ids|))
  {
    assert AttemptsFrom(script, k, |ids| + 1) == AttemptsFrom(script, k, |ids|) + [script.attempt(k + |ids|)];
    AttemptsAppend(s, ids, AttemptsFrom(script, k, |ids|), id, script.attempt(k + |ids|));
  }

  lemma {:induction false} PlayedTogether(s: State, a: seq<Id>, b: seq<Id>, k: nat, script: Script)
    ensures Played(s, a + b, k, script) == Played(Played(s, a, k, script), b, k + |a|, script)
    decreases |b|
  {
    if b == [] {
      assert a + b == a;
    } else {
      var init, last := b[..|b| - 1], b[|b| - 1];
      assert b == init + [last] && a + b == (a + init) + [last];
      PlayedTogether(s, a, init, k, script);
      PlayedNext(s, a + init, k, script, last);
      PlayedNext(Played(s, a, k, script), init, k + |a|, script, last);
    }
  }

  class Worker {
    /** The receipt files: what they hold for an error code, None for null. */
    var receipts: map<Id, Option<int>>
    /** What all workers together have made happen. */
    ghost var state: State

    ghost predicate Valid()
      reads this
    {
      state.receipts == receipts && Accounted(state)
    }

    constructor ()
      ensures Valid() && state == FRESH
    {
      receipts, state := map[], FRESH;
    }

    /** _read_receipt: ids of another shape have none. */
    method ReadReceipt(id: Id) returns (receipt: Option<Option<int>>)
      requires Valid()
      ensures receipt == if id in state.receipts then Some(state.receipts[id]) else None
    {
      receipt := if !IsValidId(id) || id !in receipts then None else Some(receipts[id]);
    }

    /** _write_receipt: one atomic replacement. */
    method WriteReceipt(id: Id, errcode: Option<int>)
      modifies this`receipts
      ensures receipts == if IsValidId(id) then old(receipts)[id := errcode] else old(receipts)
    {
      if !IsValidId(id) {
        return;
      }
      receipts := receipts[id := errcode];
    }

    /**
     One delivery: read the receipt, call only without one, check the error code, write the receipt, report
     success.  What happens is `a`, and done step by step it is that attempt.
     */
    method DeliverOne(id: Id, a: Attempt) returns (delivered: bool, sent: bool)
      requires Valid()
      modifies this
      ensures Valid() && state == After(old(state), id, a)
      ensures delivered == Delivers(old(state), id, a) && sent == (delivered && a.callback)
      ensures |state.confirmed| == |old(state).confirmed| + (if sent then 1 else 0)
      ensures delivered ==> (id in state.receipts || !IsValidId(id)) && id in state.accepted
    {
      delivered, sent := false, false;
      var receipt := ReadReceipt(id);
      ghost var before := state;
      state := After(before, id, a);
      AttemptKeepsAccounts(before, id, a);
      var errcode: Option<int>;
      if receipt.Some? {
        errcode := receipt.value;
        CountPositive(before.accepted, id);
      } else {
        if !a.call.Answer? {
          return;
        }
        errcode := a.call.errcode;
      }
      if !Passes(receipt.Some?, errcode) {
        return;
      }
      if a.wrote {
        WriteReceipt(id, errcode);
        delivered := true;
        sent := a.callback;
      }
    }

    /** The recipients of one notification; a failure that cannot be reported either ends it. */
    method DeliverAll(notification: Notification, k: nat, script: Script) returns (sent: nat, failed: nat, ghost ids: seq<Id>)
      requires Valid()
      modifies this
      ensures Valid() && ids == Visited(old(state), NonEmpty(notification.recipients), k, script)
      ensures state == Played(old(state), ids, k, script)
      ensures sent + failed == |ids| && sent + |old(state).confirmed| == |state.confirmed|
    {
      hide After, Accounted, Delivers, Visited, Played, NonEmpty;
      sent, failed, ids := 0, 0, [];
      NothingPlayed(state, k, script);
      ghost var whole := Visited(state, NonEmpty(notification.recipients), k, script);
      assert notification.recipients[0..] == notification.recipients;
      var n := 0;
      while n < |notification.recipients|
        invariant 0 <= n <= |notification.recipients|
        invariant Valid() && state == Played(old(state), ids, k, script)
        invariant whole == ids + Visited(state, NonEmpty(notification.recipients[n..]), k + |ids|, script)
        invariant sent + failed == |ids| && sent + |old(state).confirmed| == |state.confirmed|
      {
        var id := notification.recipients[n];
        assert notification.recipients[n..] == [id] + notification.recipients[n + 1..];
        NonEmptyNext(id, notification.recipients[n + 1..]);
        n := n + 1;
        if id == "" {
          continue;
        }
        VisitedNext(state, NonEmpty(notification.recipients[n..]), k + |ids|, script, id, whole, ids);
        PlayedNext(old(state), ids, k, script, id);
        var attempt := k + sent + failed;
        var delivered, success := DeliverOne(id, script.attempt(attempt));
        ids := ids + [id];
        if success {
          sent := sent + 1;
        } else {
          failed := failed + 1;
          if !delivered && !script.reported(attempt) {
            // The failure could not be reported either: the rest of this notification waits for the next claim.
            return;
          }
        }
      }
      assert notification.recipients[n..] == [];
      NobodyLeft(state, k + |ids|, script);
    }

    /** run_once over the claimed notifications, whatever is skipped, fails, or cuts a notification short. */
    method RunOnce(claimed: seq<Notification>, script: Script) returns (sent: nat, failed: nat, ghost ids: seq<Id>)
      requires Valid()
      modifies this
      ensures Valid() && ids == Attempted(old(state), claimed, 0, script)
      ensures state == Played(old(state), ids, 0, script)
      ensures sent + failed == |ids| && sent + |old(state).confirmed| == |state.confirmed|
    {
      hide After, Accounted, Delivers, Visited, Attempted, Played, NonEmpty;
      sent, failed, ids := 0, 0, [];
      NothingPlayed(state, 0, script);
      ghost var whole := Attempted(state, claimed, 0, script);
      assert claimed[0..] == claimed;
      for n := 0 to |claimed|
        invariant Valid() && state == Played(old(state), ids, 0, script)
        invariant whole == ids + Attempted(state, claimed[n..], |ids|, script)
        invariant sent + failed == |ids| && sent + |old(state).confirmed| == |state.confirmed|
      {
        var notification := claimed[n];
        assert claimed[n..] == [notification] + claimed[n + 1..];
        AttemptedNext(state, notification, claimed[n + 1..], |ids|, script, whole, ids);
        if notification.id == "" || (notification.content == "" && !notification.groupImage) {
          NobodyLeft(state, |ids|, script);
          NothingPlayed(state, |ids|, script);
          assert ids + [] == ids;
          continue;
        }
        var more, less;
        ghost var next;
        more, less, next := DeliverAll(notification, sent + failed, script);
        PlayedTogether(old(state), ids, next, 0, script);
        sent, failed, ids := sent + more, failed + less, ids + next;
      }
      assert claimed[|claimed|..] == [];
      NobodyLeft(state, |ids|, script);
    }
  }

  lemma NothingPlayed(s: State, k: nat, script: Script)
    ensures Played(s, [], k, script) == s
  {
  }

  lemma NobodyLeft(s: State, k: nat, script: Script)
    ensures Visited(s, [], k, script) == [] && Attempted(s, [], k, script) == [] && NonEmpty([]) == []
  {
  }

  lemma AttemptsAppend(s: State, ids: seq<Id>, attempts: seq<Attempt>, id: Id, a: Attempt)
    requires |ids| == |attempts|
    ensures AfterAll(s, ids + [id], attempts + [a]) == After(AfterAll(s, ids, attempts), id, a)
  {
    assert (ids + [id])[..|ids|] == ids && (attempts + [a])[..|ids|] == attempts;
  }
}
