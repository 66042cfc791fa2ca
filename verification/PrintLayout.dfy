/** Print column widths in millimetres: the remaining paper is shared by weight, but no column gets less than 8 mm. */
module PrintLayout {
  import opened Wrappers

  type Key = string

  datatype PaperSize = A4 | A3

  datatype Orientation = Portrait | Landscape

  datatype WidthMode = Fit | Custom

  datatype Preferences = Preferences(columnKeys: seq<Key>, widths: map<Key, real>, paperSize: PaperSize,
                                     orientation: Orientation, widthMode: WidthMode)

  datatype Column = Column(key: Key, width: real)

  const MIN_COLUMN: real := 8.0
  const MAX_COLUMN: real := 1000.0
  const MARGIN: real := 10.0

  function PaperWidth(paper: PaperSize, orientation: Orientation): real {
    match (paper, orientation)
    case (A3, Portrait) => 297.0
    case (A3, Landscape) => 420.0
    case (A4, Portrait) => 210.0
    case (A4, Landscape) => 297.0
  }

  function Available(p: Preferences): real {
    PaperWidth(p.paperSize, p.orientation) - 2.0 * MARGIN
  }

  // ----- Saved preferences -----

  /** What was stored; anything of the wrong type is None. */
  datatype Saved = Saved(version: Option<int>, columnKeys: Option<seq<Option<Key>>>, widths: map<Key, Option<real>>,
                         paperSize: Option<string>, orientation: Option<string>, widthMode: Option<string>)

  predicate InRange(w: Option<real>) {
    w.Some? && MIN_COLUMN <= w.value <= MAX_COLUMN
  }

  /** a occurs in the list before b does. */
  ghost predicate OccursBefore(keys: seq<Option<Key>>, a: Key, b: Key) {
    exists m :: 0 <= m < |keys| && keys[m] == Some(a) && Some(b) !in keys[..m + 1]
  }

  /** The first of each allowed key, in order. */
  function DistinctAllowed(keys: seq<Option<Key>>, allowed: set<Key>): (r: seq<Key>)
    ensures forall k :: k in r <==> Some(k) in keys && k in allowed
    ensures forall i, j :: 0 <= i < j < |r| ==> r[i] != r[j] && OccursBefore(keys, r[i], r[j])
  {
    if keys == [] then []
    else
      var before, last := DistinctAllowed(keys[..|keys| - 1], allowed), keys[|keys| - 1];
      assert keys == keys[..|keys| - 1] + [last];
      assert forall m :: 0 <= m < |keys| - 1 ==> keys[..|keys| - 1][m] == keys[m] && keys[..|keys| - 1][..m + 1] == keys[..m + 1];
      assert forall a, b :: OccursBefore(keys[..|keys| - 1], a, b) ==> OccursBefore(keys, a, b);
      if last.Some? && last.value in allowed && last.value !in before then before + [last.value] else before
  }

  /** Column widths within 8 to 1000 mm. */
  predicate Sound(p: Preferences) {
    forall k <- p.widths :: MIN_COLUMN <= p.widths[k] <= MAX_COLUMN
  }

  /** What a layout needs: the settings page also stores automatic widths, which have no upper bound. */
  predicate Printable(p: Preferences) {
    forall k <- p.widths :: MIN_COLUMN <= p.widths[k]
  }

  function NormalizePrintPreferences(saved: Option<Saved>, allowed: set<Key>, defaults: Preferences): (r: Preferences)
    ensures Sound(defaults) ==> Sound(r)
    ensures saved.None? || saved.value.version != Some(1) ==> r == defaults
    ensures saved.Some? && saved.value.version == Some(1) && saved.value.columnKeys.Some? ==>
      && (forall k :: k in r.columnKeys <==> Some(k) in saved.value.columnKeys.value && k in allowed)
      && (forall i, j :: 0 <= i < j < |r.columnKeys| ==>
           r.columnKeys[i] != r.columnKeys[j] && OccursBefore(saved.value.columnKeys.value, r.columnKeys[i], r.columnKeys[j]))
    ensures saved.Some? && saved.value.version == Some(1) && saved.value.columnKeys.None? ==> r.columnKeys == defaults.columnKeys
    ensures saved.Some? && saved.value.version == Some(1) ==>
      && (r.paperSize == A3 <==> saved.value.paperSize == Some("A3"))
      && (r.orientation == Landscape <==> saved.value.orientation == Some("landscape"))
      && (r.widthMode == Custom <==> saved.value.widthMode == Some("custom"))
    ensures saved.Some? && saved.value.version == Some(1) ==>
      && (forall k <- r.widths :: k in allowed && 8.0 <= r.widths[k] <= 1000.0 && k in saved.value.widths && saved.value.widths[k] == Some(r.widths[k]))
      && (forall k, w :: k in allowed && k in saved.value.widths && saved.value.widths[k] == Some(w) && 8.0 <= w <= 1000.0 ==> k in r.widths)
  {
    if saved.None? || saved.value.version != Some(1) then defaults
    else
      var s := saved.value;
      Preferences(if s.columnKeys.Some? then DistinctAllowed(s.columnKeys.value, allowed) else defaults.columnKeys,
                  map k <- s.widths | k in allowed && InRange(s.widths[k]) :: s.widths[k].value,
                  if s.paperSize == Some("A3") then A3 else A4,
                  if s.orientation == Some("landscape") then Landscape else Portrait,
                  if s.widthMode == Some("custom") then Custom else Fit)
  }

  // ----- Sums -----

  function Sum(s: seq<real>): real {
    if s == [] then 0.0 else Sum(s[..|s| - 1]) + s[|s| - 1]
  }

  /** The desired widths of the columns still pending, added up. */
  function Weight(desired: seq<real>, pending: seq<bool>): real
    requires |pending| == |desired|
  {
    if desired == [] then 0.0
    else
      var n := |desired| - 1;
      Weight(desired[..n], pending[..n]) + (if pending[n] then desired[n] else 0.0)
  }

  function Count(pending: seq<bool>): nat {
    if pending == [] then 0 else Count(pending[..|pending| - 1]) + (if pending[|pending| - 1] then 1 else 0)
  }

  function AndNot(a: seq<bool>, b: seq<bool>): (r: seq<bool>)
    requires |a| == |b|
    ensures |r| == |a| && forall i :: 0 <= i < |a| ==> r[i] == (a[i] && !b[i])
  {
    seq(|a|, i requires 0 <= i < |a| => a[i] && !b[i])
  }

  lemma {:induction false} WeightIsPositive(desired: seq<real>, pending: seq<bool>)
    requires |pending| == |desired| && forall i :: 0 <= i < |desired| ==> desired[i] > 0.0
    ensures Weight(desired, pending) >= 0.0
    ensures Weight(desired, pending) > 0.0 <==> Count(pending) > 0
  {
    if desired != [] {
      var n := |desired| - 1;
      WeightIsPositive(desired[..n], pending[..n]);
    }
  }

  lemma {:induction false} CountSome(pending: seq<bool>)
    ensures Count(pending) > 0 <==> exists i :: 0 <= i < |pending| && pending[i]
  {
    if pending != [] {
      var n := |pending| - 1;
      CountSome(pending[..n]);
      if i :| 0 <= i < |pending| && pending[i] {
        assert i < n ==> pending[..n][i];
      }
    }
  }

  lemma {:induction false} AllPending(n: nat)
    ensures Count(seq(n, _ => true)) == n
  {
    if n > 0 {
      assert seq(n, _ => true)[..n - 1] == seq(n - 1, _ => true);
      AllPending(n - 1);
    }
  }

  /** Taking some columns out takes out their weight and their number. */
  lemma {:induction false} Split(desired: seq<real>, pending: seq<bool>, small: seq<bool>)
    requires |pending| == |desired| == |small| && forall i :: 0 <= i < |small| && small[i] ==> pending[i]
    ensures Weight(desired, pending) == Weight(desired, small) + Weight(desired, AndNot(pending, small))
    ensures Count(pending) == Count(small) + Count(AndNot(pending, small))
  {
    if desired != [] {
      var n := |desired| - 1;
      Split(desired[..n], pending[..n], small[..n]);
      assert AndNot(pending, small)[..n] == AndNot(pending[..n], small[..n]);
    }
  }

  /** Columns below the bound are together below their number times the bound; at or above it, together not below. */
  lemma {:induction false} Bounded(desired: seq<real>, pending: seq<bool>, r: real, bound: real)
    requires |pending| == |desired|
    requires forall i :: 0 <= i < |desired| && pending[i] ==> r * desired[i] < bound
    ensures r * Weight(desired, pending) <= bound * Count(pending) as real
    ensures Count(pending) > 0 ==> r * Weight(desired, pending) < bound * Count(pending) as real
  {
    if desired != [] {
      var n := |desired| - 1;
      Bounded(desired[..n], pending[..n], r, bound);
      var w, c := Weight(desired[..n], pending[..n]), Count(pending[..n]);
      if pending[n] {
        assert r * (w + desired[n]) == r * w + r * desired[n];
        assert bound * (c + 1) as real == bound * c as real + bound;
      }
    }
  }

  /** A column's share at a level. */
  function At(level: real, desired: real): real {
    level * desired
  }

  /** The sum when pending columns get their share and the others the minimum. */
  lemma {:induction false} SharedSum(desired: seq<real>, pending: seq<bool>, level: real, widths: seq<real>)
    requires |pending| == |desired| == |widths|
    requires forall i :: 0 <= i < |widths| ==> widths[i] == if pending[i] then At(level, desired[i]) else MIN_COLUMN
    ensures Sum(widths) == At(level, Weight(desired, pending)) + MIN_COLUMN * (|desired| - Count(pending)) as real
  {
    if desired != [] {
      var n := |desired| - 1;
      SharedSum(desired[..n], pending[..n], level, widths[..n]);
      var w := Weight(desired[..n], pending[..n]);
      if pending[n] {
        assert level * (w + desired[n]) == level * w + level * desired[n];
      }
    }
  }

  // ----- Water filling -----

  function Max(a: real, b: real): real {
    if a < b then b else a
  }

  /** One level for all columns: a column's width is its share at that level, or the minimum if the share is less. */
  ghost predicate IsWaterFill(desired: seq<real>, available: real, widths: seq<real>, level: real) {
    && |widths| == |desired|
    && Sum(widths) == available
    && forall i :: 0 <= i < |desired| ==> widths[i] == Max(MIN_COLUMN, At(level, desired[i]))
  }

  /** At the level r / weight, a column of this desired width gets less than the minimum. */
  ghost predicate Below(r: real, d: real, weight: real) {
    r * d < MIN_COLUMN * weight
  }

  ghost predicate AtMost(r: real, d: real, weight: real) {
    r * d <= MIN_COLUMN * weight
  }

  /** Columns of this weight together get no more than c minimums. */
  ghost predicate Together(r: real, taken: real, weight: real, c: real) {
    r * taken <= MIN_COLUMN * weight * c
  }

  /** What every round keeps: enough remains, and no settled column would earn more than the minimum. */
  ghost predicate Filling(desired: seq<real>, available: real, pending: seq<bool>, remaining: real, widths: seq<real>) {
    && |pending| == |desired| == |widths|
    && Count(pending) > 0
    && remaining == available - MIN_COLUMN * (|desired| - Count(pending)) as real
    && remaining >= MIN_COLUMN * Count(pending) as real
    && forall i :: 0 <= i < |desired| && !pending[i] ==>
         widths[i] == MIN_COLUMN && AtMost(remaining, desired[i], Weight(desired, pending))
  }

  /** What a column of this desired width gets of what remains. */
  function Share(remaining: real, desired: real, weight: real): real
    requires weight != 0.0
  {
    remaining * desired / weight
  }

  /** Pending columns whose share is below the minimum. */
  function Small(desired: seq<real>, pending: seq<bool>, remaining: real, weight: real): (r: seq<bool>)
    requires |pending| == |desired| && weight > 0.0
    ensures |r| == |desired|
    ensures forall i :: 0 <= i < |r| ==> (r[i] <==> pending[i] && Share(remaining, desired[i], weight) < MIN_COLUMN)
  {
    if desired == [] then []
    else
      var n := |desired| - 1;
      Small(desired[..n], pending[..n], remaining, weight) + [pending[n] && Share(remaining, desired[n], weight) < MIN_COLUMN]
  }

  lemma Quotient(a: real, w: real, b: real)
    requires w > 0.0
    ensures a / w < b <==> a < b * w
  {
    assert a == (a / w) * w;
  }

  /** The pending columns that would get less than the minimum, without the division. */
  ghost predicate AreSmall(desired: seq<real>, pending: seq<bool>, remaining: real, small: seq<bool>)
    requires |pending| == |desired|
  {
    && |small| == |desired|
    && forall i :: 0 <= i < |desired| ==> (small[i] <==> pending[i] && Below(remaining, desired[i], Weight(desired, pending)))
  }

  lemma SmallMeansBelow(desired: seq<real>, pending: seq<bool>, remaining: real, weight: real)
    requires |pending| == |desired| && weight > 0.0 && weight == Weight(desired, pending)
    ensures AreSmall(desired, pending, remaining, Small(desired, pending, remaining, weight))
  {
    forall i | 0 <= i < |desired| ensures Share(remaining, desired[i], weight) < MIN_COLUMN <==> Below(remaining, desired[i], weight) {
      Quotient(remaining * desired[i], weight, MIN_COLUMN);
    }
  }

  /** Not every pending column is small: together they have enough. */
  lemma SomeStay(desired: seq<real>, pending: seq<bool>, remaining: real, small: seq<bool>)
    requires |pending| == |desired| && Weight(desired, pending) > 0.0 && AreSmall(desired, pending, remaining, small)
    requires remaining >= MIN_COLUMN * Count(pending) as real
    ensures Count(AndNot(pending, small)) > 0
  {
    hide Weight, Count, AndNot;
    var weight := Weight(desired, pending);
    Split(desired, pending, small);
    Bounded(desired, small, remaining, MIN_COLUMN * weight);
    WeightOfNone(desired, pending);
    WeightOfNone(desired, AndNot(pending, small));
    NoneStay(remaining, weight, Count(pending) as real);
  }

  lemma NoneStay(remaining: real, weight: real, count: real)
    requires weight > 0.0 && remaining >= MIN_COLUMN * count
    ensures remaining * weight >= MIN_COLUMN * weight * count
  {
    assert remaining * weight >= MIN_COLUMN * count * weight;
  }

  lemma {:induction false} WeightOfNone(desired: seq<real>, pending: seq<bool>)
    requires |pending| == |desired|
    ensures Count(pending) == 0 ==> Weight(desired, pending) == 0.0
  {
    if desired != [] {
      WeightOfNone(desired[..|desired| - 1], pending[..|desired| - 1]);
    }
  }

  /** What the small columns take together, at the present level, is no more than their minimum widths. */
  lemma SmallTogether(desired: seq<real>, pending: seq<bool>, remaining: real, small: seq<bool>)
    requires |pending| == |desired| && AreSmall(desired, pending, remaining, small)
    ensures Together(remaining, Weight(desired, small), Weight(desired, pending), Count(small) as real)
  {
    hide Weight, Count;
    Bounded(desired, small, remaining, MIN_COLUMN * Weight(desired, pending));
  }

  /** The level falls when small columns are settled, (r - 8c)/rest <= r/weight: what was small stays small. */
  lemma CrossMultiply(r: real, weight: real, rest: real, c: real, d: real)
    requires weight > 0.0 && rest > 0.0 && d >= 0.0 && c >= 0.0 && r >= 0.0
    requires r * (weight - rest) <= MIN_COLUMN * weight * c
    requires r * d <= MIN_COLUMN * weight
    ensures (r - MIN_COLUMN * c) * d <= MIN_COLUMN * rest
  {
    var left := (r - MIN_COLUMN * c) * d;
    assert (r - MIN_COLUMN * c) * weight <= r * rest by {
      assert r * (weight - rest) == r * weight - r * rest;
      assert (r - MIN_COLUMN * c) * weight == r * weight - MIN_COLUMN * weight * c;
    }
    assert left * weight <= (r * rest) * d by {
      assert left * weight == ((r - MIN_COLUMN * c) * weight) * d;
      TimesNonNegative((r - MIN_COLUMN * c) * weight, r * rest, d);
    }
    assert (r * rest) * d <= (MIN_COLUMN * rest) * weight by {
      assert (r * rest) * d == (r * d) * rest;
      TimesNonNegative(r * d, MIN_COLUMN * weight, rest);
      assert (MIN_COLUMN * weight) * rest == (MIN_COLUMN * rest) * weight;
    }
    CancelPositive(left, MIN_COLUMN * rest, weight);
  }

  lemma TimesNonNegative(a: real, b: real, c: real)
    requires a <= b && c >= 0.0
    ensures a * c <= b * c
  {
    assert (b - a) * c >= 0.0;
  }

  lemma TimesPositive(a: real, c: real)
    requires c > 0.0
    ensures a > 0.0 ==> a * c > 0.0
  {
  }

  lemma CancelPositive(a: real, b: real, c: real)
    requires a * c <= b * c && c > 0.0
    ensures a <= b
  {
    TimesPositive(a - b, c);
    assert (a - b) * c == a * c - b * c;
  }

  // ----- One round -----

  /** Settling the small columns keeps what every round keeps, with fewer pending. */
  lemma RoundKeeps(desired: seq<real>, available: real, pending: seq<bool>, remaining: real, widths: seq<real>,
                   small: seq<bool>, after: seq<real>)
    requires forall i :: 0 <= i < |desired| ==> desired[i] > 0.0
    requires Filling(desired, available, pending, remaining, widths) && Weight(desired, pending) > 0.0
    requires AreSmall(desired, pending, remaining, small) && Count(small) > 0
    requires |after| == |widths| && forall i :: 0 <= i < |after| ==> after[i] == if small[i] then MIN_COLUMN else widths[i]
    ensures Filling(desired, available, AndNot(pending, small), remaining - MIN_COLUMN * Count(small) as real, after)
    ensures Count(AndNot(pending, small)) < Count(pending)
  {
    hide Weight, Count, Below, AtMost, Together;
    var rest := AndNot(pending, small);
    var left := remaining - MIN_COLUMN * Count(small) as real;
    Split(desired, pending, small);
    SomeStay(desired, pending, remaining, small);
    SmallTogether(desired, pending, remaining, small);
    WeightIsPositive(desired, rest);
    forall i | 0 <= i < |desired| && !rest[i]
      ensures after[i] == MIN_COLUMN && AtMost(left, desired[i], Weight(desired, rest))
    {
      BelowIsAtMost(remaining, desired[i], Weight(desired, pending));
      StaysSmall(remaining, Weight(desired, pending), Weight(desired, rest), Weight(desired, small), Count(small) as real, desired[i]);
    }
  }

  lemma BelowIsAtMost(r: real, d: real, weight: real)
    ensures Below(r, d, weight) ==> AtMost(r, d, weight)
  {
  }

  lemma StaysSmall(r: real, weight: real, rest: real, taken: real, c: real, d: real)
    requires weight > 0.0 && rest > 0.0 && d >= 0.0 && c >= 0.0 && r >= 0.0 && weight == taken + rest
    requires Together(r, taken, weight, c) && AtMost(r, d, weight)
    ensures AtMost(r - MIN_COLUMN * c, d, rest)
  {
    assert weight - rest == taken;
    CrossMultiply(r, weight, rest, c, d);
  }

  /** With no small column left, the shares and the minimums are a water fill. */
  lemma LastRound(desired: seq<real>, available: real, pending: seq<bool>, remaining: real, widths: seq<real>, after: seq<real>)
    requires Filling(desired, available, pending, remaining, widths) && Weight(desired, pending) > 0.0
    requires forall i :: 0 <= i < |desired| && pending[i] ==> Share(remaining, desired[i], Weight(desired, pending)) >= MIN_COLUMN
    requires |after| == |widths|
    requires forall i :: 0 <= i < |after| ==>
      after[i] == if pending[i] then Share(remaining, desired[i], Weight(desired, pending)) else widths[i]
    ensures IsWaterFill(desired, available, after, remaining / Weight(desired, pending))
  {
    hide Weight, Count, AtMost, Share, At;
    var weight := Weight(desired, pending);
    var level := remaining / weight;
    forall i | 0 <= i < |desired|
      ensures after[i] == Max(MIN_COLUMN, At(level, desired[i]))
      ensures after[i] == if pending[i] then At(level, desired[i]) else MIN_COLUMN
    {
      ShareIsLevel(remaining, desired[i], weight);
    }
    SharedSum(desired, pending, level, after);
    ShareIsLevel(remaining, weight, weight);
  }

  lemma ShareIsLevel(r: real, d: real, weight: real)
    requires weight > 0.0
    ensures Share(r, d, weight) == At(r / weight, d)
    ensures AtMost(r, d, weight) ==> At(r / weight, d) <= MIN_COLUMN
    ensures At(r / weight, weight) == r
  {
    Quotient(r * d, weight, MIN_COLUMN);
    Commute(r, d, weight);
  }

  lemma Commute(r: real, d: real, weight: real)
    requires weight > 0.0
    ensures (r / weight) * weight == r
    ensures (r * d) / weight == (r / weight) * d
    ensures r * d <= MIN_COLUMN * weight ==> (r * d) / weight <= MIN_COLUMN
  {
    var q := r / weight;
    assert q * weight == r;
    assert (q * d) * weight == r * d;
    var t := (r * d) / weight;
    assert t * weight == r * d;
    SameTimes(t, q * d, weight);
    if r * d <= MIN_COLUMN * weight {
      CancelPositive(t, MIN_COLUMN, weight);
    }
  }

  lemma SameTimes(a: real, b: real, c: real)
    requires a * c == b * c && c > 0.0
    ensures a == b
  {
    CancelPositive(a, b, c);
    CancelPositive(b, a, c);
  }

  // ----- The layout -----

  function ByKey(columns: seq<Column>): map<Key, Column> {
    if columns == [] then map[] else ByKey(columns[..|columns| - 1])[columns[|columns| - 1].key := columns[|columns| - 1]]
  }

  function Shown(keys: seq<Key>, byKey: map<Key, Column>): (r: seq<Key>)
    ensures forall k :: k in r <==> k in keys && k in byKey
    ensures (forall k <- keys :: k in byKey) ==> r == keys
  {
    if keys == [] then []
    else
      assert keys == keys[..|keys| - 1] + [keys[|keys| - 1]];
      Shown(keys[..|keys| - 1], byKey) + (if keys[|keys| - 1] in byKey then [keys[|keys| - 1]] else [])
  }

  /** The saved width, or twice the relative weight but not less than the minimum. */
  function Desired(p: Preferences, byKey: map<Key, Column>, keys: seq<Key>): (r: seq<real>)
    requires forall k <- keys :: k in byKey
    ensures |r| == |keys|
    ensures forall i :: 0 <= i < |r| && keys[i] in p.widths ==> r[i] == p.widths[keys[i]]
    ensures forall i :: 0 <= i < |r| && keys[i] !in p.widths ==>
      if byKey[keys[i]].width <= 4.0 then r[i] == 8.0 else r[i] == 2.0 * byKey[keys[i]].width
    ensures Printable(p) ==> forall i :: 0 <= i < |r| ==> r[i] >= MIN_COLUMN
  {
    if keys == [] then []
    else
      var k := keys[|keys| - 1];
      Desired(p, byKey, keys[..|keys| - 1]) + [if k in p.widths then p.widths[k] else Max(MIN_COLUMN, byKey[k].width * 2.0)]
  }

  datatype Layout = Layout(keys: seq<Key>, widths: seq<real>, available: real, total: real, overflow: bool)

  /** The loop of fit mode. It ends, and its widths are the water fill of the available width. */
  method Fill(desired: seq<real>, available: real) returns (widths: seq<real>, ghost level: real)
    requires forall i :: 0 <= i < |desired| ==> desired[i] > 0.0
    requires MIN_COLUMN * |desired| as real <= available
    ensures desired != [] ==> IsWaterFill(desired, available, widths, level)
    ensures desired == [] ==> widths == []
  {
    hide Weight, Count;
    widths, level := desired, 0.0;
    if desired == [] {
      return;
    }
    var remaining := available;
    var pending := seq(|desired|, _ => true);
    AllPending(|desired|);
    while true
      invariant Filling(desired, available, pending, remaining, widths)
      decreases Count(pending)
    {
      var weight := Weight(desired, pending);
      WeightIsPositive(desired, pending);
      var small := Small(desired, pending, remaining, weight);
      CountSome(small);
      if Count(small) == 0 {
        ghost var before := widths;
        widths := ShareOut(desired, pending, remaining, weight, widths);
        level := remaining / weight;
        LastRound(desired, available, pending, remaining, before, widths);
        return;
      }
      SmallMeansBelow(desired, pending, remaining, weight);
      ghost var before, had, open := widths, remaining, pending;
      widths, remaining, pending := Settle(small, widths, remaining, pending);
      RoundKeeps(desired, available, open, had, before, small, widths);
    }
  }

  /** Each small column is settled at the minimum, which comes off what remains. */
  method Settle(small: seq<bool>, widths: seq<real>, remaining: real, pending: seq<bool>)
    returns (w: seq<real>, left: real, rest: seq<bool>)
    requires |small| == |widths| == |pending|
    ensures |w| == |widths| && forall i :: 0 <= i < |w| ==> w[i] == if small[i] then MIN_COLUMN else widths[i]
    ensures left == remaining - MIN_COLUMN * Count(small) as real
    ensures rest == AndNot(pending, small)
  {
    w, left, rest := widths, remaining, pending;
    for i := 0 to |small|
      invariant |w| == |rest| == |small|
      invariant forall j :: 0 <= j < i ==> w[j] == (if small[j] then MIN_COLUMN else widths[j]) && rest[j] == (pending[j] && !small[j])
      invariant forall j :: i <= j < |small| ==> w[j] == widths[j] && rest[j] == pending[j]
      invariant left == remaining - MIN_COLUMN * Count(small[..i]) as real
    {
      assert small[..i + 1][..i] == small[..i];
      if small[i] {
        w, left, rest := w[i := MIN_COLUMN], left - MIN_COLUMN, rest[i := false];
      }
    }
    assert small[..|small|] == small;
    assert rest == AndNot(pending, small);
  }

  /** Each pending column gets its share of what remains. */
  method ShareOut(desired: seq<real>, pending: seq<bool>, remaining: real, weight: real, widths: seq<real>) returns (w: seq<real>)
    requires |desired| == |pending| == |widths| && weight != 0.0
    ensures |w| == |widths| && forall i :: 0 <= i < |w| ==> w[i] == if pending[i] then Share(remaining, desired[i], weight) else widths[i]
  {
    w := widths;
    for i := 0 to |desired|
      invariant |w| == |widths|
      invariant forall j :: 0 <= j < i ==> w[j] == if pending[j] then Share(remaining, desired[j], weight) else widths[j]
      invariant forall j :: i <= j < |w| ==> w[j] == widths[j]
    {
      if pending[i] {
        w := w[i := Share(remaining, desired[i], weight)];
      }
    }
  }

  /** computePrintLayout. Fit mode overflows exactly when even minimum widths do not fit; otherwise the widths are
      the water fill and use the whole available width. */
  method ComputePrintLayout(columns: seq<Column>, p: Preferences) returns (layout: Layout, ghost level: real)
    requires Printable(p)
    ensures layout.available == Available(p) && layout.total == Sum(layout.widths)
    ensures layout.available == match (p.paperSize, p.orientation)
      case (A4, Portrait) => 190.0 case (A4, Landscape) => 277.0 case (A3, Portrait) => 277.0 case (A3, Landscape) => 400.0
    ensures layout.keys == Shown(p.columnKeys, ByKey(columns)) && |layout.widths| == |layout.keys|
    ensures forall i :: 0 <= i < |layout.widths| ==> layout.widths[i] >= MIN_COLUMN
    ensures p.widthMode == Fit ==> (layout.overflow <==> MIN_COLUMN * |layout.keys| as real > layout.available)
    ensures (p.widthMode == Fit && !layout.overflow && layout.keys != []) ==>
      IsWaterFill(Desired(p, ByKey(columns), layout.keys), layout.available, layout.widths, level)
    ensures p.widthMode == Custom || layout.overflow ==> layout.widths == Desired(p, ByKey(columns), layout.keys)
    ensures p.widthMode == Custom ==> (layout.overflow <==> layout.total > layout.available + 0.01)
  {
    hide IsWaterFill, ByKey, Available, Desired, Shown, Sum;
    AvailableIs(p);
    var byKey := ByKey(columns);
    var keys := Shown(p.columnKeys, byKey);
    var desired := Desired(p, byKey, keys);
    var available := Available(p);
    var widths := desired;
    level := 0.0;
    if p.widthMode == Fit && |keys| as real * MIN_COLUMN <= available {
      widths, level := Fill(desired, available);
      MinimumsAtLeast(widths, desired, available, level);
    }
    var total := Sum(widths);
    layout := Layout(keys, widths, available, total, total > available + 0.01);
    SumAtLeast(desired);
    WholeMillimetres(p, |keys|);
  }

  lemma AvailableIs(p: Preferences)
    ensures Available(p) == match (p.paperSize, p.orientation)
      case (A4, Portrait) => 190.0 case (A4, Landscape) => 277.0 case (A3, Portrait) => 277.0 case (A3, Landscape) => 400.0
  {
  }

  lemma MinimumsAtLeast(widths: seq<real>, desired: seq<real>, available: real, level: real)
    requires if desired == [] then widths == [] else IsWaterFill(desired, available, widths, level)
    ensures |widths| == |desired| && forall i :: 0 <= i < |widths| ==> widths[i] >= MIN_COLUMN
    ensures Sum(widths) == if desired == [] then 0.0 else available
  {
    hide At;
  }

  lemma {:induction false} SumAtLeast(widths: seq<real>)
    requires forall i :: 0 <= i < |widths| ==> widths[i] >= MIN_COLUMN
    ensures Sum(widths) >= MIN_COLUMN * |widths| as real
  {
    if widths != [] {
      SumAtLeast(widths[..|widths| - 1]);
    }
  }

  /** Minimum widths that do not fit miss by at least a millimetre, so the tolerance does not matter. */
  lemma WholeMillimetres(p: Preferences, k: nat)
    ensures Available(p) in {190.0, 277.0, 400.0}
    ensures MIN_COLUMN * k as real > Available(p) ==> MIN_COLUMN * k as real >= Available(p) + 1.0
  {
    var mm: int := if Available(p) == 190.0 then 190 else if Available(p) == 277.0 then 277 else 400;
    assert Available(p) == mm as real && MIN_COLUMN * k as real == (8 * k) as real;
  }

  // ----- What a water fill is -----

  lemma {:induction false} SumsCompare(a: seq<real>, b: seq<real>)
    requires |a| == |b| && forall i :: 0 <= i < |a| ==> a[i] <= b[i]
    ensures Sum(a) <= Sum(b)
    ensures Sum(a) == Sum(b) ==> a == b
  {
    if a != [] {
      var n := |a| - 1;
      SumsCompare(a[..n], b[..n]);
      assert a == a[..n] + [a[n]] && b == b[..n] + [b[n]];
    }
  }

  /** Weights and available width determine the widths: there is one water fill. */
  lemma WaterFillIsUnique(desired: seq<real>, available: real, a: seq<real>, x: real, b: seq<real>, y: real)
    requires forall i :: 0 <= i < |desired| ==> desired[i] > 0.0
    requires IsWaterFill(desired, available, a, x) && IsWaterFill(desired, available, b, y)
    ensures a == b
  {
    if x <= y {
      HigherLevelIsWider(desired, available, a, x, b, y);
      SumsCompare(a, b);
    } else {
      HigherLevelIsWider(desired, available, b, y, a, x);
      SumsCompare(b, a);
    }
  }

  lemma HigherLevelIsWider(desired: seq<real>, available: real, a: seq<real>, x: real, b: seq<real>, y: real)
    requires forall i :: 0 <= i < |desired| ==> desired[i] > 0.0
    requires IsWaterFill(desired, available, a, x) && IsWaterFill(desired, available, b, y) && x <= y
    ensures forall i :: 0 <= i < |desired| ==> a[i] <= b[i]
  {
    forall i | 0 <= i < |desired| ensures a[i] <= b[i] {
      TimesNonNegative(x, y, desired[i]);
      assert At(x, desired[i]) <= At(y, desired[i]);
    }
  }

  /** Wider wishes get at least as much, and two columns above the minimum get widths in the ratio of their wishes. */
  lemma WaterFillKeepsOrder(desired: seq<real>, available: real, widths: seq<real>, level: real, i: nat, j: nat)
    requires forall k :: 0 <= k < |desired| ==> desired[k] > 0.0
    requires IsWaterFill(desired, available, widths, level) && i < |desired| && j < |desired|
    ensures desired[i] <= desired[j] ==> widths[i] <= widths[j]
    ensures widths[i] > MIN_COLUMN && widths[j] > MIN_COLUMN ==> widths[i] * desired[j] == widths[j] * desired[i]
  {
    if level >= 0.0 {
      if desired[i] <= desired[j] {
        TimesNonNegative(desired[i], desired[j], level);
      }
    } else {
      TimesNonNegative(level, 0.0, desired[i]);
      TimesNonNegative(level, 0.0, desired[j]);
    }
  }

  // ----- Header groups -----

  datatype Group = Group(name: string, columns: seq<Key>)

  function LabelOf(groups: seq<Group>, key: Key): string {
    if groups == [] then "" else if key in groups[0].columns then groups[0].name else LabelOf(groups[1..], key)
  }

  /** A column has the label of the first group that lists it. */
  lemma {:induction false} LabelIsFirst(groups: seq<Group>, key: Key, i: nat)
    requires i < |groups| && key in groups[i].columns && forall j :: 0 <= j < i ==> key !in groups[j].columns
    ensures LabelOf(groups, key) == groups[i].name
    decreases i
  {
    if i > 0 {
      assert groups[1..][i - 1] == groups[i];
      LabelIsFirst(groups[1..], key, i - 1);
    }
  }

  /** And no label if none does. */
  lemma {:induction false} UnlistedHasNoLabel(groups: seq<Group>, key: Key)
    requires forall g <- groups :: key !in g.columns
    ensures LabelOf(groups, key) == ""
  {
    if groups != [] {
      assert groups[0] in groups && forall g <- groups[1..] :: g in groups;
      UnlistedHasNoLabel(groups[1..], key);
    }
  }

  function Columns(runs: seq<Group>): seq<Key> {
    if runs == [] then [] else Columns(runs[..|runs| - 1]) + runs[|runs| - 1].columns
  }

  /** Runs: in column order, none empty, neighbours of different names, every column in a run of its own label. */
  ghost predicate AreRuns(runs: seq<Group>, keys: seq<Key>, groups: seq<Group>) {
    && Columns(runs) == keys
    && (forall i :: 0 <= i < |runs| ==> runs[i].columns != [] && forall k <- runs[i].columns :: LabelOf(groups, k) == runs[i].name)
    && forall i :: 0 < i < |runs| ==> runs[i].name != runs[i - 1].name
  }

  /** orderedPrintHeaderGroups: nothing without groups; otherwise the runs of the chosen columns. */
  method OrderedPrintHeaderGroups(keys: seq<Key>, groups: seq<Group>) returns (runs: seq<Group>)
    ensures if groups == [] then runs == [] else AreRuns(runs, keys, groups)
  {
    hide LabelOf;
    runs := [];
    if groups == [] {
      return;
    }
    for i := 0 to |keys|
      invariant AreRuns(runs, keys[..i], groups)
    {
      var key := keys[i];
      var name := LabelOf(groups, key);
      assert keys[..i + 1] == keys[..i] + [key];
      if runs != [] && runs[|runs| - 1].name == name {
        var last := runs[|runs| - 1];
        ghost var before := runs;
        runs := runs[..|runs| - 1] + [last.(columns := last.columns + [key])];
        assert runs[..|runs| - 1] == before[..|before| - 1];
        assert Columns(runs) == Columns(before) + [key];
      } else {
        assert (runs + [Group(name, [key])])[..|runs|] == runs;
        runs := runs + [Group(name, [key])];
      }
    }
    assert keys[..|keys|] == keys;
  }

  lemma {:induction false} ColumnsNonEmpty(runs: seq<Group>)
    requires forall i :: 0 <= i < |runs| ==> runs[i].columns != []
    ensures Columns(runs) == [] <==> runs == []
  {
  }

  /** Columns and labels determine the runs. */
  lemma {:induction false} RunsAreUnique(a: seq<Group>, b: seq<Group>, keys: seq<Key>, groups: seq<Group>)
    requires AreRuns(a, keys, groups) && AreRuns(b, keys, groups)
    ensures a == b
    decreases |keys|
  {
    ColumnsNonEmpty(a);
    ColumnsNonEmpty(b);
    if a != [] {
      var x, y := Shorter(a), Shorter(b);
      ShorterRuns(a, keys, groups);
      ShorterRuns(b, keys, groups);
      RunsAreUnique(x, y, keys[..|keys| - 1], groups);
      LastRunGrows(a, keys, groups);
      LastRunGrows(b, keys, groups);
    }
  }

  /** The runs without the last column. */
  function Shorter(runs: seq<Group>): seq<Group>
    requires runs != [] && runs[|runs| - 1].columns != []
  {
    var n := |runs| - 1;
    var last := runs[n];
    if |last.columns| == 1 then runs[..n] else runs[..n] + [last.(columns := last.columns[..|last.columns| - 1])]
  }

  lemma ShorterRuns(runs: seq<Group>, keys: seq<Key>, groups: seq<Group>)
    requires AreRuns(runs, keys, groups) && runs != []
    ensures keys != [] && AreRuns(Shorter(runs), keys[..|keys| - 1], groups)
  {
    var n := |runs| - 1;
    var last := runs[n];
    assert keys == Columns(runs[..n]) + last.columns;
    if |last.columns| > 1 {
      assert Shorter(runs)[..n] == runs[..n];
      assert keys[..|keys| - 1] == Columns(runs[..n]) + last.columns[..|last.columns| - 1];
    } else {
      assert keys[..|keys| - 1] == Columns(runs[..n]);
    }
  }

  /** How the last column came in: into the last run if the label is the same, as a new run otherwise. */
  lemma LastRunGrows(runs: seq<Group>, keys: seq<Key>, groups: seq<Group>)
    requires AreRuns(runs, keys, groups) && runs != [] && keys != []
    ensures var x, key := Shorter(runs), keys[|keys| - 1];
      runs == if x != [] && x[|x| - 1].name == LabelOf(groups, key)
              then x[..|x| - 1] + [x[|x| - 1].(columns := x[|x| - 1].columns + [key])]
              else x + [Group(LabelOf(groups, key), [key])]
  {
    var n := |runs| - 1;
    var last := runs[n];
    assert keys == Columns(runs[..n]) + last.columns;
    var key := last.columns[|last.columns| - 1];
    assert keys[|keys| - 1] == key && key in last.columns;
    assert runs == runs[..n] + [last];
    if |last.columns| > 1 {
      assert last.columns == last.columns[..|last.columns| - 1] + [key];
      assert Shorter(runs)[..n] == runs[..n];
    } else {
      assert last.columns == [key];
    }
  }
}
