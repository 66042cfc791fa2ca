/**
 Keyset paging over a source that keeps changing.

 The source is its whole history: a finite set of row versions.  A version is stamped when it is
 written and becomes visible when its transaction commits, at most OVERLAP later.  A query at time t
 reads the version of each row that is current at t, because every statement runs READ COMMITTED.
 */
module Keyset {
  /** Ticks of 100 ns, the resolution of datetime2(7). */
  type Time = int

  /** Ticks in one microsecond, the resolution of datetime2(6) and of Python's datetime. */
  const MICROSECOND: int := 10
  /** Two minutes. */
  const OVERLAP: int := 1_200_000_000
  /** Every primary key is above this one (the zero UUID, or -2147483648). */
  const MIN_PK: int := -2147483648
  /** Rows in a page. */
  const LIMIT: nat := 1000

  /** The first days of 1900 and of 2026, counted from 1900-01-01. */
  const MIN_BUSINESS_DATE: Time := 0
  const START: Time := 46021 * 864_000_000_000

  /** One committed state of a source row.  `number` is the commit order of the row's versions. */
  datatype Version = Version(id: int, number: nat, raw: Time, visibleAt: Time,
                             business: Time, open: bool, content: int)

  /** CAST(x AS datetime2(6)): round to the nearest microsecond. */
  function Quantise(raw: Time): Time {
    (raw + MICROSECOND / 2) / MICROSECOND * MICROSECOND
  }

  /** What pytds keeps of a datetime2(7). */
  function Truncate(raw: Time): Time {
    raw / MICROSECOND * MICROSECOND
  }

  /** Rounding takes the nearest microsecond and the later of two; truncation the last one not after it. */
  lemma QuantiseIsNearest(raw: Time)
    ensures OnGrid(Quantise(raw)) && -MICROSECOND <= 2 * (raw - Quantise(raw)) < MICROSECOND
    ensures OnGrid(Truncate(raw)) && Truncate(raw) <= raw < Truncate(raw) + MICROSECOND
  {
  }

  function Stamp(v: Version): Time {
    Quantise(v.raw)
  }

  predicate OnGrid(t: Time) {
    t % MICROSECOND == 0
  }

  /** Versions below a grid point lie a whole microsecond below it; versions written by it stay by it. */
  lemma QuantiseAgainstGrid(raw: Time, t: Time)
    requires OnGrid(t)
    ensures OnGrid(Quantise(raw))
    ensures Quantise(raw) < t ==> raw <= t
    ensures raw <= t ==> Quantise(raw) <= t
  {
  }

  lemma QuantiseMonotone(a: Time, b: Time)
    requires a <= b
    ensures Quantise(a) <= Quantise(b)
  {
  }

  // ----- Histories -----

  /** What the program relies on: bounded commit delay, usable keys, stamps that follow commits. */
  ghost predicate WellFormed(h: set<Version>) {
    && (forall v <- h :: v.raw <= v.visibleAt <= v.raw + OVERLAP && MIN_PK < v.id)
    && (forall v <- h, w <- h :: v.id == w.id && v.number == w.number ==> v == w)
    && (forall v <- h, w <- h :: v.id == w.id && v.number < w.number ==> v.visibleAt <= w.visibleAt && v.raw <= w.raw)
  }

  /** Version v is what a statement at time t reads for its row. */
  predicate Current(h: set<Version>, v: Version, t: Time) {
    && v in h
    && v.visibleAt <= t
    && forall w <- h :: w.id == v.id && w.visibleAt <= t ==> w.number <= v.number
  }

  lemma CurrentIsUnique(h: set<Version>, v: Version, w: Version, t: Time)
    requires WellFormed(h) && Current(h, v, t) && Current(h, w, t) && v.id == w.id
    ensures v == w
  {
  }

  lemma DistinctRowsHaveDistinctIds(h: set<Version>, v: Version, w: Version, t: Time)
    requires WellFormed(h) && Current(h, v, t) && Current(h, w, t) && v != w
    ensures v.id != w.id
  {
  }

  // ----- Keys and pages -----

  /** The (time, primary key) pair a page is resumed after. */
  datatype Key = Key(time: Time, pk: int)

  predicate Before(a: Key, b: Key) {
    a.time < b.time || (a.time == b.time && a.pk < b.pk)
  }

  /** What a query orders by: modification stamp (quantised or raw), business date, or primary key alone. */
  datatype Order = ByStamp | ByRawStamp | ByBusinessDate | ByPrimaryKey

  function KeyOf(o: Order, v: Version): Key {
    match o
    case ByStamp => Key(Stamp(v), v.id)
    case ByRawStamp => Key(v.raw, v.id)
    case ByBusinessDate => Key(v.business, v.id)
    case ByPrimaryKey => Key(MIN_BUSINESS_DATE, v.id)
  }

  ghost predicate Ordered(o: Order, rows: seq<Version>) {
    forall i, j :: 0 <= i < j < |rows| ==> Before(KeyOf(o, rows[i]), KeyOf(o, rows[j]))
  }

  /** `rows` answers SELECT TOP (limit) ... ORDER BY over the matching rows `window`. */
  ghost predicate IsPage(o: Order, window: set<Version>, rows: seq<Version>, limit: nat) {
    && |rows| <= limit
    && (forall r <- rows :: r in window)
    && Ordered(o, rows)
    && (forall v <- window :: v in rows || (|rows| == limit && forall r <- rows :: Before(KeyOf(o, r), KeyOf(o, v))))
  }

  /** Where two answers agree on k rows, the next row of one does not come after that of the other. */
  lemma NextRowNotAfter(o: Order, window: set<Version>, a: seq<Version>, b: seq<Version>, limit: nat, k: nat)
    requires IsPage(o, window, a, limit) && IsPage(o, window, b, limit)
    requires k < |a| && k <= |b|
    requires forall i :: 0 <= i < k ==> a[i] == b[i]
    ensures k < |b| && (b[k] == a[k] || Before(KeyOf(o, b[k]), KeyOf(o, a[k])))
  {
    var v := a[k];
    assert v in window;
    assert forall j :: 0 <= j < k ==> b[j] != v by {
      forall j | 0 <= j < k ensures b[j] != v {
        assert Before(KeyOf(o, a[j]), KeyOf(o, a[k]));
      }
    }
    if v in b {
      var j :| 0 <= j < |b| && b[j] == v;
      assert k <= j;
    } else {
      assert |b| == limit;
      assert b[k] in b;
    }
  }

  /** The answer is determined: TOP with a total order leaves the server no choice. */
  lemma {:induction false} PageIsUnique(o: Order, window: set<Version>, a: seq<Version>, b: seq<Version>, limit: nat)
    requires IsPage(o, window, a, limit) && IsPage(o, window, b, limit)
    ensures a == b
  {
    var k := 0;
    while k < |a|
      invariant k <= |a| && k <= |b|
      invariant forall i :: 0 <= i < k ==> a[i] == b[i]
    {
      NextRowNotAfter(o, window, a, b, limit, k);
      NextRowNotAfter(o, window, b, a, limit, k);
      k := k + 1;
    }
    if |a| < |b| {
      NextRowNotAfter(o, window, b, a, limit, k);
    }
  }

  // ----- Answering a query -----

  /** The first of the rows by key. */
  method First(o: Order, candidates: set<Version>) returns (first: Version)
    requires candidates != {}
    requires forall v <- candidates, w <- candidates :: v.id == w.id ==> v == w
    ensures first in candidates
    ensures forall v <- candidates :: v == first || Before(KeyOf(o, first), KeyOf(o, v))
  {
    first :| first in candidates;
    var rest := candidates - {first};
    while rest != {}
      invariant rest <= candidates && first in candidates
      invariant forall v <- candidates - rest :: v == first || Before(KeyOf(o, first), KeyOf(o, v))
      decreases |rest|
    {
      var v :| v in rest;
      rest := rest - {v};
      if Before(KeyOf(o, v), KeyOf(o, first)) {
        first := v;
      }
    }
  }

  /** The matching rows in key order, up to the limit: an answer always exists. */
  method TopRows(o: Order, window: set<Version>, limit: nat) returns (page: seq<Version>)
    requires forall v <- window, w <- window :: v.id == w.id ==> v == w
    ensures IsPage(o, window, page, limit)
  {
    var rest := window;
    page := [];
    while rest != {} && |page| < limit
      invariant |page| <= limit && rest <= window
      invariant forall r <- page :: r in window
      invariant forall v <- window :: v in page || v in rest
      invariant Ordered(o, page)
      invariant forall r <- page, v <- rest :: Before(KeyOf(o, r), KeyOf(o, v))
      decreases |rest|
    {
      var first := First(o, rest);
      page := page + [first];
      rest := rest - {first};
    }
  }
}
