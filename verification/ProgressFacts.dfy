/** Source facts of the R&D progress report: rows as they are loaded, and the order-free facts in them. */
module ProgressFacts {
  import opened Wrappers

  /** A uniqueidentifier, by its rank in the order the server gives these values. */
  datatype Id = Guid(rank: int)

  type Time = int

  // ----- Rows -----

  datatype BomDetail = BomDetail(id: Id, approve: Option<string>, effective: Option<Time>, expiry: Option<Time>,
                                 created: Option<Time>, modified: Option<Time>)

  datatype BomHead = BomHead(item: Id, org: Option<Id>, version: Option<string>, eCode: Option<string>,
                             approve: Option<string>, created: Option<Time>, modified: Option<Time>)

  datatype RoutingDetail = RoutingDetail(id: Id, approve: Option<string>, operation: Option<Id>, operationExists: bool,
                                         created: Option<Time>, modified: Option<Time>)

  datatype RoutingHead = RoutingHead(item: Id, org: Option<Id>, feature: Option<Id>, code: Option<string>,
                                     approve: Option<string>, created: Option<Time>, modified: Option<Time>)

  datatype Plant = Plant(id: Id, item: Id, org: Option<Id>, property: Option<string>, control: Option<string>,
                         standard: Option<Id>)

  /** A joined order line; `info` stands for the columns that are only passed through. */
  datatype Line = Line(id: Id, order: Id, item: Option<Id>, feature: Option<Id>, itemCode: Option<string>,
                       customerCode: Option<string>, info: seq<string>)

  /** BomCandidate and RoutingCandidate: a head row with the list of its detail rows. */
  datatype Candidate<H, D> = Candidate(id: Id, head: H, details: seq<D>)

  /** The same without the order in which the detail rows arrived. */
  datatype Facts<H, D> = Facts(id: Id, head: H, details: set<D>)

  type BomCandidate = Candidate<BomHead, BomDetail>
  type RoutingCandidate = Candidate<RoutingHead, RoutingDetail>
  type Bom = Facts<BomHead, BomDetail>
  type Routing = Facts<RoutingHead, RoutingDetail>

  const YES: Option<string> := Some("Y")

  ghost function SetOf<T>(s: seq<T>): set<T> {
    set x <- s
  }

  ghost function ToFacts<H, D>(c: Candidate<H, D>): Facts<H, D> {
    Facts(c.id, c.head, set d <- c.details)
  }

  ghost function AllFacts<H, D>(s: seq<Candidate<H, D>>): set<Facts<H, D>> {
    set c <- s :: ToFacts(c)
  }

  // ----- List comprehensions -----

  /** [x for x in s if p(x)] */
  function Filter<T>(s: seq<T>, p: T -> bool): seq<T> {
    if s == [] then []
    else Filter(s[..|s| - 1], p) + (if p(s[|s| - 1]) then [s[|s| - 1]] else [])
  }

  ghost predicate NoDuplicates<T>(s: seq<T>) {
    forall i, j :: 0 <= i < j < |s| ==> s[i] != s[j]
  }

  /** Primary keys: no two candidates share an id, no detail row is listed twice. */
  ghost predicate Keyed<H, D>(s: seq<Candidate<H, D>>) {
    && (forall i, j :: 0 <= i < j < |s| ==> s[i].id != s[j].id)
    && (forall c <- s :: NoDuplicates(c.details))
  }

  lemma {:induction false} FilterMember<T>(s: seq<T>, p: T -> bool, x: T)
    ensures x in Filter(s, p) <==> x in s && p(x)
  {
    if s != [] {
      var init := s[..|s| - 1];
      assert s == init + [s[|s| - 1]];
      FilterMember(init, p, x);
    }
  }

  /** {x for x in s if p(x)} */
  ghost function Kept<T>(s: seq<T>, p: T -> bool): set<T> {
    set x <- s | p(x)
  }

  /** Counting a filtered list of distinct elements counts a set. */
  lemma {:induction false} FilterCount<T>(s: seq<T>, p: T -> bool)
    requires NoDuplicates(s)
    ensures |Filter(s, p)| == |Kept(s, p)|
  {
    if s != [] {
      var init, last := s[..|s| - 1], s[|s| - 1];
      assert s == init + [last];
      FilterCount(init, p);
      assert last !in Kept(init, p);
      assert Kept(s, p) == if p(last) then Kept(init, p) + {last} else Kept(init, p);
    }
  }

  lemma {:induction false} FilterKeyed<H, D>(s: seq<Candidate<H, D>>, p: Candidate<H, D> -> bool)
    requires Keyed(s)
    ensures Keyed(Filter(s, p))
  {
    if s != [] {
      var init, last := s[..|s| - 1], s[|s| - 1];
      assert s == init + [last];
      FilterKeyed(init, p);
      assert forall c <- init :: c.id != last.id;
      forall c | c in Filter(init, p) ensures NoDuplicates(c.details) && c.id != last.id {
        FilterMember(init, p, c);
      }
      assert forall i :: 0 <= i < |Filter(init, p)| ==> Filter(init, p)[i] in Filter(init, p);
    }
  }

  /** Candidates with distinct ids are as many as their facts. */
  lemma {:induction false} FactsCount<H, D>(s: seq<Candidate<H, D>>)
    requires Keyed(s)
    ensures |AllFacts(s)| == |s|
  {
    if s != [] {
      var init, last := s[..|s| - 1], s[|s| - 1];
      assert s == init + [last];
      FactsCount(init);
      assert ToFacts(last) !in AllFacts(init);
      assert AllFacts(s) == AllFacts(init) + {ToFacts(last)};
    }
  }

  /** Filtering candidates by a property of their facts filters the facts. */
  lemma FactsOfFilter<H, D>(s: seq<Candidate<H, D>>, p: Candidate<H, D> -> bool, q: Facts<H, D> -> bool)
    requires forall c <- s :: p(c) == q(ToFacts(c))
    ensures AllFacts(Filter(s, p)) == set f <- AllFacts(s) | q(f)
  {
    var kept := AllFacts(Filter(s, p));
    var wanted := set f <- AllFacts(s) | q(f);
    forall f | f in kept ensures f in wanted {
      var c :| c in Filter(s, p) && ToFacts(c) == f;
      FilterMember(s, p, c);
    }
    forall f | f in wanted ensures f in kept {
      var c :| c in s && ToFacts(c) == f;
      FilterMember(s, p, c);
    }
    assert kept == wanted;
  }

  lemma SingletonIs<T>(s: set<T>, x: T)
    requires |s| == 1 && x in s
    ensures s == {x}
  {
    var rest := s - {x};
    assert |rest| == 0;
    assert s == rest + {x};
  }

  /** The one element of a singleton. */
  ghost function Only<T>(s: set<T>): T
    requires |s| == 1
  {
    var x :| x in s; x
  }

  lemma OnlyIs<T>(s: set<T>, x: T)
    requires |s| == 1 && x in s
    ensures Only(s) == x
  {
    SingletonIs(s, x);
  }

  // ----- Latest timestamp -----

  lemma Member<T>(s: set<T>) returns (x: T)
    requires s != {}
    ensures x in s
  {
    x :| x in s;
  }

  /** max over a set of times, None when there is none (max_datetime). */
  ghost predicate IsLatest(times: set<Time>, r: Option<Time>) {
    match r
    case None => times == {}
    case Some(m) => m in times && forall t <- times :: t <= m
  }

  function Stamped(t: Option<Time>): set<Time> {
    match t case None => {} case Some(x) => {x}
  }

  lemma {:induction false} LatestExists(times: set<Time>)
    requires times != {}
    ensures exists m :: IsLatest(times, Some(m))
    decreases |times|
  {
    var x := Member(times);
    var rest := times - {x};
    if rest == {} {
      assert times == {x};
      assert IsLatest(times, Some(x));
    } else {
      LatestExists(rest);
      var m :| IsLatest(rest, Some(m));
      assert forall t <- times :: t == x || t in rest;
      assert IsLatest(times, Some(if m < x then x else m));
    }
  }

  ghost function Latest(times: set<Time>): (r: Option<Time>)
    ensures IsLatest(times, r)
  {
    if times == {} then None
    else
      LatestExists(times);
      var m :| IsLatest(times, Some(m));
      Some(m)
  }
}
