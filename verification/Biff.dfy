/** The scan for a FilePass record in a legacy workbook stream (section 2.4.117 of [MS-XLS]). */
module Biff {
  type Byte = b: int | 0 <= b < 256

  const FILE_PASS := 0x2F

  /** A little-endian 16-bit number. */
  function UInt16(s: seq<Byte>, at: nat): (r: nat)
    requires at + 2 <= |s|
    ensures r < 0x1_0000
  {
    s[at] as nat + 256 * s[at + 1] as nat
  }

  /** A whole record starts here: its header and its payload lie within the stream. */
  predicate Fits(s: seq<Byte>, at: nat) {
    at + 4 <= |s| && at + 4 + UInt16(s, at + 2) <= |s|
  }

  function Next(s: seq<Byte>, at: nat): (r: nat)
    requires Fits(s, at)
    ensures at < r <= |s|
  {
    at + 4 + UInt16(s, at + 2)
  }

  /** n whole records, one after the other from the start, end here. */
  ghost predicate Boundary(s: seq<Byte>, at: nat, n: nat)
    decreases n
  {
    if n == 0 then at == 0 else exists p: nat :: Boundary(s, p, n - 1) && Fits(s, p) && Next(s, p) == at
  }

  /** A FilePass record fits at an offset reached by whole records. */
  ghost predicate HasFilePass(s: seq<Byte>) {
    exists at: nat, n: nat :: Boundary(s, at, n) && Fits(s, at) && UInt16(s, at) == FILE_PASS
  }

  /** There is one n-th boundary at most. */
  lemma {:induction false} BoundaryIsUnique(s: seq<Byte>, a: nat, b: nat, n: nat)
    requires Boundary(s, a, n) && Boundary(s, b, n)
    ensures a == b
  {
    if n > 0 {
      var p: nat :| Boundary(s, p, n - 1) && Fits(s, p) && Next(s, p) == a;
      var q: nat :| Boundary(s, q, n - 1) && Fits(s, q) && Next(s, q) == b;
      BoundaryIsUnique(s, p, q, n - 1);
    }
  }

  /** A boundary lies beyond all the boundaries before it, each with a record that fits. */
  lemma {:induction false} EarlierBoundary(s: seq<Byte>, at: nat, n: nat, k: nat) returns (p: nat)
    requires Boundary(s, at, n) && k < n
    ensures Boundary(s, p, k) && Fits(s, p)
  {
    p :| Boundary(s, p, n - 1) && Fits(s, p) && Next(s, p) == at;
    if k < n - 1 {
      p := EarlierBoundary(s, p, n - 1, k);
    }
  }

  /** The loop: in bounds on every stream, ended on every stream, and exact. */
  method IsEncryptedWorkbook(content: seq<Byte>) returns (r: bool)
    ensures r <==> HasFilePass(content)
  {
    var offset: nat := 0;
    ghost var n: nat := 0;
    while offset + 4 <= |content|
      invariant Boundary(content, offset, n)
      invariant forall k: nat, p: nat :: k < n && Boundary(content, p, k) && Fits(content, p) ==> UInt16(content, p) != FILE_PASS
      decreases |content| - offset
    {
      var kind, length := UInt16(content, offset), UInt16(content, offset + 2);
      if offset + 4 + length > |content| {
        break;
      }
      if kind == FILE_PASS {
        return true;
      }
      forall p: nat | Boundary(content, p, n) ensures p == offset {
        BoundaryIsUnique(content, p, offset, n);
      }
      assert Fits(content, offset) && Next(content, offset) == offset + 4 + length;
      offset, n := offset + 4 + length, n + 1;
    }
    assert !Fits(content, offset);
    NoneBeyond(content, offset, n);
    r := false;
  }

  /** Where no record fits the records end. */
  lemma NoneBeyond(s: seq<Byte>, at: nat, n: nat)
    requires Boundary(s, at, n) && !Fits(s, at)
    ensures forall p: nat, k: nat :: Boundary(s, p, k) && Fits(s, p) ==> k < n
  {
    forall p: nat, k: nat | Boundary(s, p, k) && Fits(s, p) ensures k < n {
      if k == n {
        BoundaryIsUnique(s, p, at, n);
      } else if k > n {
        var q := EarlierBoundary(s, p, k, n);
        BoundaryIsUnique(s, q, at, n);
      }
    }
  }

  // ----- Record lists -----

  datatype Record = Record(kind: nat, payload: seq<Byte>)

  predicate Storable(r: Record) {
    r.kind < 0x1_0000 && |r.payload| < 0x1_0000
  }

  function TwoBytes(n: nat): seq<Byte>
    requires n < 0x1_0000
  {
    [n % 256, n / 256]
  }

  function Serialized(r: Record): seq<Byte>
    requires Storable(r)
  {
    TwoBytes(r.kind) + TwoBytes(|r.payload|) + r.payload
  }

  function Stream(records: seq<Record>): seq<Byte>
    requires forall r <- records :: Storable(r)
  {
    if records == [] then []
    else
      assert forall r <- records[..|records| - 1] :: r in records;
      Stream(records[..|records| - 1]) + Serialized(records[|records| - 1])
  }

  /** The record written last starts where the others end. */
  lemma LastRecord(records: seq<Record>, tail: seq<Byte>)
    requires records != [] && forall r <- records :: Storable(r)
    ensures forall r <- records[..|records| - 1] :: Storable(r)
    ensures var last := records[|records| - 1];
      var s, at := Stream(records) + tail, |Stream(records[..|records| - 1])|;
      Fits(s, at) && UInt16(s, at) == last.kind && Next(s, at) == |Stream(records)|
  {
    assert forall r <- records[..|records| - 1] :: r in records;
    var last := records[|records| - 1];
    var before := Stream(records[..|records| - 1]);
    var s, at := Stream(records) + tail, |before|;
    assert s == before + Serialized(last) + tail;
    assert s[at] == last.kind % 256 && s[at + 1] == last.kind / 256;
    assert s[at + 2] == |last.payload| % 256 && s[at + 3] == |last.payload| / 256;
  }

  /** What follows does not move the boundaries of the records written. */
  lemma {:induction false} WrittenBoundary(records: seq<Record>, tail: seq<Byte>)
    requires forall r <- records :: Storable(r)
    ensures Boundary(Stream(records) + tail, |Stream(records)|, |records|)
  {
    if records != [] {
      var init, last := records[..|records| - 1], records[|records| - 1];
      LastRecord(records, tail);
      WrittenBoundary(init, Serialized(last) + tail);
      assert Stream(init) + (Serialized(last) + tail) == Stream(records) + tail;
    }
  }

  /** On written records, whatever unfinished bytes follow, the scan finds exactly a FilePass record in the list:
      payload bytes never count. */
  lemma ScanDecidesMembership(records: seq<Record>, tail: seq<Byte>)
    requires (forall r <- records :: Storable(r)) && !Fits(tail, 0)
    ensures HasFilePass(Stream(records) + tail) <==> exists r <- records :: r.kind == FILE_PASS
  {
    var s := Stream(records) + tail;
    WrittenBoundary(records, tail);
    NothingInTail(s, |Stream(records)|, tail);
    NoneBeyond(s, |Stream(records)|, |records|);
    forall i | 0 <= i < |records| ensures WrittenAt(records, tail, i) {
      RecordIsWritten(records, tail, i);
    }
    if HasFilePass(s) {
      var at: nat, n: nat :| Boundary(s, at, n) && Fits(s, at) && UInt16(s, at) == FILE_PASS;
      assert n < |records| && WrittenAt(records, tail, n);
      var p: nat :| Boundary(s, p, n) && Fits(s, p) && UInt16(s, p) == records[n].kind;
      BoundaryIsUnique(s, p, at, n);
      assert records[n] in records;
    }
    if r :| r in records && r.kind == FILE_PASS {
      var i :| 0 <= i < |records| && records[i] == r;
      assert WrittenAt(records, tail, i);
    }
  }

  lemma NothingInTail(s: seq<Byte>, at: nat, tail: seq<Byte>)
    requires at <= |s| && s[at..] == tail && !Fits(tail, 0)
    ensures !Fits(s, at)
  {
    if at + 4 <= |s| {
      assert s[at + 2] == tail[2] && s[at + 3] == tail[3];
    }
  }

  /** The i-th record is found at the i-th boundary. */
  ghost predicate WrittenAt(records: seq<Record>, tail: seq<Byte>, i: nat)
    requires i < |records| && forall r <- records :: Storable(r)
  {
    var s := Stream(records) + tail;
    exists p: nat :: Boundary(s, p, i) && Fits(s, p) && UInt16(s, p) == records[i].kind
  }

  lemma {:induction false} RecordIsWritten(records: seq<Record>, tail: seq<Byte>, i: nat)
    requires i < |records| && forall r <- records :: Storable(r)
    ensures WrittenAt(records, tail, i)
    decreases |records|
  {
    var n := |records| - 1;
    var init, last := records[..n], records[n];
    LastRecord(records, tail);
    assert Stream(init) + (Serialized(last) + tail) == Stream(records) + tail;
    if i < n {
      RecordIsWritten(init, Serialized(last) + tail, i);
    } else {
      WrittenBoundary(init, Serialized(last) + tail);
    }
  }

  /** Every stream is a list of records followed by bytes in which no record fits. */
  lemma EveryStreamIsRecords(s: seq<Byte>) returns (records: seq<Record>, tail: seq<Byte>)
    ensures forall r <- records :: Storable(r)
    ensures !Fits(tail, 0) && s == Stream(records) + tail
  {
    records, tail := [], s;
    while Fits(tail, 0)
      invariant forall r <- records :: Storable(r)
      invariant s == Stream(records) + tail
      decreases |tail|
    {
      var end := Next(tail, 0);
      var r := Record(UInt16(tail, 0), tail[4..end]);
      assert tail == Serialized(r) + tail[end..];
      assert (records + [r])[..|records|] == records;
      assert Stream(records) + (Serialized(r) + tail[end..]) == Stream(records) + Serialized(r) + tail[end..];
      records, tail := records + [r], tail[end..];
    }
  }
}
