/** Transaction histories, the log records that carry them, and the numbered
    operations a handle keeps in memory. Sequence numbers are contiguous: operation
    `i` of the history (from 0) has sequence number `i + 1`. */
module History {
  import opened Ops

  type Txn = seq<Op>

  /** A log record: one transaction, whole, with the sequence number of its first op. */
  datatype Record = Record(first: nat, ops: Txn)

  /** A published op: what the overlay arena keeps. */
  datatype Entry = Entry(seqNo: nat, op: Op)

  function LastOf(r: Record): int { r.first + |r.ops| - 1 }

  function SizeOf(r: Record): nat { RECORD_HEADER_LEN + OpsSize(r.ops) }

  function AllOps(h: seq<Txn>): (ops: seq<Op>) {
    if h == [] then [] else AllOps(h[..|h| - 1]) + h[|h| - 1]
  }

  /** How many ops the first transactions of a history hold. */
  function Count(h: seq<Txn>): nat { |AllOps(h)| }

  ghost predicate NoEmpty(h: seq<Txn>) { forall i :: 0 <= i < |h| ==> h[i] != [] }

  /** `n` ops end on a transaction boundary of `h`. */
  ghost predicate Boundary(h: seq<Txn>, n: nat) {
    exists j :: 0 <= j <= |h| && Count(h[..j]) == n
  }

  /** The records of transactions `lo..` of `h`, numbered by their place in it. */
  function Recs(h: seq<Txn>, lo: nat): (rs: seq<Record>)
    requires lo <= |h|
    ensures |rs| == |h| - lo
  {
    seq(|h| - lo, i requires 0 <= i < |h| - lo => Record(Count(h[..lo + i]) + 1, h[lo + i]))
  }

  /** Ops `from..upto` of `ops`, numbered. */
  function Range(ops: seq<Op>, from: nat, upto: nat): (es: seq<Entry>)
    requires from <= upto <= |ops|
    ensures |es| == upto - from
  {
    seq(upto - from, i requires 0 <= i < upto - from => Entry(from + i + 1, ops[from + i]))
  }

  /** Every op of a run of records with its sequence number. */
  function Entries(rs: seq<Record>): seq<Entry> {
    if rs == [] then []
    else Entries(rs[..|rs| - 1]) + RecordEntries(rs[|rs| - 1])
  }

  function RecordEntries(r: Record): seq<Entry> {
    seq(|r.ops|, i requires 0 <= i < |r.ops| => Entry(r.first + i, r.ops[i]))
  }

  /** The entries with a sequence number above `served`. */
  function Above(es: seq<Entry>, served: nat): seq<Entry> {
    if es == [] then []
    else
      var rest := Above(es[..|es| - 1], served);
      if es[|es| - 1].seqNo > served then rest + [es[|es| - 1]] else rest
  }

  function OpsOf(es: seq<Entry>): seq<Op> { seq(|es|, i requires 0 <= i < |es| => es[i].op) }

  /** Bytes a run of records takes in the log. */
  function Bytes(rs: seq<Record>): nat {
    if rs == [] then 0 else SizeOf(rs[0]) + Bytes(rs[1..])
  }

  /** The whole records a scan finds from byte `off` of a run of records: those
      after the record boundary at `off`. */
  function RecordsFrom(rs: seq<Record>, off: nat): (t: seq<Record>)
    ensures |t| <= |rs|
  {
    if off == 0 then rs
    else if rs == [] || off < SizeOf(rs[0]) then []
    else RecordsFrom(rs[1..], off - SizeOf(rs[0]))
  }

  /** The whole records left when a run of records is cut at byte `len`. */
  function CutAt(rs: seq<Record>, len: nat): (t: seq<Record>)
    ensures t <= rs
    ensures Bytes(t) <= len
  {
    if rs == [] || len < SizeOf(rs[0]) then []
    else
      var rest := CutAt(rs[1..], len - SizeOf(rs[0]));
      assert ([rs[0]] + rest)[1..] == rest;
      [rs[0]] + rest
  }

  /** Sequence numbers rise across records. */
  predicate Rising(rs: seq<Record>) {
    forall i :: 0 < i < |rs| ==> rs[i].first > LastOf(rs[i - 1])
  }

  // ---- counting -----------------------------------------------------------------

  lemma AllOpsSplit(a: seq<Txn>, b: seq<Txn>)
    ensures AllOps(a + b) == AllOps(a) + AllOps(b)
  {
    if b == [] {
      assert a + b == a;
    } else {
      AllOpsSplit(a, b[..|b| - 1]);
      assert (a + b)[..|a + b| - 1] == a + b[..|b| - 1];
    }
  }

  lemma AllOpsOne(t: Txn)
    ensures AllOps([t]) == t
  {
    assert [t][..0] == [];
    assert AllOps([t]) == AllOps([]) + t;
  }

  lemma AllOpsSnoc(h: seq<Txn>, t: Txn)
    ensures AllOps(h + [t]) == AllOps(h) + t
    ensures Count(h + [t]) == Count(h) + |t|
  {
    AllOpsSplit(h, [t]);
    AllOpsOne(t);
  }

  lemma AllOpsPrefix(h: seq<Txn>, j: nat)
    requires j <= |h|
    ensures Count(h[..j]) <= Count(h)
    ensures AllOps(h)[..Count(h[..j])] == AllOps(h[..j])
  {
    AllOpsSplit(h[..j], h[j..]);
    assert h[..j] + h[j..] == h;
  }

  /** More transactions hold at least as many ops, and strictly more when none is empty. */
  lemma CountMonotone(h: seq<Txn>, i: nat, j: nat)
    requires i <= j <= |h|
    ensures Count(h[..i]) <= Count(h[..j]) <= Count(h)
    ensures NoEmpty(h) && i < j ==> Count(h[..i]) < Count(h[..j])
  {
    AllOpsPrefix(h, j);
    assert h[..j][..i] == h[..i];
    AllOpsPrefix(h[..j], i);
    if NoEmpty(h) && i < j {
      assert h[..i + 1] == h[..i] + [h[i]];
      AllOpsSnoc(h[..i], h[i]);
      assert h[..j][..i + 1] == h[..i + 1];
      AllOpsPrefix(h[..j], i + 1);
    }
  }

  lemma BoundaryHere(h: seq<Txn>, j: nat)
    requires j <= |h|
    ensures Boundary(h, Count(h[..j]))
    ensures Boundary(h, Count(h))
  {
    assert h[..|h|] == h;
  }

  lemma BoundaryGrows(h: seq<Txn>, t: Txn, n: nat)
    requires Boundary(h, n)
    ensures Boundary(h + [t], n)
  {
    var j :| 0 <= j <= |h| && Count(h[..j]) == n;
    assert (h + [t])[..j] == h[..j];
  }

  /** A boundary strictly below the end is a boundary of the history without its last transaction. */
  lemma BoundaryShrinks(h: seq<Txn>, n: nat)
    requires h != [] && NoEmpty(h) && Boundary(h, n) && n < Count(h)
    ensures Boundary(h[..|h| - 1], n)
    ensures n <= Count(h[..|h| - 1])
  {
    var j :| 0 <= j <= |h| && Count(h[..j]) == n;
    assert h[..|h|] == h;
    assert h[..|h| - 1][..j] == h[..j];
    CountMonotone(h, j, |h| - 1);
  }

  // ---- records ------------------------------------------------------------------

  lemma RecsGrow(h: seq<Txn>, lo: nat, t: Txn)
    requires lo <= |h|
    ensures Recs(h + [t], lo) == Recs(h, lo) + [Record(Count(h) + 1, t)]
  {
    var g := h + [t];
    assert |Recs(g, lo)| == |Recs(h, lo)| + 1;
    forall i | 0 <= i < |Recs(g, lo)|
      ensures Recs(g, lo)[i] == (Recs(h, lo) + [Record(Count(h) + 1, t)])[i]
    {
      assert g[..lo + i] == h[..lo + i];
      if lo + i == |h| { assert h[..lo + i] == h; }
    }
  }

  lemma RecsShrink(h: seq<Txn>, lo: nat)
    requires lo < |h|
    ensures Recs(h[..|h| - 1], lo) == Recs(h, lo)[..|h| - lo - 1]
  {
    var g := h[..|h| - 1];
    assert h == g + [h[|h| - 1]];
    RecsGrow(g, lo, h[|h| - 1]);
  }

  lemma RecsDrop(h: seq<Txn>, lo: nat, c: nat)
    requires lo + c <= |h|
    ensures Recs(h, lo)[c..] == Recs(h, lo + c)
  {
  }

  lemma RecsRising(h: seq<Txn>, lo: nat)
    requires lo <= |h|
    ensures Rising(Recs(h, lo))
    ensures NoEmpty(h) ==> forall i :: 0 <= i < |Recs(h, lo)| ==>
      Count(h[..lo]) < Recs(h, lo)[i].first <= LastOf(Recs(h, lo)[i]) <= Count(h)
  {
    var rs := Recs(h, lo);
    forall i | 0 < i < |rs| ensures rs[i].first > LastOf(rs[i - 1]) {
      assert h[..lo + i] == h[..lo + i - 1] + [h[lo + i - 1]];
      AllOpsSnoc(h[..lo + i - 1], h[lo + i - 1]);
    }
    if NoEmpty(h) {
      forall i | 0 <= i < |rs|
        ensures Count(h[..lo]) < rs[i].first <= LastOf(rs[i]) <= Count(h)
      {
        CountMonotone(h, lo, lo + i);
        assert h[..lo + i + 1] == h[..lo + i] + [h[lo + i]];
        AllOpsSnoc(h[..lo + i], h[lo + i]);
        CountMonotone(h, lo + i + 1, |h|);
      }
    }
  }

  /** The ops of the records of transactions `lo..` are ops `Count(h[..lo])..` of the history. */
  lemma {:induction false} EntriesOfRecs(h: seq<Txn>, lo: nat)
    requires lo <= |h|
    ensures Count(h[..lo]) <= Count(h)
    ensures Entries(Recs(h, lo)) == Range(AllOps(h), Count(h[..lo]), Count(h))
    decreases |h|
  {
    CountMonotone(h, lo, |h|);
    if lo == |h| {
      assert h[..lo] == h;
    } else {
      var g, t := h[..|h| - 1], h[|h| - 1];
      assert h == g + [t];
      EntriesOfRecs(g, lo);
      RecsGrow(g, lo, t);
      AllOpsSnoc(g, t);
      assert g[..lo] == h[..lo];
      var rs := Recs(h, lo);
      assert rs[..|rs| - 1] == Recs(g, lo);
      assert Range(AllOps(h), Count(g), Count(h)) == RecordEntries(rs[|rs| - 1]);
      RangeSplit(AllOps(h), Count(h[..lo]), Count(g), Count(h));
      assert Range(AllOps(h), Count(h[..lo]), Count(g)) == Range(AllOps(g), Count(h[..lo]), Count(g));
    }
  }

  lemma RangeSplit(ops: seq<Op>, a: nat, b: nat, c: nat)
    requires a <= b <= c <= |ops|
    ensures Range(ops, a, c) == Range(ops, a, b) + Range(ops, b, c)
  {
  }

  lemma RangeGrow(ops: seq<Op>, more: seq<Op>, a: nat, b: nat)
    requires a <= b <= |ops|
    ensures Range(ops + more, a, b) == Range(ops, a, b)
  {
  }

  lemma OpsOfRange(ops: seq<Op>, a: nat, b: nat)
    requires a <= b <= |ops|
    ensures OpsOf(Range(ops, a, b)) == ops[a..b]
  {
  }

  lemma RangeLast(ops: seq<Op>, a: nat, b: nat)
    requires a < b <= |ops|
    ensures Range(ops, a, b)[..b - a - 1] == Range(ops, a, b - 1)
    ensures Range(ops, a, b) == Range(ops, a, b - 1) + [Entry(b, ops[b - 1])]
  {
  }

  lemma AboveSnoc(es: seq<Entry>, e: Entry, served: nat)
    ensures Above(es + [e], served) == if e.seqNo > served then Above(es, served) + [e] else Above(es, served)
  {
    assert (es + [e])[..|es + [e]| - 1] == es;
  }

  lemma AboveSplit(a: seq<Entry>, b: seq<Entry>, served: nat)
    ensures Above(a + b, served) == Above(a, served) + Above(b, served)
  {
    if b == [] {
      assert a + b == a;
    } else {
      AboveSplit(a, b[..|b| - 1], served);
      assert (a + b)[..|a + b| - 1] == a + b[..|b| - 1];
    }
  }

  lemma RangeEmpty(ops: seq<Op>, a: nat)
    requires a <= |ops|
    ensures Range(ops, a, a) == [] && forall served: nat :: Above(Range(ops, a, a), served) == []
  {
  }

  /** Filtering a numbered range by sequence number keeps its upper part. */
  lemma {:induction false} AboveRange(ops: seq<Op>, a: nat, b: nat, served: nat)
    requires a <= b <= |ops|
    ensures Above(Range(ops, a, b), served) ==
            if served <= a then Range(ops, a, b)
            else if served >= b then [] else Range(ops, served, b)
    decreases b - a
  {
    hide Range, Above;
    if a == b {
      RangeEmpty(ops, a);
    } else {
      AboveRange(ops, a, b - 1, served);
      RangeLast(ops, a, b);
      AboveSnoc(Range(ops, a, b - 1), Entry(b, ops[b - 1]), served);
      if a < served < b {
        RangeLast(ops, served, b);
        if served == b - 1 { RangeEmpty(ops, served); }
      }
    }
  }

  // ---- byte positions -----------------------------------------------------------

  lemma {:induction false} BytesSplit(a: seq<Record>, b: seq<Record>)
    ensures Bytes(a + b) == Bytes(a) + Bytes(b)
  {
    if a == [] {
      assert a + b == b;
    } else {
      BytesSplit(a[1..], b);
      assert (a + b)[1..] == a[1..] + b;
    }
  }

  lemma BytesPrefix(rs: seq<Record>, c: nat)
    requires c <= |rs|
    ensures Bytes(rs) == Bytes(rs[..c]) + Bytes(rs[c..])
    ensures Bytes(rs[c..]) >= RECORD_HEADER_LEN * (|rs| - c)
  {
    BytesSplit(rs[..c], rs[c..]);
    assert rs[..c] + rs[c..] == rs;
    BytesPositive(rs[c..]);
  }

  lemma {:induction false} BytesPositive(rs: seq<Record>)
    ensures Bytes(rs) >= RECORD_HEADER_LEN * |rs|
  {
    if rs != [] { BytesPositive(rs[1..]); }
  }

  /** A record boundary is found again by its byte position alone. */
  lemma {:induction false} FromBoundary(rs: seq<Record>, c: nat)
    requires c <= |rs|
    ensures RecordsFrom(rs, Bytes(rs[..c])) == rs[c..]
    ensures CutAt(rs, Bytes(rs[..c])) == rs[..c]
  {
    if c == 0 {
      assert rs[..0] == [];
    } else {
      FromBoundary(rs[1..], c - 1);
      assert rs[..c][1..] == rs[1..][..c - 1];
      assert rs[..c] == [rs[0]] + rs[1..][..c - 1];
    }
  }

  lemma OneRecord(r: Record)
    ensures Bytes([r]) == SizeOf(r)
    ensures Entries([r]) == RecordEntries(r)
  {
    assert [r][1..] == [];
    assert [r][..0] == [];
  }
}
