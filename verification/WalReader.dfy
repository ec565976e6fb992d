/** The log reader's loops: over a record's operations, over a set's texts, over an image's
    records. Each stops where its specification says. */
module WalReader {
  import opened Ops
  import opened ByteCodec
  import opened History
  import opened WalOps
  import opened WalSets
  import opened WalRecord
  import opened WalScan

  // ---- validating the texts of a set --------------------------------------------------------------

  lemma {:induction false} SumPrefix(ls: seq<nat>, i: nat)
    requires i <= |ls|
    ensures Sum(ls[..i]) <= Sum(ls) && (i < |ls| ==> Sum(ls[..i + 1]) == Sum(ls[..i]) + ls[i] <= Sum(ls))
  {
    if i < |ls| { SumSnoc(ls, i); } else { assert ls[..i] == ls; }
  }

  /** One pass over the rows, the position running ahead through the texts. */
  method CheckTexts(utf8: Utf8, rows: seq<seq<nat>>, c: nat, tail: seq<byte>, max: nat) returns (ok: bool)
    requires forall i :: 0 <= i < |rows| ==> c < |rows[i]|
    ensures ok <==> Texts(utf8, rows, c, tail, max).Some?
  {
    hide Sum, Split;
    ghost var lens := Column(rows, c);
    var at := 0;
    SumEmpty(lens[..0]);
    for i := 0 to |rows|
      invariant at == Sum(lens[..i]) <= |tail|
      invariant forall j :: 0 <= j < i ==> lens[j] <= max && Sum(lens[..j]) + lens[j] <= |tail|
      invariant forall j :: 0 <= j < i ==> utf8(tail[Sum(lens[..j])..Sum(lens[..j]) + lens[j]])
    {
      var len := rows[i][c];
      assert lens[i] == len && len in lens;
      SumPrefix(lens, i);
      if len > max || len > |tail| - at {
        return false;
      }
      if !utf8(tail[at..at + len]) {
        if Sum(lens) == |tail| {
          SplitOffset(tail, lens, i);
          assert Split(tail, lens)[i] in Split(tail, lens);
        }
        return false;
      }
      at := at + len;
    }
    assert lens[..|rows|] == lens;
    if at == |tail| {
      forall i | 0 <= i < |rows| ensures utf8(Split(tail, lens)[i]) { SplitOffset(tail, lens, i); }
    }
    return at == |tail|;
  }

  /** One pass over the entries, each destination above the one before. */
  method CheckEdges(rows: seq<seq<nat>>) returns (ok: bool)
    requires forall i :: 0 <= i < |rows| ==> |rows[i]| == Len(EDGE_ENTRY) && Fitting(EDGE_ENTRY, rows[i])
    ensures ok <==> Ascending(seq(|rows|, i requires 0 <= i < |rows| => EdgeOf(rows[i])))
  {
    hide Fitting, EdgeOf;
    EdgeWidthsAre();
    ghost var edges := seq(|rows|, i requires 0 <= i < |rows| => EdgeOf(rows[i]));
    var prev: Option<nat> := None;
    for i := 0 to |rows|
      invariant prev == if i == 0 then None else Some(edges[i - 1].dst as nat)
      invariant forall j, k :: 0 <= j < k < i ==> edges[j].dst < edges[k].dst
    {
      EdgeRowOf(rows[i]);
      if prev.Some? && prev.value >= rows[i][0] {
        assert !(edges[i - 1].dst < edges[i].dst);
        return false;
      }
      prev := Some(rows[i][0]);
    }
    return true;
  }

  // ---- one record -----------------------------------------------------------------------------------

  function Prepend(ops: seq<Op>, rest: Option<seq<Op>>): Option<seq<Op>> {
    if rest.None? then None else Some(ops + rest.value)
  }

  lemma PrependStep(utf8: Utf8, ops: seq<Op>, b: seq<byte>, n: nat)
    requires n > 0
    ensures NextOp(utf8, b).None? ==> Prepend(ops, ParseOps(utf8, b, n)) == None
    ensures NextOp(utf8, b).Some? ==>
              var (op, len) := NextOp(utf8, b).value;
              Prepend(ops, ParseOps(utf8, b, n)) == Prepend(ops + [op], ParseOps(utf8, b[len..], n - 1))
  {
    hide NextOp;
    if NextOp(utf8, b).Some? {
      var (op, len) := NextOp(utf8, b).value;
      var rest := ParseOps(utf8, b[len..], n - 1);
      if rest.Some? { assert ops + ([op] + rest.value) == ops + [op] + rest.value; }
    }
  }

  /** Exactly `count` ops, each validated, with nothing after the last. */
  method ReadOps(utf8: Utf8, body: seq<byte>, count: nat) returns (r: Option<seq<Op>>)
    ensures r == ParseOps(utf8, body, count)
  {
    hide ParseOps, Parse;
    var ops: seq<Op> := [];
    var at := 0;
    assert body[0..] == body;
    NoneBefore(ParseOps(utf8, body, count));
    for i := 0 to count
      invariant at <= |body| && ParseOps(utf8, body, count) == Prepend(ops, ParseOps(utf8, body[at..], count - i))
    {
      PrependStep(utf8, ops, body[at..], count - i);
      if |body| - at < 16 {
        return None;
      }
      var len := Num(body[at..at + 4]);
      assert body[at..][..4] == body[at..at + 4];
      if !(16 <= len <= MAX_OP) || len > |body| - at {
        return None;
      }
      assert body[at..][..len] == body[at..at + len] && body[at..][len..] == body[at + len..];
      var op := Parse(utf8, body[at..at + len]);
      if op.None? {
        return None;
      }
      ops := ops + [op.value];
      at := at + len;
    }
    NoMoreOps(utf8, body[at..]);
    assert ops + [] == ops;
    return if at == |body| then Some(ops) else None;
  }

  lemma NoneBefore(r: Option<seq<Op>>)
    ensures Prepend([], r) == r
  {
    if r.Some? { assert [] + r.value == r.value; }
  }

  lemma NoMoreOps(utf8: Utf8, b: seq<byte>)
    ensures ParseOps(utf8, b, 0) == if b == [] then Some([]) else None
  {
  }

  /** What lies at a position of an image. */
  method NextRecord(hash: Hash, utf8: Utf8, bytes: seq<byte>, pos: nat) returns (r: Next)
    ensures r == ReadRecord(hash, utf8, if pos <= |bytes| then bytes[pos..] else [])
  {
    hide ParseOps, Fields;
    RecordWidthsAre();
    if pos > |bytes| {
      return Torn;
    }
    var rest := bytes[pos..];
    if |rest| < 32 {
      return Torn;
    }
    var v := Fields(RECORD_FIELDS, rest[..24]);
    var len := v[0];
    if !(48 <= len <= MAX_RECORD) || len > |rest| || v[1] != TAG || v[2] != COMMIT {
      return Torn;
    }
    if hash(rest[..24] + rest[32..len]) != Num(rest[24..32]) {
      return Torn;
    }
    if v[3] != 0 || v[6] != 0 || v[4] == 0 || v[5] == 0 || v[4] + v[5] - 1 >= 0x1_0000_0000_0000_0000 {
      return Corrupt;
    }
    var ops := ReadOps(utf8, rest[32..len], v[5]);
    if ops.None? {
      return Corrupt;
    }
    return Whole(Record(v[4], ops.value));
  }

  // ---- a whole image ---------------------------------------------------------------------------------

  function After(recs: seq<Record>, end: nat, s: Scan): Scan {
    Scan(recs + s.recs, end + s.end, s.last, s.corrupt)
  }

  lemma NothingAfter(recs: seq<Record>, end: nat, last: nat, corrupt: bool)
    ensures After(recs, end, Scan([], 0, last, corrupt)) == Scan(recs, end, last, corrupt)
  {
    assert recs + [] == recs;
  }

  lemma AfterOne(recs: seq<Record>, end: nat, r: Record, s: Scan)
    ensures After(recs, end, Scan([r] + s.recs, SizeOf(r) + s.end, s.last, s.corrupt)) == After(recs + [r], end + SizeOf(r), s)
  {
    assert recs + ([r] + s.recs) == recs + [r] + s.recs;
  }

  /** How far a run of records goes from `start`, its numbers rising from above `after`. */
  method ScanImage(hash: Hash, utf8: Utf8, bytes: seq<byte>, start: nat, after: nat)
    returns (end: nat, last: nat, ops: nat, corrupt: bool, ghost recs: seq<Record>)
    requires start <= |bytes|
    ensures start <= end <= |bytes|
    ensures Scan(recs, end - start, last, corrupt) == ScanOf(hash, utf8, bytes[start..], after)
    ensures ops == |Entries(recs)|
  {
    hide ReadRecord, ScanOf, SizeOf, Sealed, LegalRecord;
    end, last, ops, corrupt, recs := start, after, 0, false, [];
    ghost var whole := ScanOf(hash, utf8, bytes[start..], after);
    assert [] + whole.recs == whole.recs;
    while true
      invariant start <= end <= |bytes| && !corrupt && ops == |Entries(recs)|
      invariant whole == After(recs, end - start, ScanOf(hash, utf8, bytes[end..], last))
      decreases |bytes| - end
    {
      NothingAfter(recs, end - start, last, false);
      NothingAfter(recs, end - start, last, true);
      var next := NextRecord(hash, utf8, bytes, end);
      assert next == ReadRecord(hash, utf8, bytes[end..]);
      match next {
        case Torn =>
          ScanStops(hash, utf8, bytes[end..], last);
          return;
        case Corrupt =>
          ScanStops(hash, utf8, bytes[end..], last);
          corrupt := true;
          return;
        case Whole(r) =>
          if r.first <= last {
            ScanStops(hash, utf8, bytes[end..], last);
            corrupt := true;
            return;
          }
          ScanWhole(hash, utf8, bytes[end..], last);
          assert bytes[end..][SizeOf(r)..] == bytes[end + SizeOf(r)..];
          AfterOne(recs, end - start, r, ScanOf(hash, utf8, bytes[end + SizeOf(r)..], r.first + |r.ops| - 1));
          assert (recs + [r])[..|recs|] == recs;
          last, ops, end := r.first + |r.ops| - 1, ops + |r.ops|, end + SizeOf(r);
          recs := recs + [r];
      }
    }
  }
}
