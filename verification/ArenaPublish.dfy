/** Publishing a run of records: count the ops above what is served, make room for exactly
    that many, then store a reference to each. */
module ArenaPublish {
  import opened Ops
  import opened ByteCodec
  import opened History
  import opened WalOps
  import opened WalRecord
  import opened WalScan
  import opened Chunks
  import opened Arena

  // ---- counting ---------------------------------------------------------------------------------

  /** How many ops of a record number above `served`, from its header alone. */
  function NewIn(first: nat, count: nat, served: nat): nat {
    if first + count <= served + 1 then 0
    else if first + count - 1 - served < count then first + count - 1 - served else count
  }

  function NewOps(recs: seq<Record>, served: nat): nat {
    if recs == [] then 0
    else NewOps(recs[..|recs| - 1], served) + NewIn(recs[|recs| - 1].first, |recs[|recs| - 1].ops|, served)
  }

  lemma {:induction false} RecordCount(r: Record, served: nat, j: nat)
    requires j <= |r.ops|
    ensures |RecordEntries(r)| == |r.ops| && |Above(RecordEntries(r)[..j], served)| == NewIn(r.first, j, served)
  {
    if j > 0 {
      RecordCount(r, served, j - 1);
      var es := RecordEntries(r);
      assert es[..j] == es[..j - 1] + [es[j - 1]];
      AboveSnoc(es[..j - 1], es[j - 1], served);
    }
  }

  /** The count made from the headers is exactly the number of ops there are to publish. */
  lemma {:induction false} CountIsExact(recs: seq<Record>, served: nat)
    ensures NewOps(recs, served) == |Above(Entries(recs), served)|
  {
    hide Above, RecordEntries, NewIn;
    if recs == [] {
      NoneAbove(served);
    } else {
      var r := recs[|recs| - 1];
      CountIsExact(recs[..|recs| - 1], served);
      RecordCount(r, served, |r.ops|);
      assert RecordEntries(r)[..|r.ops|] == RecordEntries(r);
      AboveSplit(Entries(recs[..|recs| - 1]), RecordEntries(r), served);
    }
  }

  lemma NoneAbove(served: nat)
    ensures Above([], served) == [] && Entries([]) == []
  {
  }

  // ---- numbers rise ------------------------------------------------------------------------------------

  ghost predicate NumbersRise(es: seq<Entry>) { forall i, j :: 0 <= i < j < |es| ==> es[i].seqNo < es[j].seqNo }

  lemma {:induction false} AboveRises(es: seq<Entry>, served: nat)
    requires NumbersRise(es)
    ensures NumbersRise(Above(es, served))
    ensures forall e :: e in Above(es, served) ==> e.seqNo > served && e in es
  {
    if es != [] {
      var most, last := es[..|es| - 1], es[|es| - 1];
      AboveRises(most, served);
      forall e | e in Above(most, served) ensures e.seqNo < last.seqNo {
        var i :| 0 <= i < |most| && most[i] == e;
        assert es[i].seqNo < es[|es| - 1].seqNo;
      }
    }
  }

  lemma {:induction false} EntriesRise(recs: seq<Record>)
    requires Rising(recs) && forall i :: 0 <= i < |recs| ==> recs[i].ops != []
    ensures NumbersRise(Entries(recs))
    ensures forall e :: e in Entries(recs) ==> recs != [] && e.seqNo <= LastOf(recs[|recs| - 1])
  {
    if recs != [] {
      var most, last := recs[..|recs| - 1], recs[|recs| - 1];
      EntriesRise(most);
      var before, more := Entries(most), RecordEntries(last);
      forall e | e in before ensures e.seqNo < last.first {
        assert last.first > LastOf(recs[|recs| - 2]);
      }
      forall i, j | 0 <= i < j < |before + more| ensures (before + more)[i].seqNo < (before + more)[j].seqNo {
        if i < |before| <= j { assert before[i] in before; }
      }
    }
  }

  /** What publication adds continues, strictly rising, above everything already served. */
  lemma PublishedRise(es: seq<Entry>, recs: seq<Record>, served: nat)
    requires NumbersRise(es) && forall i :: 0 <= i < |es| ==> es[i].seqNo <= served
    requires Rising(recs) && forall i :: 0 <= i < |recs| ==> recs[i].ops != []
    ensures NumbersRise(es + Above(Entries(recs), served))
  {
    EntriesRise(recs);
    AboveRises(Entries(recs), served);
    var added := Above(Entries(recs), served);
    forall i, j | 0 <= i < j < |es + added| ensures (es + added)[i].seqNo < (es + added)[j].seqNo {
      if i < |es| <= j { assert added[j - |es|] in added; }
    }
  }

  // ---- reading a segment --------------------------------------------------------------------------------

  /** A record's header fields, at their offsets. */
  lemma HeaderFields(hash: Hash, utf8: Utf8, r: Record, more: seq<byte>)
    requires LegalRecord(utf8, r)
    ensures var b := Sealed(hash, r) + more;
            && |Sealed(hash, r)| == SizeOf(r) && 48 <= SizeOf(r) <= |b|
            && Num(b[0..4]) == SizeOf(r) && Num(b[8..16]) == r.first && Num(b[16..20]) == |r.ops|
            && b[32..SizeOf(r)] == EncodeAll(r.ops)
  {
    hide Sealed, Num, EncodeAll, AllLegal, Fitting, Unpack, Pack;
    RecordWidthsAre();
    SealedParts(hash, r, more);
    HeadFits(utf8, r);
    var b := Sealed(hash, r) + more;
    UnpackPack(RECORD_FIELDS, [SizeOf(r), TAG, COMMIT, 0, r.first, |r.ops|, 0]);
    FieldOffset(RECORD_FIELDS, b[..24], 0);
    FieldOffset(RECORD_FIELDS, b[..24], 4);
    FieldOffset(RECORD_FIELDS, b[..24], 5);
    assert b[..24][0..4] == b[0..4] && b[..24][8..16] == b[8..16] && b[..24][16..20] == b[16..20];
  }

  /** The next op of a body lies where the one before it ends. */
  lemma OpHere(utf8: Utf8, segment: seq<byte>, at: nat, end: nat, ops: seq<Op>)
    requires AllLegal(utf8, ops) && ops != [] && at <= end <= |segment| && segment[at..end] == EncodeAll(ops)
    ensures at + 16 <= end && OpAt(utf8, segment, at) == Some(ops[0])
    ensures var len := Num(segment[at..at + 4]);
            at + len <= end && segment[at + len..end] == EncodeAll(ops[1..])
  {
    hide Num, Parse, Encode, Legal, OpSize;
    OpFits(utf8, ops[0]);
    OpReadsBack(utf8, ops[0]);
    var b, rest := segment[at..end], EncodeAll(ops[1..]);
    assert b == Encode(ops[0]) + rest;
    var len := |Encode(ops[0])|;
    assert segment[at..at + 4] == b[..4] == Encode(ops[0])[..4];
    assert segment[at..at + len] == b[..len] == Encode(ops[0]);
    assert segment[at + len..end] == b[len..] == rest;
  }

  lemma OpFits(utf8: Utf8, op: Op)
    requires Legal(utf8, op)
    ensures 16 <= |Encode(op)| && Num(Encode(op)[..4]) == |Encode(op)|
  {
    hide LegalBody, Encode, Num;
    OpLength(op);
  }

  lemma LocatedSnoc(utf8: Utf8, segment: seq<byte>, refs: seq<Cell>, es: seq<Entry>, c: Cell, e: Entry)
    requires Located(utf8, segment, refs, es)
    requires c.seqNo == e.seqNo && c.at < OFF && OpAt(utf8, segment, c.at) == Some(e.op)
    ensures Located(utf8, segment, refs + [c], es + [e])
  {
    hide OpAt;
  }

  lemma LocatedJoins(utf8: Utf8, segment: seq<byte>, a: seq<Cell>, es: seq<Entry>, b: seq<Cell>, fs: seq<Entry>)
    requires Located(utf8, segment, a, es) && Located(utf8, segment, b, fs)
    ensures Located(utf8, segment, a + b, es + fs)
  {
    hide OpAt;
  }

  /** The ops of one record above `above`, each with its place in the segment. */
  method RecordRefs(segment: seq<byte>, pos: nat, above: nat, ghost hash: Hash, ghost utf8: Utf8, ghost r: Record)
    returns (refs: seq<Cell>)
    requires LegalRecord(utf8, r) && |segment| < OFF && pos <= |segment|
    requires Sealed(hash, r) <= segment[pos..]
    ensures Located(utf8, segment, refs, Above(RecordEntries(r), above))
  {
    hide Located, Above, RecordEntries, Sealed, EncodeAll, Num, OpAt, SizeOf, Legal;
    ghost var more := segment[pos..][|Sealed(hash, r)|..];
    assert segment[pos..] == Sealed(hash, r) + more;
    HeaderFields(hash, utf8, r, more);
    ghost var end := pos + SizeOf(r);
    assert segment[pos + 8..pos + 16] == segment[pos..][8..16] && segment[pos + 16..pos + 20] == segment[pos..][16..20];
    var first, count := Num(segment[pos + 8..pos + 16]), Num(segment[pos + 16..pos + 20]);
    var at := pos + 32;
    assert segment[at..end] == segment[pos..][32..SizeOf(r)];
    assert r.ops[0..] == r.ops;
    refs := [];
    NothingLocated(utf8, segment, r, above);
    for i := 0 to count
      invariant pos + 32 <= at <= end && segment[at..end] == EncodeAll(r.ops[i..])
      invariant |RecordEntries(r)| == |r.ops| && Located(utf8, segment, refs, Above(RecordEntries(r)[..i], above))
    {
      OpHere(utf8, segment, at, end, r.ops[i..]);
      RecordEntry(r, i);
      AboveSnoc(RecordEntries(r)[..i], Entry(r.first + i, r.ops[i]), above);
      if first + i > above {
        LocatedSnoc(utf8, segment, refs, Above(RecordEntries(r)[..i], above), Cell(first + i, at), Entry(r.first + i, r.ops[i]));
        refs := refs + [Cell(first + i, at)];
      }
      at := at + Num(segment[at..at + 4]);
      assert r.ops[i..][1..] == r.ops[i + 1..];
    }
    assert RecordEntries(r)[..|r.ops|] == RecordEntries(r);
  }

  lemma RecordEntry(r: Record, i: nat)
    requires i < |r.ops|
    ensures |RecordEntries(r)| == |r.ops| && RecordEntries(r)[..i + 1] == RecordEntries(r)[..i] + [Entry(r.first + i, r.ops[i])]
  {
  }

  lemma NothingLocated(utf8: Utf8, segment: seq<byte>, r: Record, above: nat)
    ensures |RecordEntries(r)| == |r.ops| && Located(utf8, segment, [], Above(RecordEntries(r)[..0], above))
    ensures Located(utf8, segment, [], Above(Entries([]), above))
  {
    assert RecordEntries(r)[..0] == [];
  }

  /** Where record `i` of a segment starts. */
  lemma RecordHere(hash: Hash, utf8: Utf8, recs: seq<Record>, i: nat)
    requires i < |recs| && forall j :: 0 <= j < |recs| ==> LegalRecord(utf8, recs[j])
    ensures var image, at := Image(hash, recs), Bytes(recs[..i]);
            && |image| == Bytes(recs) && at + 48 <= Bytes(recs[..i + 1]) <= |image|
            && Bytes(recs[..i + 1]) == at + SizeOf(recs[i])
            && Sealed(hash, recs[i]) <= image[at..]
  {
    hide Sealed, LegalRecord, SizeOf;
    ImageSize(hash, recs);
    ImageDrop(hash, recs, i);
    ImageStep(hash, recs[i], recs[i + 1..]);
    HeadFits(utf8, recs[i]);
    assert recs[i..] == [recs[i]] + recs[i + 1..];
    assert recs[..i + 1] == recs[..i] + [recs[i]];
    BytesSplit(recs[..i], [recs[i]]);
    OneRecord(recs[i]);
    BytesPrefix(recs, i + 1);
  }

  /** At a record boundary of a segment: the end, or the next record with its header fields. */
  lemma AtRecord(hash: Hash, utf8: Utf8, segment: seq<byte>, start: nat, recs: seq<Record>, i: nat)
    requires start <= |segment| && segment[start..] == Image(hash, recs) && i <= |recs|
    requires forall j :: 0 <= j < |recs| ==> LegalRecord(utf8, recs[j])
    ensures var pos := start + Bytes(recs[..i]);
            if i == |recs| then pos == |segment|
            else
              && pos + 48 <= pos + SizeOf(recs[i]) <= |segment|
              && pos + SizeOf(recs[i]) == start + Bytes(recs[..i + 1])
              && Sealed(hash, recs[i]) <= segment[pos..]
              && Num(segment[pos..pos + 4]) == SizeOf(recs[i])
              && Num(segment[pos + 8..pos + 16]) == recs[i].first && Num(segment[pos + 16..pos + 20]) == |recs[i].ops|
  {
    hide Image, Bytes, Sealed, LegalRecord, Num, SizeOf;
    ImageSize(hash, recs);
    if i == |recs| {
      assert recs[..i] == recs;
    } else {
      RecordHere(hash, utf8, recs, i);
      assert segment[start..][Bytes(recs[..i])..] == segment[start + Bytes(recs[..i])..];
      FieldsHere(hash, utf8, segment, start + Bytes(recs[..i]), recs[i]);
    }
  }

  lemma FieldsHere(hash: Hash, utf8: Utf8, segment: seq<byte>, pos: nat, r: Record)
    requires pos <= |segment| && Sealed(hash, r) <= segment[pos..] && LegalRecord(utf8, r)
    ensures pos + 48 <= pos + SizeOf(r) <= |segment|
    ensures Num(segment[pos..pos + 4]) == SizeOf(r)
    ensures Num(segment[pos + 8..pos + 16]) == r.first && Num(segment[pos + 16..pos + 20]) == |r.ops|
  {
    hide Sealed, LegalRecord, Num, SizeOf, EncodeAll;
    var b := segment[pos..];
    var more := b[|Sealed(hash, r)|..];
    assert b == Sealed(hash, r) + more;
    HeaderFields(hash, utf8, r, more);
    assert segment[pos..pos + 4] == b[0..4] && segment[pos + 8..pos + 16] == b[8..16] && segment[pos + 16..pos + 20] == b[16..20];
  }

  /** Count, in one pass over the record headers. */
  method CountNew(segment: seq<byte>, start: nat, served: nat, ghost hash: Hash, ghost utf8: Utf8, ghost recs: seq<Record>)
    returns (added: nat)
    requires start <= |segment| && segment[start..] == Image(hash, recs)
    requires forall j :: 0 <= j < |recs| ==> LegalRecord(utf8, recs[j])
    ensures added == |Above(Entries(recs), served)|
  {
    hide Image, Bytes, Sealed, LegalRecord, Num, NewIn, Above, Entries, SizeOf;
    added := 0;
    var pos := start;
    ghost var i := 0;
    NoBytes(recs);
    AtRecord(hash, utf8, segment, start, recs, 0);
    while |segment| - pos >= 48
      invariant 0 <= i <= |recs| && pos == start + Bytes(recs[..i]) <= |segment|
      invariant added == NewOps(recs[..i], served)
      decreases |segment| - pos
    {
      AtRecord(hash, utf8, segment, start, recs, i);
      assert recs[..i + 1][..i] == recs[..i];
      added := added + NewIn(Num(segment[pos + 8..pos + 16]), Num(segment[pos + 16..pos + 20]), served);
      pos := pos + Num(segment[pos..pos + 4]);
      i := i + 1;
    }
    AtRecord(hash, utf8, segment, start, recs, i);
    assert recs[..i] == recs;
    CountIsExact(recs, served);
  }

  lemma NoBytes(recs: seq<Record>)
    ensures Bytes(recs[..0]) == 0 && recs[..|recs|] == recs
  {
  }

  /** Every op of a segment above `above`, with its place. */
  method SegmentRefs(segment: seq<byte>, start: nat, above: nat, ghost hash: Hash, ghost utf8: Utf8, ghost recs: seq<Record>)
    returns (refs: seq<Cell>)
    requires start <= |segment| < OFF && segment[start..] == Image(hash, recs)
    requires forall j :: 0 <= j < |recs| ==> LegalRecord(utf8, recs[j])
    ensures Located(utf8, segment, refs, Above(Entries(recs), above))
  {
    hide Image, Bytes, Sealed, LegalRecord, Num, Located, Above, SizeOf, RecordEntries;
    refs := [];
    var pos := start;
    ghost var i := 0;
    NoBytes(recs);
    NothingLocated(utf8, segment, Record(0, []), above);
    AtRecord(hash, utf8, segment, start, recs, 0);
    while |segment| - pos >= 48
      invariant 0 <= i <= |recs| && pos == start + Bytes(recs[..i]) <= |segment|
      invariant Located(utf8, segment, refs, Above(Entries(recs[..i]), above))
      decreases |segment| - pos
    {
      AtRecord(hash, utf8, segment, start, recs, i);
      var more := RecordRefs(segment, pos, above, hash, utf8, recs[i]);
      assert recs[..i + 1][..i] == recs[..i];
      AboveSplit(Entries(recs[..i]), RecordEntries(recs[i]), above);
      LocatedJoins(utf8, segment, refs, Above(Entries(recs[..i]), above), more, Above(RecordEntries(recs[i]), above));
      refs := refs + more;
      pos := pos + Num(segment[pos..pos + 4]);
      i := i + 1;
    }
    AtRecord(hash, utf8, segment, start, recs, i);
    assert recs[..i] == recs;
  }

  /** Publish the ops of a segment of whole records that are above `served`. `None`: the
      arena is full, and nothing changed. Else whether anything became visible: exactly the
      ops a model of the arena appends. */
  method PublishAbove(arena: LogArena, served: nat, segment: seq<byte>, start: nat, ghost hash: Hash, ghost recs: seq<Record>)
    returns (r: Option<bool>)
    requires arena.Valid() && start <= |segment| && segment[start..] == Image(hash, recs)
    requires forall j :: 0 <= j < |recs| ==> LegalRecord(arena.utf8, recs[j])
    modifies arena
    ensures arena.Valid()
    ensures var added := Above(Entries(recs), served);
            && (r.None? <==> added != [] && (old(arena.frontier) + |added| > CAPACITY || old(arena.nsegs) >= CAPACITY || |segment| >= OFF))
            && (r.None? ==> arena.Contents() == old(arena.Contents()))
            && (r.Some? ==> r.value == (added != []) && arena.Contents() == old(arena.Contents()) + added)
  {
    hide Image, LegalRecord, Above, Entries, Located, Good;
    var added := CountNew(segment, start, served, hash, arena.utf8, recs);
    if added == 0 {
      assert Above(Entries(recs), served) == [];
      return Some(false);
    }
    var ok := arena.Reserve(added, |segment|);
    if !ok {
      return None;
    }
    var refs := SegmentRefs(segment, start, served, hash, arena.utf8, recs);
    LocatedLength(arena.utf8, segment, refs, Above(Entries(recs), served));
    arena.Publish(segment, refs, Above(Entries(recs), served));
    return Some(true);
  }

  lemma LocatedLength(utf8: Utf8, segment: seq<byte>, refs: seq<Cell>, es: seq<Entry>)
    requires Located(utf8, segment, refs, es)
    ensures |refs| == |es|
  {
  }
}
