/** One log record: a transaction's operations under a checksummed header. Reading a sealed
    record gives back the transaction, every accepted record is a sealed one, and a strict
    prefix of one is torn, whatever the checksum. */
module WalRecord {
  import opened Ops
  import opened ByteCodec
  import opened WalOps
  import opened WalSets
  import opened History

  const MAX_RECORD: nat := 268_435_456
  const TAG := 0x5854
  const COMMIT := 1

  /** length, tag, flags, zero, first sequence number, op count, zero; the checksum follows */
  const RECORD_FIELDS: Layout := W(4, W(2, W(1, W(1, W(8, W(4, W(4, End)))))))

  // ---- one operation, whole ------------------------------------------------------------------------

  function ParseBody(utf8: text -> bool, kind: nat, pinned: bool, key: u64, body: seq<byte>): (r: Option<Op>)
    ensures r.Some? ==> r.value.key == key
  {
    if kind == 1 then ParseUpsert(utf8, key, body)
    else if kind == 2 then ParseSegs(utf8, key, body)
    else if kind == 3 then ParseEdges(key, body)
    else if kind == 4 then ParseTouch(utf8, key, body)
    else if kind == 5 then if body == [] then Some(Remove(key)) else None
    else if kind == 6 then if body == [] then Some(Pin(key, pinned)) else None
    else if kind == 8 then ParseAttrs(utf8, key, body)
    else None
  }

  lemma HeaderWidthsAre()
    ensures Total(OP_HEADER) == 16 && Len(OP_HEADER) == 5
    ensures Width(OP_HEADER, 0) == 4 && Width(OP_HEADER, 1) == 1 && Width(OP_HEADER, 2) == 1
    ensures Width(OP_HEADER, 3) == 2 && Width(OP_HEADER, 4) == 8
  {
  }

  /** The op these bytes are, exactly, if the validator accepts them. */
  function Parse(utf8: text -> bool, b: seq<byte>): (r: Option<Op>) {
    HeaderWidthsAre();
    if !(16 <= |b| <= MAX_OP) then None
    else
      var v := Fields(OP_HEADER, b[..16]);
      FieldBounds(OP_HEADER, v);
      Powers();
      if v[0] != |b| || v[3] != 0 || v[2] > (if v[1] == 6 then 1 else 0) then None
      else ParseBody(utf8, v[1], v[2] == 1, v[4], b[16..])
  }

  lemma {:induction false} LabelsAre(segs: seq<Seg>)
    ensures |Concat(Headings(segs))| == LabelBytes(segs)
  {
    if segs != [] {
      LabelsAre(segs[1..]);
      assert Headings(segs)[1..] == Headings(segs[1..]);
    }
  }

  lemma {:induction false} ValuesAre(attrs: seq<Attr>)
    ensures |Concat(Values(attrs))| == ValueBytes(attrs)
  {
    if attrs != [] {
      ValuesAre(attrs[1..]);
      assert Values(attrs)[1..] == Values(attrs[1..]);
    }
  }

  /** The encoded width is the one the model of the log counts in. */
  lemma EncodedSize(op: Op)
    ensures |Encode(op)| == 16 + |Body(op)| == OpSize(op)
  {
    hide Pack, PackAll, Concat, Times;
    Widths();
    match op
    case Upsert(_, _, _, _, _, _, _, _) => SizeOfUpsert(op);
    case Segs(_, segs) => TimesAre(|segs|); LabelsAre(segs);
    case Edges(_, edges) => TimesAre(|edges|);
    case Touch(_, _, _, _, _, _, _, _, _, _) => SizeOfTouch(op);
    case Remove(_) =>
    case Pin(_, _) =>
    case Attrs(_, attrs) => TimesAre(|attrs|); ValuesAre(attrs);
  }

  lemma BodyReadsBack(utf8: text -> bool, op: Op)
    requires LegalBody(utf8, op)
    ensures ParseBody(utf8, Kind(op), OpFlags(op) == 1, op.key, Body(op)) == Some(op)
  {
    hide ParseUpsert, ParseSegs, ParseEdges, ParseTouch, ParseAttrs, UpsertBody, SegsBody, EdgesBody, TouchBody, AttrsBody;
    match op
    case Upsert(_, _, _, _, _, _, _, _) => UpsertReadsBack(utf8, op);
    case Segs(key, segs) => SegsReadBack(utf8, key, segs);
    case Edges(key, edges) => EdgesReadBack(key, edges);
    case Touch(_, _, _, _, _, _, _, _, _, _) => TouchReadsBack(utf8, op);
    case Remove(_) =>
    case Pin(_, _) =>
    case Attrs(key, attrs) => AttrsReadBack(utf8, key, attrs);
  }

  lemma BodyIsCanonical(utf8: text -> bool, kind: byte, flags: byte, key: u64, body: seq<byte>)
    requires flags <= (if kind == 6 then 1 else 0) && ParseBody(utf8, kind, flags == 1, key, body).Some?
    ensures var op := ParseBody(utf8, kind, flags == 1, key, body).value;
            LegalBody(utf8, op) && Body(op) == body && Kind(op) == kind && OpFlags(op) == flags
  {
    hide ParseUpsert, ParseSegs, ParseEdges, ParseTouch, ParseAttrs, UpsertBody, SegsBody, EdgesBody, TouchBody, AttrsBody;
    if kind == 1 { UpsertIsCanonical(utf8, key, body); }
    else if kind == 2 { SegsAreCanonical(utf8, key, body); }
    else if kind == 3 { EdgesAreCanonical(key, body); }
    else if kind == 4 { TouchIsCanonical(utf8, key, body); }
    else if kind == 8 { AttrsAreCanonical(utf8, key, body); }
  }

  /** Writing then reading: every legal op is accepted and reads back. */
  lemma OpReadsBack(utf8: text -> bool, op: Op)
    requires Legal(utf8, op)
    ensures Parse(utf8, Encode(op)) == Some(op)
  {
    hide Pack, Fields, Fitting, Body, ParseBody, OpSize, LegalBody;
    HeaderWidthsAre();
    EncodedSize(op);
    Powers();
    var b, v := Encode(op), [16 + |Body(op)|, Kind(op) as nat, OpFlags(op), 0, op.key];
    FitsBounds(OP_HEADER, v);
    assert b[..16] == Pack(OP_HEADER, v) && b[16..] == Body(op);
    FieldsOfPack(OP_HEADER, v, b[..16]);
    BodyReadsBack(utf8, op);
  }

  /** Reading then writing: what the validator accepts is the encoding of a legal op. */
  lemma OpIsCanonical(utf8: text -> bool, b: seq<byte>)
    requires Parse(utf8, b).Some?
    ensures Legal(utf8, Parse(utf8, b).value) && Encode(Parse(utf8, b).value) == b
  {
    hide Pack, Fields, Fitting, Body, ParseBody, OpSize, LegalBody;
    HeaderWidthsAre();
    Powers();
    var v := Fields(OP_HEADER, b[..16]);
    FieldBounds(OP_HEADER, v);
    var op := Parse(utf8, b).value;
    BodyIsCanonical(utf8, v[1], v[2], v[4], b[16..]);
    EncodedSize(op);
    FieldsOfPack(OP_HEADER, v, b[..16]);
    assert v == [16 + |Body(op)|, Kind(op) as nat, OpFlags(op), 0, op.key];
    assert b == b[..16] + b[16..];
  }

  /** An op's first four bytes hold its width, so ops laid end to end come apart again. */
  lemma OpLength(op: Op)
    requires OpSize(op) <= MAX_OP
    ensures 16 <= |Encode(op)| == OpSize(op) && Num(Encode(op)[..4]) == OpSize(op)
  {
    hide Body, OpSize;
    HeaderWidthsAre();
    EncodedSize(op);
    Powers();
    var b := Encode(op);
    assert b[..4] == LE(16 + |Body(op)|, 4);
    NumOfLE(16 + |Body(op)|, 4);
  }

  // ---- ops end to end -----------------------------------------------------------------------------------

  function EncodeAll(ops: seq<Op>): seq<byte> {
    if ops == [] then [] else Encode(ops[0]) + EncodeAll(ops[1..])
  }

  ghost predicate AllLegal(utf8: text -> bool, ops: seq<Op>) { forall i :: 0 <= i < |ops| ==> Legal(utf8, ops[i]) }

  /** The next op of a body, by its length field. */
  function NextOp(utf8: text -> bool, b: seq<byte>): (r: Option<(Op, nat)>)
    ensures r.Some? ==> 16 <= r.value.1 <= |b|
  {
    if |b| < 16 then None
    else
      var len := Num(b[..4]);
      if !(16 <= len <= MAX_OP) || len > |b| || Parse(utf8, b[..len]).None? then None
      else Some((Parse(utf8, b[..len]).value, len))
  }

  /** Exactly `n` ops, with nothing after them. */
  function ParseOps(utf8: text -> bool, b: seq<byte>, n: nat): Option<seq<Op>> {
    if n == 0 then if b == [] then Some([]) else None
    else
      var next := NextOp(utf8, b);
      if next.None? then None
      else
        var rest := ParseOps(utf8, b[next.value.1..], n - 1);
        if rest.None? then None else Some([next.value.0] + rest.value)
  }

  lemma NextReadsBack(utf8: text -> bool, op: Op, more: seq<byte>)
    requires Legal(utf8, op)
    ensures NextOp(utf8, Encode(op) + more) == Some((op, |Encode(op)|))
  {
    hide Parse, Encode, LegalBody, OpSize;
    OpLength(op);
    OpReadsBack(utf8, op);
    var b := Encode(op) + more;
    assert b[..4] == Encode(op)[..4] && b[..|Encode(op)|] == Encode(op);
  }

  lemma NextIsCanonical(utf8: text -> bool, b: seq<byte>)
    requires NextOp(utf8, b).Some?
    ensures var (op, len) := NextOp(utf8, b).value; Legal(utf8, op) && b[..len] == Encode(op) && len == |Encode(op)|
  {
    hide Parse, Encode, Legal;
    OpIsCanonical(utf8, b[..Num(b[..4])]);
  }

  lemma OneMoreOp(utf8: text -> bool, op: Op, more: seq<byte>, rest: seq<Op>)
    requires Legal(utf8, op) && ParseOps(utf8, more, |rest|) == Some(rest)
    ensures ParseOps(utf8, Encode(op) + more, |rest| + 1) == Some([op] + rest)
  {
    hide NextOp, Encode, Legal;
    NextReadsBack(utf8, op, more);
    assert (Encode(op) + more)[|Encode(op)|..] == more;
  }

  lemma NoOps(utf8: text -> bool)
    ensures ParseOps(utf8, EncodeAll([]), 0) == Some([])
  {
  }

  lemma {:induction false} OpsReadBack(utf8: text -> bool, ops: seq<Op>)
    requires AllLegal(utf8, ops)
    ensures ParseOps(utf8, EncodeAll(ops), |ops|) == Some(ops)
  {
    hide ParseOps, Encode, Legal;
    if ops == [] {
      NoOps(utf8);
    } else {
      OpsReadBack(utf8, ops[1..]);
      OneMoreOp(utf8, ops[0], EncodeAll(ops[1..]), ops[1..]);
      assert ops == [ops[0]] + ops[1..];
    }
  }

  lemma {:induction false} OpsAreCanonical(utf8: text -> bool, b: seq<byte>, n: nat)
    requires ParseOps(utf8, b, n).Some?
    ensures var ops := ParseOps(utf8, b, n).value; |ops| == n && AllLegal(utf8, ops) && EncodeAll(ops) == b
  {
    hide NextOp, Encode, Legal;
    if n > 0 {
      NextIsCanonical(utf8, b);
      var len := NextOp(utf8, b).value.1;
      OpsAreCanonical(utf8, b[len..], n - 1);
      var ops := ParseOps(utf8, b, n).value;
      assert ops[1..] == ParseOps(utf8, b[len..], n - 1).value;
      assert b == b[..len] + b[len..];
    }
  }

  lemma {:induction false} EncodedSizes(ops: seq<Op>)
    ensures |EncodeAll(ops)| == OpsSize(ops) >= 16 * |ops|
  {
    hide Encode, OpSize;
    if ops != [] {
      EncodedSize(ops[0]);
      EncodedSizes(ops[1..]);
    }
  }

  lemma {:induction false} EncodeAllSnoc(ops: seq<Op>, op: Op)
    ensures EncodeAll(ops + [op]) == EncodeAll(ops) + Encode(op)
  {
    hide Encode;
    if ops == [] {
      assert [op][1..] == [] && ops + [op] == [op];
    } else {
      EncodeAllSnoc(ops[1..], op);
      assert (ops + [op])[1..] == ops[1..] + [op];
    }
  }

  // ---- a record ------------------------------------------------------------------------------------------

  /** What `seal` accepts: ops, within the cap, with numbers in range. */
  ghost predicate LegalRecord(utf8: text -> bool, r: Record) {
    && r.ops != [] && AllLegal(utf8, r.ops) && SizeOf(r) <= MAX_RECORD
    && 1 <= r.first && r.first + |r.ops| - 1 < 0x1_0000_0000_0000_0000
  }

  function Head(r: Record): (b: seq<byte>)
    ensures |b| == 24
  {
    RecordWidthsAre();
    Pack(RECORD_FIELDS, [SizeOf(r), TAG, COMMIT, 0, r.first, |r.ops|, 0])
  }

  lemma RecordWidthsAre()
    ensures Total(RECORD_FIELDS) == 24 && Len(RECORD_FIELDS) == 7
    ensures Width(RECORD_FIELDS, 0) == 4 && Width(RECORD_FIELDS, 1) == 2 && Width(RECORD_FIELDS, 2) == 1
    ensures Width(RECORD_FIELDS, 3) == 1 && Width(RECORD_FIELDS, 4) == 8 && Width(RECORD_FIELDS, 5) == 4
    ensures Width(RECORD_FIELDS, 6) == 4
  {
  }

  /** The bytes appended for a transaction; `hash` is the checksum function. */
  function Sealed(hash: seq<byte> -> u64, r: Record): seq<byte> {
    Head(r) + LE(hash(Head(r) + EncodeAll(r.ops)), 8) + EncodeAll(r.ops)
  }

  lemma SealedSize(hash: seq<byte> -> u64, r: Record)
    ensures |Sealed(hash, r)| == SizeOf(r) && |EncodeAll(r.ops)| == SizeOf(r) - 32
  {
    EncodedSizes(r.ops);
  }

  datatype Next = Whole(rec: Record) | Torn | Corrupt

  /** The record at the start of `b`: header, checksum, then every op. */
  function ReadRecord(hash: seq<byte> -> u64, utf8: text -> bool, b: seq<byte>): Next {
    RecordWidthsAre();
    if |b| < 32 then Torn
    else
      var v := Fields(RECORD_FIELDS, b[..24]);
      var len := v[0];
      if !(48 <= len <= MAX_RECORD) || len > |b| || v[1] != TAG || v[2] != COMMIT then Torn
      else if hash(b[..24] + b[32..len]) != Num(b[24..32]) then Torn
      else if v[3] != 0 || v[6] != 0 then Corrupt
      else if v[4] == 0 || v[5] == 0 || v[4] + v[5] - 1 >= 0x1_0000_0000_0000_0000 then Corrupt
      else
        var ops := ParseOps(utf8, b[32..len], v[5]);
        if ops.None? then Corrupt else Whole(Record(v[4], ops.value))
  }

  lemma HeadFieldsFit(len: nat, first: nat, count: nat)
    requires len < 0x1_0000_0000 && first < 0x1_0000_0000_0000_0000 && count < 0x1_0000_0000
    ensures Fitting(RECORD_FIELDS, [len, TAG, COMMIT, 0, first, count, 0])
  {
    hide Fitting;
    Powers();
    RecordWidthsAre();
    FitsBounds(RECORD_FIELDS, [len, TAG, COMMIT, 0, first, count, 0]);
  }

  lemma HeadFits(utf8: text -> bool, r: Record)
    requires LegalRecord(utf8, r)
    ensures Fitting(RECORD_FIELDS, [SizeOf(r), TAG, COMMIT, 0, r.first, |r.ops|, 0])
    ensures SizeOf(r) >= 48
  {
    hide AllLegal, Fitting, OpsSize, EncodeAll;
    EncodedSizes(r.ops);
    HeadFieldsFit(SizeOf(r), r.first, |r.ops|);
  }

  lemma SealedParts(hash: seq<byte> -> u64, r: Record, more: seq<byte>)
    ensures var b := Sealed(hash, r) + more;
            && |Sealed(hash, r)| == SizeOf(r) <= |b| && b[..24] == Head(r) && b[32..SizeOf(r)] == EncodeAll(r.ops)
            && Num(b[24..32]) == hash(Head(r) + EncodeAll(r.ops))
  {
    hide EncodeAll, Head;
    SealedSize(hash, r);
    Powers();
    NumOfLE(hash(Head(r) + EncodeAll(r.ops)), 8);
    var b := Sealed(hash, r) + more;
    assert b[24..32] == LE(hash(Head(r) + EncodeAll(r.ops)), 8);
  }

  /** A sealed record is read back whole, whatever follows it. */
  lemma RecordReadsBack(hash: seq<byte> -> u64, utf8: text -> bool, r: Record, more: seq<byte>)
    requires LegalRecord(utf8, r)
    ensures ReadRecord(hash, utf8, Sealed(hash, r) + more) == Whole(r)
  {
    hide Pack, Fields, Fitting, EncodeAll, ParseOps, Sealed, AllLegal;
    RecordWidthsAre();
    SealedParts(hash, r, more);
    HeadFits(utf8, r);
    var b := Sealed(hash, r) + more;
    FieldsOfPack(RECORD_FIELDS, [SizeOf(r), TAG, COMMIT, 0, r.first, |r.ops|, 0], b[..24]);
    OpsReadBack(utf8, r.ops);
  }

  /** Whatever is accepted as a record is the sealed form of a legal one. */
  lemma RecordIsCanonical(hash: seq<byte> -> u64, utf8: text -> bool, b: seq<byte>)
    requires ReadRecord(hash, utf8, b).Whole?
    ensures var r := ReadRecord(hash, utf8, b).rec; LegalRecord(utf8, r) && Sealed(hash, r) <= b
  {
    hide Pack, Fields, Fitting, EncodeAll, ParseOps, AllLegal;
    RecordWidthsAre();
    var v := Fields(RECORD_FIELDS, b[..24]);
    var r := ReadRecord(hash, utf8, b).rec;
    OpsAreCanonical(utf8, b[32..v[0]], v[5]);
    EncodedSizes(r.ops);
    FieldsOfPack(RECORD_FIELDS, v, b[..24]);
    assert v == [SizeOf(r), TAG, COMMIT, 0, r.first, |r.ops|, 0];
    LEOfNum(b[24..32]);
    assert b[..SizeOf(r)] == b[..24] + b[24..32] + b[32..v[0]];
  }

  /** A record cut anywhere short of its end is torn, by its length field alone. */
  lemma PrefixIsTorn(hash: seq<byte> -> u64, utf8: text -> bool, r: Record, cut: nat)
    requires LegalRecord(utf8, r) && cut < SizeOf(r)
    ensures cut <= |Sealed(hash, r)| && ReadRecord(hash, utf8, Sealed(hash, r)[..cut]) == Torn
  {
    hide Pack, Fields, Fitting, EncodeAll, ParseOps, Sealed, AllLegal;
    RecordWidthsAre();
    SealedParts(hash, r, []);
    assert Sealed(hash, r) + [] == Sealed(hash, r);
    if cut >= 32 {
      HeadFits(utf8, r);
      var b := Sealed(hash, r)[..cut];
      assert b[..24] == Sealed(hash, r)[..24];
      FieldsOfPack(RECORD_FIELDS, [SizeOf(r), TAG, COMMIT, 0, r.first, |r.ops|, 0], b[..24]);
    }
  }
}
