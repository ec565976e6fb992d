/** The log by position: where each field of a header, a record and an operation stands, which
    checksum is over what, and which bytes are taken for torn. */
module WalLayout {
  import opened Ops
  import opened ByteCodec
  import opened History
  import opened WalOps
  import opened WalSets
  import opened WalRecord
  import Scan = WalScan

  // ---- the log header ------------------------------------------------------------------------------

  lemma HeaderOffsets()
    ensures Total(Scan.HEADER_FIELDS) == 32 && Len(Scan.HEADER_FIELDS) == 7
    ensures Offset(Scan.HEADER_FIELDS, 0) == 0 && Offset(Scan.HEADER_FIELDS, 1) == 4 && Offset(Scan.HEADER_FIELDS, 5) == 16
  {
  }

  /** A log header is accepted for its magic, its version and its checksum, and for nothing else;
      the generation is the eight bytes at 16. */
  lemma HeaderAccepted(hash: Scan.Hash, b: seq<byte>)
    ensures Scan.ParseHeader(hash, b).Some? <==>
      |b| >= 64 && At4(b, 0) == 0x5750_5247 && At2(b, 4) == 3 && At8(b, 56) == hash(b[..56])
    ensures Scan.ParseHeader(hash, b).Some? ==> Scan.ParseHeader(hash, b).value == At8(b, 16)
  {
    hide Fields, At2, At4, At8;
    if |b| >= 64 {
      Scan.HeaderWidthsAre();
      HeaderOffsets();
      assert b[0..0 + Total(Scan.HEADER_FIELDS)] == b[..32];
      FieldAt(Scan.HEADER_FIELDS, b, 0, 0);
      FieldAt(Scan.HEADER_FIELDS, b, 0, 1);
      FieldAt(Scan.HEADER_FIELDS, b, 0, 5);
      NumEight(b, 56);
    }
  }

  /** So a log whose header is damaged is not read at all. */
  lemma DamagedHeaderIsRefused(hash: Scan.Hash, utf8: Scan.Utf8, b: seq<byte>, b': seq<byte>)
    requires Scan.ParseHeader(hash, b).Some? && |b'| >= 64
    requires b'[56..64] == b[56..64] && hash(b'[..56]) != hash(b[..56])
    ensures Scan.Replay(hash, utf8, b') == None && Scan.CommittedLen(hash, utf8, b') == 0
  {
    hide At2, At4, At8, Scan.ParseHeader, Scan.ScanOf;
    HeaderAccepted(hash, b);
    HeaderAccepted(hash, b');
    NumEight(b, 56);
    NumEight(b', 56);
  }

  // ---- a record ---------------------------------------------------------------------------------------

  lemma RecordOffsets()
    ensures Total(RECORD_FIELDS) == 24 && Len(RECORD_FIELDS) == 7
    ensures Offset(RECORD_FIELDS, 0) == 0 && Offset(RECORD_FIELDS, 1) == 4 && Offset(RECORD_FIELDS, 2) == 6
    ensures Offset(RECORD_FIELDS, 3) == 7 && Offset(RECORD_FIELDS, 4) == 8 && Offset(RECORD_FIELDS, 5) == 16
    ensures Offset(RECORD_FIELDS, 6) == 20
  {
  }

  /** A whole record by its length, tag, flags and checksum; whatever else it says. */
  predicate Checksummed(hash: Scan.Hash, b: seq<byte>) {
    && |b| >= 32
    && var len := At4(b, 0);
       && 48 <= len <= 268_435_456 && len <= |b| && At2(b, 4) == 0x5854 && b[6] == 1
       && At8(b, 24) == hash(b[..24] + b[32..len])
  }

  lemma HeadFields(b: seq<byte>)
    requires |b| >= 32
    ensures Fields(RECORD_FIELDS, b[..24]) == [At4(b, 0), At2(b, 4), b[6] as nat, b[7] as nat, At8(b, 8), At4(b, 16), At4(b, 20)]
  {
    hide Fields, At2, At4, At8;
    RecordWidthsAre();
    RecordOffsets();
    assert b[0..0 + Total(RECORD_FIELDS)] == b[..24];
    FieldAt(RECORD_FIELDS, b, 0, 0);
    FieldAt(RECORD_FIELDS, b, 0, 1);
    FieldAt(RECORD_FIELDS, b, 0, 2);
    FieldAt(RECORD_FIELDS, b, 0, 3);
    FieldAt(RECORD_FIELDS, b, 0, 4);
    FieldAt(RECORD_FIELDS, b, 0, 5);
    FieldAt(RECORD_FIELDS, b, 0, 6);
  }

  /** Bytes are taken for torn, to be cut off by the next committer, exactly when they are short,
      mis-tagged or fail the checksum. What passes it is a whole record or damage that is never
      cut: whole just when it is a legal transaction's record. */
  lemma TornExactly(hash: Scan.Hash, utf8: Scan.Utf8, b: seq<byte>)
    ensures ReadRecord(hash, utf8, b).Torn? <==> !Checksummed(hash, b)
    ensures ReadRecord(hash, utf8, b).Whole? <==> exists r :: LegalRecord(utf8, r) && Sealed(hash, r) <= b
  {
    hide Fields, At2, At4, At8, ParseOps, Sealed, LegalRecord;
    if |b| >= 32 {
      RecordWidthsAre();
      HeadFields(b);
      NumEight(b, 24);
    }
    if ReadRecord(hash, utf8, b).Whole? { RecordIsCanonical(hash, utf8, b); }
    if r :| LegalRecord(utf8, r) && Sealed(hash, r) <= b {
      RecordReadsBack(hash, utf8, r, b[|Sealed(hash, r)|..]);
      assert Sealed(hash, r) + b[|Sealed(hash, r)|..] == b;
    }
  }

  /** The fields of a sealed record, by position. */
  lemma SealedAt(hash: Scan.Hash, utf8: Scan.Utf8, r: Record)
    requires LegalRecord(utf8, r)
    ensures var b := Sealed(hash, r);
            && |b| == SizeOf(r) >= 48
            && At4(b, 0) == SizeOf(r) && At2(b, 4) == 0x5854 && b[6] == 1 && b[7] == 0
            && At8(b, 8) == r.first && At4(b, 16) == |r.ops| && At4(b, 20) == 0
            && At8(b, 24) == hash(b[..24] + b[32..]) && b[32..] == EncodeAll(r.ops)
  {
    hide Fields, At2, At4, At8, Sealed, EncodeAll, Pack, Fitting, LegalRecord;
    SealedParts(hash, r, []);
    var b := Sealed(hash, r);
    assert b + [] == b;
    HeadFits(utf8, r);
    RecordWidthsAre();
    FieldsOfPack(RECORD_FIELDS, [SizeOf(r), TAG, COMMIT, 0, r.first, |r.ops|, 0], b[..24]);
    HeadFields(b);
    NumEight(b, 24);
  }

  // ---- an operation --------------------------------------------------------------------------------------

  lemma OpOffsets()
    ensures Total(OP_HEADER) == 16 && Len(OP_HEADER) == 5
    ensures Offset(OP_HEADER, 0) == 0 && Offset(OP_HEADER, 1) == 4 && Offset(OP_HEADER, 2) == 5
    ensures Offset(OP_HEADER, 3) == 6 && Offset(OP_HEADER, 4) == 8
  {
  }

  /** The header of an op, by position; the body is what follows. */
  lemma OpAt(utf8: Scan.Utf8, op: Op)
    requires Legal(utf8, op)
    ensures var b := Encode(op);
            && |b| == OpSize(op) >= 16 && At4(b, 0) == OpSize(op) && At2(b, 6) == 0 && At8(b, 8) == op.key
            && b[4] == (match op
                        case Upsert(_, _, _, _, _, _, _, _) => 1
                        case Segs(_, _) => 2
                        case Edges(_, _) => 3
                        case Touch(_, _, _, _, _, _, _, _, _, _) => 4
                        case Remove(_) => 5
                        case Pin(_, _) => 6
                        case Attrs(_, _) => 8)
            && b[5] == (if op.Pin? && op.pinned then 1 else 0)
            && b[16..] == Body(op)
  {
    hide Fields, Pack, Fitting, Body, LegalBody, OpSize, At2, At4, At8;
    HeaderWidthsAre();
    OpOffsets();
    EncodedSize(op);
    Powers();
    var b, v := Encode(op), [16 + |Body(op)|, Kind(op) as nat, OpFlags(op), 0, op.key];
    FitsBounds(OP_HEADER, v);
    assert b[..16] == Pack(OP_HEADER, v) && b[16..] == Body(op);
    FieldsOfPack(OP_HEADER, v, b[..16]);
    assert b[0..0 + Total(OP_HEADER)] == b[..16];
    FieldAt(OP_HEADER, b, 0, 0);
    FieldAt(OP_HEADER, b, 0, 1);
    FieldAt(OP_HEADER, b, 0, 2);
    FieldAt(OP_HEADER, b, 0, 3);
    FieldAt(OP_HEADER, b, 0, 4);
  }

  lemma UpsertOffsets()
    ensures Total(UPSERT_FIELDS) == 32 && Len(UPSERT_FIELDS) == 10
    ensures Offset(UPSERT_FIELDS, 0) == 0 && Offset(UPSERT_FIELDS, 1) == 8 && Offset(UPSERT_FIELDS, 2) == 16
    ensures Offset(UPSERT_FIELDS, 3) == 18 && Offset(UPSERT_FIELDS, 5) == 20 && Offset(UPSERT_FIELDS, 6) == 22
    ensures Offset(UPSERT_FIELDS, 7) == 24 && Offset(UPSERT_FIELDS, 8) == 26
  {
  }

  /** An upsert's body: hash, fetch time, node flags, which strings there are and how long, then
      the strings end to end. */
  lemma UpsertAt(utf8: Scan.Utf8, u: Op)
    requires u.Upsert? && LegalBody(utf8, u)
    ensures var b := Body(u);
            && |b| >= 32 && At8(b, 0) == u.hash && At8(b, 8) == u.fetched && At2(b, 16) == u.flags
            && b[18] == (if u.title.Some? then 1 else 0) + (if u.snippet.Some? then 2 else 0) + (if u.etag.Some? then 4 else 0)
            && At2(b, 20) == |u.url| && At2(b, 22) == TextLen(u.title) && At2(b, 24) == TextLen(u.snippet)
            && At2(b, 26) == TextLen(u.etag)
            && b[32..] == u.url + Str(u.title) + Str(u.snippet) + Str(u.etag)
  {
    hide Fields, Pack, Fitting, At2, At4, At8, Total, Len, Offset, Width;
    UpsertWidthsAre();
    UpsertOffsets();
    UpsertFits(u);
    var b, v := Body(u), UpsertValues(u);
    assert b[..32] == Pack(UPSERT_FIELDS, v) && b[32..] == Concat(UpsertTexts(u));
    FourTexts(u.url, Str(u.title), Str(u.snippet), Str(u.etag));
    FieldsOfPack(UPSERT_FIELDS, v, b[..32]);
    assert b[0..0 + Total(UPSERT_FIELDS)] == b[..32];
    FieldAt(UPSERT_FIELDS, b, 0, 0);
    FieldAt(UPSERT_FIELDS, b, 0, 1);
    FieldAt(UPSERT_FIELDS, b, 0, 2);
    FieldAt(UPSERT_FIELDS, b, 0, 3);
    FieldAt(UPSERT_FIELDS, b, 0, 5);
    FieldAt(UPSERT_FIELDS, b, 0, 6);
    FieldAt(UPSERT_FIELDS, b, 0, 7);
    FieldAt(UPSERT_FIELDS, b, 0, 8);
  }

  lemma FourTexts(a: text, b: text, c: text, d: text)
    ensures Concat([a, b, c, d]) == a + b + c + d
  {
    ConcatCons(a, [b, c, d]);
    ConcatCons(b, [c, d]);
    ConcatCons(c, [d]);
    ConcatCons(d, []);
    assert [a] + [b, c, d] == [a, b, c, d] && [b] + [c, d] == [b, c, d] && [c] + [d] == [c, d] && [d] + [] == [d];
    NoTexts();
  }

  lemma TouchOffsets()
    ensures Total(TOUCH_FIELDS) == 40 && Len(TOUCH_FIELDS) == 10
    ensures Offset(TOUCH_FIELDS, 0) == 0 && Offset(TOUCH_FIELDS, 1) == 8 && Offset(TOUCH_FIELDS, 2) == 16
    ensures Offset(TOUCH_FIELDS, 3) == 24 && Offset(TOUCH_FIELDS, 4) == 28 && Offset(TOUCH_FIELDS, 5) == 30
    ensures Offset(TOUCH_FIELDS, 6) == 32 && Offset(TOUCH_FIELDS, 7) == 33 && Offset(TOUCH_FIELDS, 8) == 34
  {
  }

  /** A touch's body: times, hash, interval, counters, outcome, which values there are, the etag. */
  lemma TouchAt(utf8: Scan.Utf8, t: Op)
    requires t.Touch? && LegalBody(utf8, t)
    ensures var b := Body(t);
            && |b| >= 40 && At8(b, 0) == t.checkedAt && At8(b, 8) == (if t.newHash.Some? then t.newHash.value else 0)
            && At8(b, 16) == t.lastChange && At4(b, 24) == t.interval && At2(b, 28) == t.checks && At2(b, 30) == t.changes
            && b[32] == t.outcome
            && b[33] == (if t.newHash.Some? then 1 else 0) + (if t.newEtag.Some? then 2 else 0) + (if t.tombstone then 4 else 0)
            && At2(b, 34) == TextLen(t.newEtag) && b[40..] == Str(t.newEtag)
  {
    hide Fields, Pack, Fitting, At2, At4, At8, Total, Len, Offset, Width, TouchValues, LegalBody;
    TouchPacked(utf8, t);
    TouchWidthsAre();
    TouchOffsets();
    var b := Body(t);
    FieldAt(TOUCH_FIELDS, b, 0, 0);
    FieldAt(TOUCH_FIELDS, b, 0, 1);
    FieldAt(TOUCH_FIELDS, b, 0, 2);
    FieldAt(TOUCH_FIELDS, b, 0, 3);
    FieldAt(TOUCH_FIELDS, b, 0, 4);
    FieldAt(TOUCH_FIELDS, b, 0, 5);
    FieldAt(TOUCH_FIELDS, b, 0, 6);
    FieldAt(TOUCH_FIELDS, b, 0, 7);
    FieldAt(TOUCH_FIELDS, b, 0, 8);
  }

  lemma TouchPacked(utf8: Scan.Utf8, t: Op)
    requires t.Touch? && LegalBody(utf8, t)
    ensures var b := Body(t);
            && |b| >= 40 && b[40..] == Str(t.newEtag) && Total(TOUCH_FIELDS) == 40
            && Fields(TOUCH_FIELDS, b[0..0 + 40])
               == [t.checkedAt as nat, if t.newHash.Some? then t.newHash.value else 0, t.lastChange, t.interval, t.checks, t.changes,
                   t.outcome, (if t.newHash.Some? then 1 else 0) + (if t.newEtag.Some? then 2 else 0) + (if t.tombstone then 4 else 0),
                   TextLen(t.newEtag), 0]
  {
    hide Fields, Pack, Fitting;
    TouchWidthsAre();
    TouchOffsets();
    Powers();
    var b, v := Body(t), TouchValues(t);
    FitsBounds(TOUCH_FIELDS, v);
    assert b[..40] == Pack(TOUCH_FIELDS, v) && b[40..] == Str(t.newEtag);
    FieldsOfPack(TOUCH_FIELDS, v, b[..40]);
    assert b[0..0 + 40] == b[..40];
  }

  /** Rows packed behind `at` bytes are where their widths put them. */
  lemma PackedRow(ws: Layout, rows: seq<seq<nat>>, b: seq<byte>, at: nat, i: nat)
    requires forall j :: 0 <= j < |rows| ==> |rows[j]| == Len(ws) && Fitting(ws, rows[j])
    requires i < |rows| && at <= |b| && PackAll(ws, rows) <= b[at..]
    ensures var p := at + Times(i, Total(ws)); p + Total(ws) <= |b| && Fields(ws, b[p..p + Total(ws)]) == rows[i]
  {
    hide Pack, Unpack, PackAll, UnpackAll, Fitting, Total, Len;
    var packed := PackAll(ws, rows);
    UnpackAllPackAll(ws, rows);
    RowOffset(ws, packed, |rows|, i);
    var o := Times(i, Total(ws));
    assert b[at..][..|packed|] == packed;
    Part(b, at, |packed|, o, Total(ws));
    assert b[at..][..|packed|] == b[at..at + |packed|];
  }

  lemma EntryOffsets()
    ensures Total(EDGE_ENTRY) == 12 && Len(EDGE_ENTRY) == 4 && Offset(EDGE_ENTRY, 0) == 0 && Offset(EDGE_ENTRY, 1) == 8
    ensures Offset(EDGE_ENTRY, 2) == 9 && Offset(EDGE_ENTRY, 3) == 10
    ensures Total(SEG_ENTRY) == 16 && Len(SEG_ENTRY) == 7 && Offset(SEG_ENTRY, 0) == 0 && Offset(SEG_ENTRY, 1) == 4
    ensures Offset(SEG_ENTRY, 2) == 8 && Offset(SEG_ENTRY, 3) == 10 && Offset(SEG_ENTRY, 4) == 12 && Offset(SEG_ENTRY, 5) == 13
    ensures Total(ATTR_ENTRY) == 8 && Len(ATTR_ENTRY) == 3 && Offset(ATTR_ENTRY, 0) == 0 && Offset(ATTR_ENTRY, 2) == 4
    ensures Width(ATTR_ENTRY, 0) == 1 && Width(ATTR_ENTRY, 2) == 4
  {
  }

  /** Entry `i` of an edge set: destination, type, flags, weight. */
  lemma EdgeAt(edges: seq<Edge>, i: nat)
    requires |edges| <= MAX_EDGES && i < |edges|
    ensures var b, at := EdgesBody(edges), 8 + 12 * i;
            && at + 12 <= |b| && At2(b, 0) == |edges|
            && At8(b, at) == edges[i].dst && b[at + 8] == edges[i].etype && b[at + 9] == edges[i].flags
            && At2(b, at + 10) == edges[i].weight
  {
    hide Fields, Pack, PackAll, Fitting, At2, At4, At8;
    Widths();
    EdgeRowsFit(edges);
    EdgeWidthsAre();
    EntryOffsets();
    TimesAre(i);
    Count16Fits(|edges|);
    var b, at := EdgesBody(edges), 8 + 12 * i;
    assert b[..8] == Pack(COUNT16, [|edges|, 0]) && b[8..] == PackAll(EDGE_ENTRY, EdgeRows(edges));
    FieldsOfPack(COUNT16, [|edges|, 0], b[..8]);
    assert b[0..0 + Total(COUNT16)] == b[..8];
    FieldAt(COUNT16, b, 0, 0);
    PackedRow(EDGE_ENTRY, EdgeRows(edges), b, 8, i);
    FieldAt(EDGE_ENTRY, b, at, 0);
    FieldAt(EDGE_ENTRY, b, at, 1);
    FieldAt(EDGE_ENTRY, b, at, 2);
    FieldAt(EDGE_ENTRY, b, at, 3);
  }

  /** Entry `i` of a segment set: range, importance, heading length, depth, flags; the headings
      follow the entries. */
  lemma SegAt(segs: seq<Seg>, i: nat)
    requires |segs| <= MAX_SEGS && (forall j :: 0 <= j < |segs| ==> |segs[j].heading| <= MAX_LABEL) && i < |segs|
    ensures var b, at := SegsBody(segs), 8 + 16 * i;
            && 8 + 16 * |segs| <= |b| && b[0] == |segs|
            && At4(b, at) == segs[i].start && At4(b, at + 4) == segs[i].len && At2(b, at + 8) == segs[i].importance
            && At2(b, at + 10) == |segs[i].heading| && b[at + 12] == segs[i].depth && b[at + 13] == segs[i].flags
            && b[8 + 16 * |segs|..] == Concat(Headings(segs))
  {
    hide Fields, Pack, PackAll, Fitting, Concat, At2, At4, At8, SegsBody, SegRows, Headings, Total, Len, Offset, Width, Times;
    SegParts(segs);
    SegWidthsAre();
    EntryOffsets();
    TimesAre(i);
    var b, at := SegsBody(segs), 8 + 16 * i;
    PackedRow(SEG_ENTRY, SegRows(segs), b, 8, i);
    SegRowIs(segs, i);
    FieldAt(SEG_ENTRY, b, at, 0);
    FieldAt(SEG_ENTRY, b, at, 1);
    FieldAt(SEG_ENTRY, b, at, 2);
    FieldAt(SEG_ENTRY, b, at, 3);
    FieldAt(SEG_ENTRY, b, at, 4);
    FieldAt(SEG_ENTRY, b, at, 5);
  }

  lemma SegRowIs(segs: seq<Seg>, i: nat)
    requires i < |segs|
    ensures var s := segs[i];
            SegRows(segs)[i] == [s.start as nat, s.len, s.importance, |s.heading|, s.depth, s.flags, 0]
  {
  }

  lemma SegParts(segs: seq<Seg>)
    requires |segs| <= MAX_SEGS && forall j :: 0 <= j < |segs| ==> |segs[j].heading| <= MAX_LABEL
    ensures Total(SEG_ENTRY) == 16 && |SegRows(segs)| == |segs|
    ensures forall j :: 0 <= j < |segs| ==> |SegRows(segs)[j]| == Len(SEG_ENTRY) && Fitting(SEG_ENTRY, SegRows(segs)[j])
    ensures var b := SegsBody(segs);
            && 8 + 16 * |segs| <= |b| && b[0] == |segs|
            && PackAll(SEG_ENTRY, SegRows(segs)) <= b[8..] && b[8 + 16 * |segs|..] == Concat(Headings(segs))
  {
    hide Fields, Pack, PackAll, Fitting, Concat, Headings, SegRows;
    Widths();
    SegRowsFit(segs);
    SegWidthsAre();
    TimesAre(|segs|);
    CountFits(|segs|);
    var b := SegsBody(segs);
    var rows := PackAll(SEG_ENTRY, SegRows(segs));
    assert b[..8] == Pack(COUNT8, [|segs|, 0]) && b[8..] == rows + Concat(Headings(segs));
    FieldsOfPack(COUNT8, [|segs|, 0], b[..8]);
    assert b[0..0 + Total(COUNT8)] == b[..8];
    FieldAt(COUNT8, b, 0, 0);
  }

  /** Entry `i` of an attribute set: key and value length; the values follow the entries. */
  lemma AttrAt(attrs: seq<Attr>, i: nat)
    requires |attrs| <= MAX_ATTRS && (forall j :: 0 <= j < |attrs| ==> |attrs[j].value| <= MAX_ATTR_LEN) && i < |attrs|
    ensures var b, at := AttrsBody(attrs), 8 + 8 * i;
            && 8 + 8 * |attrs| <= |b| && b[0] == |attrs| && b[at] == attrs[i].k && At4(b, at + 4) == |attrs[i].value|
            && b[8 + 8 * |attrs|..] == Concat(Values(attrs))
  {
    hide Fields, Pack, PackAll, Fitting, Concat, At2, At4, At8, AttrsBody, AttrRows, Values, Total, Len, Offset, Width, Times;
    AttrParts(attrs);
    EntryOffsets();
    TimesAre(i);
    var b, at := AttrsBody(attrs), 8 + 8 * i;
    PackedRow(ATTR_ENTRY, AttrRows(attrs), b, 8, i);
    AttrRowIs(attrs, i);
    FieldAt(ATTR_ENTRY, b, at, 0);
    FieldAt(ATTR_ENTRY, b, at, 2);
  }

  lemma AttrRowIs(attrs: seq<Attr>, i: nat)
    requires i < |attrs|
    ensures AttrRows(attrs)[i] == [attrs[i].k as nat, 0, |attrs[i].value|]
  {
  }

  lemma AttrParts(attrs: seq<Attr>)
    requires |attrs| <= MAX_ATTRS && forall j :: 0 <= j < |attrs| ==> |attrs[j].value| <= MAX_ATTR_LEN
    ensures Total(ATTR_ENTRY) == 8 && |AttrRows(attrs)| == |attrs|
    ensures forall j :: 0 <= j < |attrs| ==> |AttrRows(attrs)[j]| == Len(ATTR_ENTRY) && Fitting(ATTR_ENTRY, AttrRows(attrs)[j])
    ensures var b := AttrsBody(attrs);
            && 8 + 8 * |attrs| <= |b| && b[0] == |attrs|
            && PackAll(ATTR_ENTRY, AttrRows(attrs)) <= b[8..] && b[8 + 8 * |attrs|..] == Concat(Values(attrs))
  {
    hide Fields, Pack, PackAll, Fitting, Concat, Values, AttrRows;
    Widths();
    AttrRowsFit(attrs);
    AttrWidthsAre();
    TimesAre(|attrs|);
    CountFits(|attrs|);
    var b := AttrsBody(attrs);
    var rows := PackAll(ATTR_ENTRY, AttrRows(attrs));
    assert b[..8] == Pack(COUNT8, [|attrs|, 0]) && b[8..] == rows + Concat(Values(attrs));
    FieldsOfPack(COUNT8, [|attrs|, 0], b[..8]);
    assert b[0..0 + Total(COUNT8)] == b[..8];
    FieldAt(COUNT8, b, 0, 0);
  }

  // ---- what a reader may rely on -------------------------------------------------------------------------

  /** Every text of every op a reader accepts is UTF-8 and within its limit, every set within its
      cap, edges by ascending destination and attributes by ascending key. */
  lemma AcceptedOpsAreSound(utf8: Scan.Utf8, b: seq<byte>)
    requires Parse(utf8, b).Some?
    ensures match Parse(utf8, b).value
            case Upsert(_, _, _, _, url, title, snippet, etag) =>
              && utf8(url) && 1 <= |url| <= 2048
              && (title.Some? ==> utf8(title.value) && |title.value| <= 2048)
              && (snippet.Some? ==> utf8(snippet.value) && |snippet.value| <= 2048)
              && (etag.Some? ==> utf8(etag.value) && |etag.value| <= 2048)
            case Segs(_, segs) =>
              |segs| <= 128 && forall i :: 0 <= i < |segs| ==> utf8(segs[i].heading) && |segs[i].heading| <= 2048
            case Edges(_, edges) =>
              |edges| <= 4096 && forall i, j :: 0 <= i < j < |edges| ==> edges[i].dst < edges[j].dst
            case Touch(_, _, _, _, etag, _, _, _, _, _) => etag.Some? ==> utf8(etag.value) && |etag.value| <= 2048
            case Remove(_) => true
            case Pin(_, _) => true
            case Attrs(_, attrs) =>
              && |attrs| <= 64 && (forall i, j :: 0 <= i < j < |attrs| ==> attrs[i].k < attrs[j].k)
              && forall i :: 0 <= i < |attrs| ==> utf8(attrs[i].value) && |attrs[i].value| <= 262_144
  {
    hide Parse, Encode, OpSize;
    OpIsCanonical(utf8, b);
    var op := Parse(utf8, b).value;
    if op.Upsert? {
      var ts := UpsertTexts(op);
      assert ts[0] in ts && ts[1] in ts && ts[2] in ts && ts[3] in ts;
    }
  }
}
