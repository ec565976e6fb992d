/** The encoding of one operation in the log: a 16-byte header and a body of fixed fields,
    entry rows and texts. The validator accepts exactly the encodings of legal operations,
    and reading one back is the inverse of writing it. */
module WalOps {
  import opened Ops
  import opened ByteCodec

  const MAX_EDGES := 4096
  const MAX_ATTRS := 64
  const MAX_ATTR_LEN := 262_144
  const MAX_LABEL := 2048
  const MAX_SEGS := 128
  /** A maximal attribute set: its fixed fields, 64 entry headers and its value bytes. */
  const MAX_OP := 1_048_246 + 24 + 64 * 8

  // ---- layouts ----------------------------------------------------------------------------------

  /** length, kind, flags, zero, key */
  const OP_HEADER: Layout := W(4, W(1, W(1, W(2, W(8, End)))))
  /** hash, fetched, node flags, present bits, zero, the four string lengths, zero */
  const UPSERT_FIELDS: Layout := W(8, W(8, W(2, W(1, W(1, W(2, W(2, W(2, W(2, W(4, End))))))))))
  /** an 8-bit count, zero */
  const COUNT8: Layout := W(1, W(7, End))
  /** a 16-bit count, zero */
  const COUNT16: Layout := W(2, W(6, End))
  /** start, length, importance, label length, depth, flags, zero */
  const SEG_ENTRY: Layout := W(4, W(4, W(2, W(2, W(1, W(1, W(2, End)))))))
  /** destination, type, flags, weight */
  const EDGE_ENTRY: Layout := W(8, W(1, W(1, W(2, End))))
  /** checked at, hash, last change, interval, checks, changes, outcome, bits, etag length, zero */
  const TOUCH_FIELDS: Layout := W(8, W(8, W(8, W(4, W(2, W(2, W(1, W(1, W(2, W(4, End))))))))))
  /** key, zero, value length */
  const ATTR_ENTRY: Layout := W(1, W(3, W(4, End)))

  lemma Widths()
    ensures Total(OP_HEADER) == 16 && Total(UPSERT_FIELDS) == 32 && Total(COUNT8) == 8 && Total(COUNT16) == 8
    ensures Total(SEG_ENTRY) == 16 && Total(EDGE_ENTRY) == 12 && Total(TOUCH_FIELDS) == 40 && Total(ATTR_ENTRY) == 8
  {
  }

  // ---- writing an operation ----------------------------------------------------------------------

  function Str(t: Option<text>): text { if t.Some? then t.value else [] }

  function Bit(t: Option<text>, bit: nat): nat { if t.Some? then bit else 0 }

  function Kind(op: Op): byte {
    match op
    case Upsert(_, _, _, _, _, _, _, _) => 1
    case Segs(_, _) => 2
    case Edges(_, _) => 3
    case Touch(_, _, _, _, _, _, _, _, _, _) => 4
    case Remove(_) => 5
    case Pin(_, _) => 6
    case Attrs(_, _) => 8
  }

  function UpsertTexts(u: Op): seq<text>
    requires u.Upsert?
  {
    [u.url, Str(u.title), Str(u.snippet), Str(u.etag)]
  }

  function UpsertValues(u: Op): (vs: seq<nat>)
    requires u.Upsert?
    ensures |vs| == Len(UPSERT_FIELDS)
  {
    [u.hash as nat, u.fetched, u.flags, Bit(u.title, 1) + Bit(u.snippet, 2) + Bit(u.etag, 4), 0,
     |u.url|, |Str(u.title)|, |Str(u.snippet)|, |Str(u.etag)|, 0]
  }

  function UpsertBody(u: Op): seq<byte>
    requires u.Upsert?
  {
    Pack(UPSERT_FIELDS, UpsertValues(u)) + Concat(UpsertTexts(u))
  }

  function Headings(segs: seq<Seg>): seq<text> { seq(|segs|, i requires 0 <= i < |segs| => segs[i].heading) }

  function SegRows(segs: seq<Seg>): (rows: seq<seq<nat>>)
    ensures forall i :: 0 <= i < |rows| ==> |rows[i]| == Len(SEG_ENTRY)
  {
    seq(|segs|, i requires 0 <= i < |segs| =>
      var s := segs[i];
      [s.start as nat, s.len, s.importance, |s.heading|, s.depth, s.flags, 0])
  }

  function SegsBody(segs: seq<Seg>): seq<byte> {
    Pack(COUNT8, [|segs|, 0]) + PackAll(SEG_ENTRY, SegRows(segs)) + Concat(Headings(segs))
  }

  function EdgeRows(edges: seq<Edge>): (rows: seq<seq<nat>>)
    ensures forall i :: 0 <= i < |rows| ==> |rows[i]| == Len(EDGE_ENTRY)
  {
    seq(|edges|, i requires 0 <= i < |edges| =>
      [edges[i].dst as nat, edges[i].etype, edges[i].flags, edges[i].weight])
  }

  function EdgesBody(edges: seq<Edge>): seq<byte> {
    Pack(COUNT16, [|edges|, 0]) + PackAll(EDGE_ENTRY, EdgeRows(edges))
  }

  function TouchValues(t: Op): (vs: seq<nat>)
    requires t.Touch?
    ensures |vs| == Len(TOUCH_FIELDS)
  {
    [t.checkedAt as nat, if t.newHash.Some? then t.newHash.value else 0, t.lastChange, t.interval, t.checks, t.changes,
     t.outcome, (if t.newHash.Some? then 1 else 0) + Bit(t.newEtag, 2) + (if t.tombstone then 4 else 0),
     |Str(t.newEtag)|, 0]
  }

  function TouchBody(t: Op): seq<byte>
    requires t.Touch?
  {
    Pack(TOUCH_FIELDS, TouchValues(t)) + Str(t.newEtag)
  }

  function Values(attrs: seq<Attr>): seq<text> { seq(|attrs|, i requires 0 <= i < |attrs| => attrs[i].value) }

  function AttrRows(attrs: seq<Attr>): (rows: seq<seq<nat>>)
    ensures forall i :: 0 <= i < |rows| ==> |rows[i]| == Len(ATTR_ENTRY)
  {
    seq(|attrs|, i requires 0 <= i < |attrs| => [attrs[i].k as nat, 0, |attrs[i].value|])
  }

  function AttrsBody(attrs: seq<Attr>): seq<byte> {
    Pack(COUNT8, [|attrs|, 0]) + PackAll(ATTR_ENTRY, AttrRows(attrs)) + Concat(Values(attrs))
  }

  function Body(op: Op): seq<byte> {
    match op
    case Upsert(_, _, _, _, _, _, _, _) => UpsertBody(op)
    case Segs(_, segs) => SegsBody(segs)
    case Edges(_, edges) => EdgesBody(edges)
    case Touch(_, _, _, _, _, _, _, _, _, _) => TouchBody(op)
    case Remove(_) => []
    case Pin(_, _) => []
    case Attrs(_, attrs) => AttrsBody(attrs)
  }

  function OpFlags(op: Op): byte { if op.Pin? && op.pinned then 1 else 0 }

  function Encode(op: Op): seq<byte> {
    Pack(OP_HEADER, [16 + |Body(op)|, Kind(op), OpFlags(op), 0, op.key]) + Body(op)
  }

  // ---- the rules ------------------------------------------------------------------------------------

  /** A text that may be stored: UTF-8, at most `max` bytes. */
  predicate Label(utf8: text -> bool, t: text, max: nat) { |t| <= max && utf8(t) }

  ghost predicate LegalBody(utf8: text -> bool, op: Op) {
    match op
    case Upsert(_, _, _, _, url, title, snippet, etag) =>
      url != [] && forall t :: t in UpsertTexts(op) ==> Label(utf8, t, MAX_LABEL)
    case Segs(_, segs) =>
      |segs| <= MAX_SEGS && forall i :: 0 <= i < |segs| ==> Label(utf8, segs[i].heading, MAX_LABEL)
    case Edges(_, edges) => |edges| <= MAX_EDGES && Ascending(edges)
    case Touch(_, _, _, _, newEtag, _, _, _, _, _) => Label(utf8, Str(newEtag), MAX_LABEL)
    case Remove(_) => true
    case Pin(_, _) => true
    case Attrs(_, attrs) =>
      && |attrs| <= MAX_ATTRS && KeysAscend(attrs)
      && forall i :: 0 <= i < |attrs| ==> Label(utf8, attrs[i].value, MAX_ATTR_LEN)
  }

  predicate KeysAscend(attrs: seq<Attr>) { forall i, j :: 0 <= i < j < |attrs| ==> attrs[i].k < attrs[j].k }

  /** What the encoders accept. */
  ghost predicate Legal(utf8: text -> bool, op: Op) { LegalBody(utf8, op) && OpSize(op) <= MAX_OP }

  // ---- reading an operation ---------------------------------------------------------------------------

  predicate HasTitle(present: nat) { present in {1, 3, 5, 7} }
  predicate HasSnippet(present: nat) { present in {2, 3, 6, 7} }
  predicate HasEtag(present: nat) { present >= 4 }

  /** The fixed fields of an upsert: known bits only, lengths in range, none for an absent string. */
  predicate UpsertFieldsOk(v: seq<nat>)
    requires |v| == Len(UPSERT_FIELDS)
  {
    && v[3] < 8 && v[4] == 0 && v[9] == 0
    && 0 < v[5] <= MAX_LABEL && v[6] <= MAX_LABEL && v[7] <= MAX_LABEL && v[8] <= MAX_LABEL
    && (!HasTitle(v[3]) ==> v[6] == 0) && (!HasSnippet(v[3]) ==> v[7] == 0) && (!HasEtag(v[3]) ==> v[8] == 0)
  }

  function Optional(present: bool, t: text): Option<text> { if present then Some(t) else None }

  function ParseUpsert(utf8: text -> bool, key: u64, body: seq<byte>): (r: Option<Op>)
    ensures r.Some? ==> r.value.Upsert? && r.value.key == key
  {
    Widths();
    if |body| < 32 then None
    else
      var v, rest := Fields(UPSERT_FIELDS, body[..32]), body[32..];
      if !UpsertFieldsOk(v) then None
      else
        var lens := [v[5], v[6], v[7], v[8]];
        if Sum(lens) != |rest| then None
        else
          var ts := Split(rest, lens);
          if exists t :: t in ts && !utf8(t) then None
          else
            UpsertWidths(v);
            Some(Upsert(key, v[0], v[1], v[2], ts[0], Optional(HasTitle(v[3]), ts[1]),
                        Optional(HasSnippet(v[3]), ts[2]), Optional(HasEtag(v[3]), ts[3])))
  }

  lemma UpsertWidths(v: seq<nat>)
    requires Fitting(UPSERT_FIELDS, v)
    ensures |v| == Len(UPSERT_FIELDS) && v[0] < 0x1_0000_0000_0000_0000 && v[1] < 0x1_0000_0000_0000_0000 && v[2] < 0x1_0000
  {
    FieldBounds(UPSERT_FIELDS, v);
    Powers();
    assert Width(UPSERT_FIELDS, 0) == 8 && Width(UPSERT_FIELDS, 1) == 8 && Width(UPSERT_FIELDS, 2) == 2;
  }

  lemma UpsertWidthsAre()
    ensures Len(UPSERT_FIELDS) == 10
    ensures Width(UPSERT_FIELDS, 0) == 8 && Width(UPSERT_FIELDS, 1) == 8 && Width(UPSERT_FIELDS, 2) == 2
    ensures Width(UPSERT_FIELDS, 3) == 1 && Width(UPSERT_FIELDS, 4) == 1 && Width(UPSERT_FIELDS, 5) == 2
    ensures Width(UPSERT_FIELDS, 6) == 2 && Width(UPSERT_FIELDS, 7) == 2 && Width(UPSERT_FIELDS, 8) == 2
    ensures Width(UPSERT_FIELDS, 9) == 4
  {
  }

  lemma UpsertFits(u: Op)
    requires u.Upsert? && forall t :: t in UpsertTexts(u) ==> |t| <= MAX_LABEL
    ensures Fitting(UPSERT_FIELDS, UpsertValues(u))
  {
    Powers();
    UpsertWidthsAre();
    assert u.url in UpsertTexts(u) && Str(u.title) in UpsertTexts(u) && Str(u.snippet) in UpsertTexts(u) && Str(u.etag) in UpsertTexts(u);
    FitsBounds(UPSERT_FIELDS, UpsertValues(u));
  }

  lemma UpsertReadsBack(utf8: text -> bool, u: Op)
    requires u.Upsert? && LegalBody(utf8, u)
    ensures ParseUpsert(utf8, u.key, UpsertBody(u)) == Some(u)
  {
    hide Pack, Fields, Fitting, Split, Sum, Concat;
    Widths();
    var body, v, ts := UpsertBody(u), UpsertValues(u), UpsertTexts(u);
    UpsertFits(u);
    assert body[..32] == Pack(UPSERT_FIELDS, v) && body[32..] == Concat(ts);
    FieldsOfPack(UPSERT_FIELDS, v, body[..32]);
    SplitConcat(ts);
    assert Lens(ts) == [v[5], v[6], v[7], v[8]];
  }

  lemma UpsertIsCanonical(utf8: text -> bool, key: u64, body: seq<byte>)
    requires ParseUpsert(utf8, key, body).Some?
    ensures var u := ParseUpsert(utf8, key, body).value; LegalBody(utf8, u) && UpsertBody(u) == body
  {
    hide Pack, Fields, Fitting, Split, Sum, Concat;
    Widths();
    var v, rest := Fields(UPSERT_FIELDS, body[..32]), body[32..];
    var u := ParseUpsert(utf8, key, body).value;
    var lens := [v[5], v[6], v[7], v[8]];
    ConcatSplit(rest, lens);
    var ts := Split(rest, lens);
    assert |ts[0]| == v[5] && |ts[1]| == v[6] && |ts[2]| == v[7] && |ts[3]| == v[8] by {
      assert Lens(ts)[0] == lens[0] && Lens(ts)[1] == lens[1] && Lens(ts)[2] == lens[2] && Lens(ts)[3] == lens[3];
    }
    assert UpsertTexts(u) == ts;
    assert UpsertValues(u) == v;
    FieldsOfPack(UPSERT_FIELDS, v, body[..32]);
    assert body == body[..32] + rest;
  }

  // ---- touches ------------------------------------------------------------------------------------------

  /** The fixed fields of a touch: known bits only, no value for what is absent. */
  predicate TouchFieldsOk(v: seq<nat>, tail: nat)
    requires |v| == Len(TOUCH_FIELDS)
  {
    && v[7] < 8 && v[9] == 0 && (v[7] !in {1, 3, 5, 7} ==> v[1] == 0) && (v[7] !in {2, 3, 6, 7} ==> v[8] == 0)
    && v[8] <= MAX_LABEL && v[8] == tail
  }

  lemma TouchWidthsAre()
    ensures Len(TOUCH_FIELDS) == 10
    ensures Width(TOUCH_FIELDS, 0) == 8 && Width(TOUCH_FIELDS, 1) == 8 && Width(TOUCH_FIELDS, 2) == 8
    ensures Width(TOUCH_FIELDS, 3) == 4 && Width(TOUCH_FIELDS, 4) == 2 && Width(TOUCH_FIELDS, 5) == 2
    ensures Width(TOUCH_FIELDS, 6) == 1 && Width(TOUCH_FIELDS, 7) == 1 && Width(TOUCH_FIELDS, 8) == 2
    ensures Width(TOUCH_FIELDS, 9) == 4
  {
  }

  lemma TouchWidths(v: seq<nat>)
    requires Fitting(TOUCH_FIELDS, v)
    ensures |v| == Len(TOUCH_FIELDS)
    ensures v[0] < 0x1_0000_0000_0000_0000 && v[1] < 0x1_0000_0000_0000_0000 && v[2] < 0x1_0000_0000_0000_0000
    ensures v[3] < 0x1_0000_0000 && v[4] < 0x1_0000 && v[5] < 0x1_0000 && v[6] < 0x100
  {
    FieldBounds(TOUCH_FIELDS, v);
    Powers();
    TouchWidthsAre();
  }

  function ParseTouch(utf8: text -> bool, key: u64, body: seq<byte>): (r: Option<Op>)
    ensures r.Some? ==> r.value.Touch? && r.value.key == key
  {
    Widths();
    if |body| < 40 then None
    else
      var v, tail := Fields(TOUCH_FIELDS, body[..40]), body[40..];
      if !TouchFieldsOk(v, |tail|) || !utf8(tail) then None
      else
        TouchWidths(v);
        Some(Touch(key, v[0], v[6], if v[7] in {1, 3, 5, 7} then Some(v[1]) else None,
                   Optional(v[7] in {2, 3, 6, 7}, tail), v[3], v[4], v[5], v[2], v[7] >= 4))
  }

  lemma TouchReadsBack(utf8: text -> bool, t: Op)
    requires t.Touch? && LegalBody(utf8, t)
    ensures ParseTouch(utf8, t.key, TouchBody(t)) == Some(t)
  {
    hide Pack, Fields, Fitting;
    Widths();
    Powers();
    TouchWidthsAre();
    var body, v := TouchBody(t), TouchValues(t);
    FitsBounds(TOUCH_FIELDS, v);
    assert body[..40] == Pack(TOUCH_FIELDS, v) && body[40..] == Str(t.newEtag);
    FieldsOfPack(TOUCH_FIELDS, v, body[..40]);
  }

  lemma TouchIsCanonical(utf8: text -> bool, key: u64, body: seq<byte>)
    requires ParseTouch(utf8, key, body).Some?
    ensures var t := ParseTouch(utf8, key, body).value; LegalBody(utf8, t) && TouchBody(t) == body
  {
    hide Pack, Fields, Fitting;
    Widths();
    var v, tail := Fields(TOUCH_FIELDS, body[..40]), body[40..];
    var t := ParseTouch(utf8, key, body).value;
    assert Str(t.newEtag) == tail;
    assert TouchValues(t) == v;
    FieldsOfPack(TOUCH_FIELDS, v, body[..40]);
    assert body == body[..40] + tail;
  }

  lemma SizeOfUpsert(u: Op)
    requires u.Upsert?
    ensures 16 + |UpsertBody(u)| == OpSize(u)
  {
    hide Pack;
    Widths();
    var ts := UpsertTexts(u);
    assert ts[1..][1..][1..] == [Str(u.etag)] && ts[1..][1..] == [Str(u.snippet), Str(u.etag)];
    assert [Str(u.etag)][1..] == [];
    assert Concat([Str(u.etag)]) == Str(u.etag) + Concat([]);
    assert Concat(ts[1..][1..]) == Str(u.snippet) + Concat([Str(u.etag)]);
    assert Concat(ts[1..]) == Str(u.title) + Concat(ts[1..][1..]);
  }

  lemma SizeOfTouch(t: Op)
    requires t.Touch?
    ensures 16 + |TouchBody(t)| == OpSize(t)
  {
    hide Pack;
    Widths();
  }
}
