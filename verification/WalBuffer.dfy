/** The encoder: a transaction's operations, encoded in place as they are staged and sealed
    into one record at commit. What was staged is what a reader of the record gets. */
module WalBuffer {
  import opened Ops
  import opened ByteCodec
  import opened History
  import opened WalOps
  import opened WalRecord

  /** A segment as a caller describes it. */
  datatype SegmentRecord = SegmentRecord(heading: text, range: Option<(u32, u32)>, depth: byte, importance: u16)

  /** How it is stored: depth at least 1, a missing byte range flagged. */
  function Stored(s: SegmentRecord): Seg {
    var depth: byte := if s.depth == 0 then 1 else s.depth;
    match s.range
    case Some((start, len)) => Seg(start, len, s.importance, depth, 0, s.heading)
    case None => Seg(0, 0, s.importance, depth, 1, s.heading)
  }

  function StoredAll(segs: seq<SegmentRecord>): (r: seq<Seg>)
    ensures |r| == |segs|
  {
    seq(|segs|, i requires 0 <= i < |segs| => Stored(segs[i]))
  }

  /** A keyed attribute whose value is three parts end to end. */
  datatype Parts = Parts(k: byte, first: text, second: text, third: text)

  function Joined(a: Parts): Attr { Attr(a.k, a.first + a.second + a.third) }

  function JoinedAll(attrs: seq<Parts>): (r: seq<Attr>)
    ensures |r| == |attrs|
  {
    seq(|attrs|, i requires 0 <= i < |attrs| => Joined(attrs[i]))
  }

  lemma PackAllStep(ws: Layout, rows: seq<seq<nat>>)
    requires rows != [] && forall j :: 0 <= j < |rows| ==> |rows[j]| == Len(ws)
    ensures PackAll(ws, rows) == Pack(ws, rows[0]) + PackAll(ws, rows[1..]) && PackAll(ws, []) == []
  {
    hide Pack;
  }

  lemma {:induction false} PackAllSnoc(ws: Layout, rows: seq<seq<nat>>, i: nat)
    requires i < |rows| && forall j :: 0 <= j < |rows| ==> |rows[j]| == Len(ws)
    ensures PackAll(ws, rows[..i + 1]) == PackAll(ws, rows[..i]) + Pack(ws, rows[i])
    decreases i
  {
    hide Pack, PackAll, Len, Total, Times;
    PackAllStep(ws, rows[..i + 1]);
    if i == 0 {
      assert rows[..1][1..] == [] && rows[..0] == [];
    } else {
      PackAllSnoc(ws, rows[1..], i - 1);
      PackAllStep(ws, rows[..i]);
      assert rows[..i + 1][1..] == rows[1..][..i] && rows[..i][1..] == rows[1..][..i - 1];
    }
  }

  lemma {:induction false} ConcatSnoc(ts: seq<text>, i: nat)
    requires i < |ts|
    ensures Concat(ts[..i + 1]) == Concat(ts[..i]) + ts[i]
    decreases i
  {
    if i == 0 {
      assert ts[..1] == [ts[0]] && ts[..1][1..] == [] && ts[..0] == [];
    } else {
      ConcatSnoc(ts[1..], i - 1);
      assert ts[..i + 1][1..] == ts[1..][..i] && ts[..i][1..] == ts[1..][..i - 1];
    }
  }

  /** A position to truncate back to. */
  datatype Mark = Mark(len: nat, ops: nat)

  function MarkOf(staged: seq<Op>): Mark {
    Mark(if staged == [] then 0 else 32 + |EncodeAll(staged)|, |staged|)
  }

  function OpHead(len: nat, op: Op): (b: seq<byte>)
    ensures |b| == 16
  {
    HeaderWidthsAre();
    Pack(OP_HEADER, [len, Kind(op), OpFlags(op), 0, op.key])
  }

  /** The length field, patched in once the body is there, makes the encoding. */
  lemma Patched(op: Op)
    ensures LE(16 + |Body(op)|, 4) + OpHead(0, op)[4..] + Body(op) == Encode(op)
  {
    hide Body, Kind, OpFlags;
    HeaderWidthsAre();
    var n := 16 + |Body(op)|;
    assert OpHead(n, op) == LE(n, 4) + OpHead(n, op)[4..];
    assert OpHead(0, op)[4..] == OpHead(n, op)[4..] by {
      assert [0, Kind(op) as nat, OpFlags(op), 0, op.key][1..] == [n, Kind(op) as nat, OpFlags(op), 0, op.key][1..];
    }
  }

  lemma KeptPrefix(kept: seq<Op>, staged: seq<Op>)
    requires kept <= staged
    ensures |EncodeAll(kept)| <= |EncodeAll(staged)| && EncodeAll(staged)[..|EncodeAll(kept)|] == EncodeAll(kept)
  {
    hide Encode;
    if kept != [] {
      KeptPrefix(kept[1..], staged[1..]);
    }
  }

  /** An upsert is refused for its string lengths and nothing else. */
  lemma UpsertLegal(utf8: text -> bool, u: Op)
    requires u.Upsert? && forall t :: t in UpsertTexts(u) ==> utf8(t)
    ensures Legal(utf8, u) <==>
      u.url != [] && |u.url| <= MAX_LABEL && |Str(u.title)| <= MAX_LABEL && |Str(u.snippet)| <= MAX_LABEL && |Str(u.etag)| <= MAX_LABEL
  {
    var ts := UpsertTexts(u);
    assert ts[0] == u.url && ts[1] == Str(u.title) && ts[2] == Str(u.snippet) && ts[3] == Str(u.etag);
    assert u.url in ts && Str(u.title) in ts && Str(u.snippet) in ts && Str(u.etag) in ts;
  }

  /** Keys, counts and lengths, in one pass over the attributes. */
  method CheckParts(ghost utf8: text -> bool, ghost key: u64, attrs: seq<Parts>) returns (ok: bool)
    requires forall i :: 0 <= i < |attrs| ==> utf8(Joined(attrs[i]).value)
    ensures ok == Legal(utf8, Attrs(key, JoinedAll(attrs)))
  {
    hide Legal, ValueBytes;
    ghost var joined := JoinedAll(attrs);
    AttrsLegal(utf8, key, joined);
    if |attrs| > MAX_ATTRS {
      return false;
    }
    var total := 0;
    var prev: Option<byte> := None;
    NoValues();
    for i := 0 to |attrs|
      invariant prev == if i == 0 then None else Some(joined[i - 1].k)
      invariant KeysAscend(joined[..i]) && total == ValueBytes(joined[..i])
      invariant forall j :: 0 <= j < i ==> |joined[j].value| <= MAX_ATTR_LEN
    {
      if prev.Some? && prev.value >= attrs[i].k {
        assert joined[i - 1].k >= joined[i].k;
        return false;
      }
      prev := Some(attrs[i].k);
      var len := |attrs[i].first| + |attrs[i].second| + |attrs[i].third|;
      assert |joined[i].value| == len;
      if len > MAX_ATTR_LEN {
        return false;
      }
      total := total + len;
      ValuesSnoc(joined, i);
      AscendSnoc(joined, i);
    }
    assert joined[..|attrs|] == joined;
    return 24 + 8 * |attrs| + total <= MAX_OP;
  }

  class RecordBuf {
    var buf: seq<byte>
    var ops: nat
    /** What has been staged. */
    ghost var staged: seq<Op>
    ghost const utf8: text -> bool

    ghost predicate Valid()
      reads this
    {
      && ops == |staged| && AllLegal(utf8, staged)
      && if staged == [] then buf == [] else |buf| >= 32 && buf[32..] == EncodeAll(staged)
    }

    constructor (ghost utf8: text -> bool)
      ensures Valid() && staged == [] && this.utf8 == utf8
    {
      buf, ops, staged, this.utf8 := [], 0, [], utf8;
    }

    method Position() returns (m: Mark)
      requires Valid()
      ensures m == MarkOf(staged)
    {
      hide EncodeAll;
      return Mark(|buf|, ops);
    }

    /** Drop every op staged after a mark. */
    method Truncate(m: Mark, ghost kept: seq<Op>)
      requires Valid() && kept <= staged && m == MarkOf(kept)
      modifies this
      ensures Valid() && staged == kept
    {
      hide EncodeAll, Legal;
      KeptPrefix(kept, staged);
      if m.ops == 0 {
        buf, ops := [], 0;
      } else if m.len <= |buf| && m.ops <= ops {
        assert buf[..m.len][32..] == buf[32..][..m.len - 32];
        buf, ops := buf[..m.len], m.ops;
      }
      staged := kept;
    }

    /** Append an op's header, its length still to come; the record header first, if need be. */
    method Begin(ghost op: Op, kind: byte, flags: byte, key: u64) returns (at: nat)
      requires Valid() && kind == Kind(op) && flags == OpFlags(op) && key == op.key
      modifies this`buf
      ensures 32 <= at <= |buf| && buf[32..at] == EncodeAll(staged) && buf[at..] == OpHead(0, op)
    {
      hide Encode;
      HeaderWidthsAre();
      if |buf| == 0 {
        buf := Zeros(32);
      }
      at := |buf|;
      buf := buf + Pack(OP_HEADER, [0, kind, flags, 0, key as nat]);
    }

    /** Append bytes to the op begun at `at`. */
    method Put(bytes: seq<byte>, ghost at: nat)
      requires 32 <= at <= |buf|
      modifies this`buf
      ensures at <= |buf| && buf[32..at] == old(buf[32..at]) && buf[at..] == old(buf[at..]) + bytes
    {
      buf := buf + bytes;
    }

    /** Patch the length in: the op is staged. */
    method Finish(at: nat, ghost op: Op)
      requires 32 <= at <= |buf| && buf[at..] == OpHead(0, op) + Body(op)
      requires ops == |staged| && AllLegal(utf8, staged) && Legal(utf8, op)
      requires buf[32..at] == EncodeAll(staged)
      modifies this
      ensures Valid() && staged == old(staged) + [op]
    {
      hide EncodeAll, Legal, Encode, OpHead, Body;
      var len := |buf| - at;
      assert buf[at + 4..] == OpHead(0, op)[4..] + Body(op) by {
        assert buf[at + 4..] == buf[at..][4..];
      }
      Patched(op);
      ghost var done := buf[..at];
      buf := buf[..at] + LE(len, 4) + buf[at + 4..];
      assert buf == done + Encode(op);
      assert buf[32..] == done[32..] + Encode(op) && done[32..] == old(buf)[32..at];
      EncodeAllSnoc(staged, op);
      ops := ops + 1;
      staged := staged + [op];
    }

    method PushRemove(key: u64)
      requires Valid()
      modifies this
      ensures Valid() && staged == old(staged) + [Remove(key)]
    {
      hide EncodeAll, OpHead;
      var at := Begin(Remove(key), 5, 0, key);
      Finish(at, Remove(key));
    }

    method PushPin(key: u64, pinned: bool)
      requires Valid()
      modifies this
      ensures Valid() && staged == old(staged) + [Pin(key, pinned)]
    {
      hide EncodeAll, OpHead;
      var at := Begin(Pin(key, pinned), 6, if pinned then 1 else 0, key);
      Finish(at, Pin(key, pinned));
    }

    /** Stage a node create or replace, or refuse it. */
    method PushUpsert(u: Op) returns (ok: bool)
      requires Valid() && u.Upsert? && forall t :: t in UpsertTexts(u) ==> utf8(t)
      modifies this
      ensures Valid() && ok == Legal(utf8, u) && staged == if ok then old(staged) + [u] else old(staged)
    {
      hide EncodeAll, OpHead, Pack, Concat, Legal;
      UpsertLegal(utf8, u);
      if u.url == [] || |u.url| > MAX_LABEL || |Str(u.title)| > MAX_LABEL || |Str(u.snippet)| > MAX_LABEL
         || |Str(u.etag)| > MAX_LABEL
      {
        return false;
      }
      var at := Begin(u, 1, 0, u.key);
      Put(Pack(UPSERT_FIELDS, UpsertValues(u)), at);
      PutTexts(UpsertTexts(u), at);
      assert buf[at..] == OpHead(0, u) + Body(u);
      Finish(at, u);
      return true;
    }

    /** Stage a revalidation outcome, or refuse it. */
    method PushTouch(t: Op) returns (ok: bool)
      requires Valid() && t.Touch? && utf8(Str(t.newEtag))
      modifies this
      ensures Valid() && ok == Legal(utf8, t) && staged == if ok then old(staged) + [t] else old(staged)
    {
      hide EncodeAll, OpHead, Pack;
      if |Str(t.newEtag)| > MAX_LABEL {
        return false;
      }
      var at := Begin(t, 4, 0, t.key);
      Put(Pack(TOUCH_FIELDS, TouchValues(t)), at);
      Put(Str(t.newEtag), at);
      assert buf[at..] == OpHead(0, t) + Body(t);
      Finish(at, t);
      return true;
    }

    /** Append the entry rows of a set, one by one. */
    method PutRows(ws: Layout, rows: seq<seq<nat>>, ghost at: nat)
      requires 32 <= at <= |buf| && forall i :: 0 <= i < |rows| ==> |rows[i]| == Len(ws)
      modifies this`buf
      ensures at <= |buf| && buf[32..at] == old(buf[32..at]) && buf[at..] == old(buf[at..]) + PackAll(ws, rows)
    {
      hide PackAll, Pack;
      NoRows(ws);
      for i := 0 to |rows|
        invariant at <= |buf| && buf[32..at] == old(buf[32..at])
        invariant buf[at..] == old(buf[at..]) + PackAll(ws, rows[..i])
      {
        PackAllSnoc(ws, rows, i);
        Put(Pack(ws, rows[i]), at);
      }
      assert rows[..|rows|] == rows;
    }

    /** Append the texts of a set, one by one. */
    method PutTexts(ts: seq<text>, ghost at: nat)
      requires 32 <= at <= |buf|
      modifies this`buf
      ensures at <= |buf| && buf[32..at] == old(buf[32..at]) && buf[at..] == old(buf[at..]) + Concat(ts)
    {
      hide Concat;
      NoRows(End);
      for i := 0 to |ts|
        invariant at <= |buf| && buf[32..at] == old(buf[32..at])
        invariant buf[at..] == old(buf[at..]) + Concat(ts[..i])
      {
        ConcatSnoc(ts, i);
        Put(ts[i], at);
      }
      assert ts[..|ts|] == ts;
    }

    /** Stage a whole-set segment replacement, or refuse it. */
    method PushSegments(key: u64, segs: seq<SegmentRecord>) returns (ok: bool)
      requires Valid() && forall i :: 0 <= i < |segs| ==> utf8(segs[i].heading)
      modifies this
      ensures Valid() && ok == Legal(utf8, Segs(key, StoredAll(segs)))
      ensures staged == if ok then old(staged) + [Segs(key, StoredAll(segs))] else old(staged)
    {
      hide EncodeAll, OpHead, Pack, PackAll, Concat, Legal, SegRows, Headings;
      var stored := StoredAll(segs);
      SegsLegal(utf8, key, stored);
      if |segs| > MAX_SEGS {
        return false;
      }
      for i := 0 to |segs|
        invariant forall j :: 0 <= j < i ==> |segs[j].heading| <= MAX_LABEL
        invariant Valid() && staged == old(staged)
      {
        if |segs[i].heading| > MAX_LABEL {
          assert |stored[i].heading| > MAX_LABEL;
          return false;
        }
      }
      var at := Begin(Segs(key, stored), 2, 0, key);
      Put(Pack(COUNT8, [|segs|, 0]), at);
      PutRows(SEG_ENTRY, SegRows(stored), at);
      PutTexts(Headings(stored), at);
      assert buf[at..] == OpHead(0, Segs(key, stored)) + Body(Segs(key, stored));
      Finish(at, Segs(key, stored));
      return true;
    }

    /** Stage a whole-set edge replacement; destinations must strictly ascend. */
    method PushEdges(key: u64, edges: seq<Edge>) returns (ok: bool)
      requires Valid()
      modifies this
      ensures Valid() && ok == Legal(utf8, Edges(key, edges))
      ensures staged == if ok then old(staged) + [Edges(key, edges)] else old(staged)
    {
      hide EncodeAll, OpHead, Pack, PackAll, Legal, EdgeRows;
      EdgesLegal(utf8, key, edges);
      if |edges| > MAX_EDGES {
        return false;
      }
      var i := 1;
      while i < |edges|
        invariant 1 <= i && (i <= |edges| || |edges| == 0)
        invariant forall j, k :: 0 <= j < k < i && k < |edges| ==> edges[j].dst < edges[k].dst
        invariant Valid() && staged == old(staged)
      {
        if edges[i - 1].dst >= edges[i].dst {
          return false;
        }
        i := i + 1;
      }
      var at := Begin(Edges(key, edges), 3, 0, key);
      Put(Pack(COUNT16, [|edges|, 0]), at);
      PutRows(EDGE_ENTRY, EdgeRows(edges), at);
      assert buf[at..] == OpHead(0, Edges(key, edges)) + Body(Edges(key, edges));
      Finish(at, Edges(key, edges));
      return true;
    }

    /** Stage a whole-set attribute replacement, each value in three parts, or refuse it. */
    method PushAttrParts(key: u64, attrs: seq<Parts>) returns (ok: bool)
      requires Valid() && forall i :: 0 <= i < |attrs| ==> utf8(Joined(attrs[i]).value)
      modifies this
      ensures Valid() && ok == Legal(utf8, Attrs(key, JoinedAll(attrs)))
      ensures staged == if ok then old(staged) + [Attrs(key, JoinedAll(attrs))] else old(staged)
    {
      hide EncodeAll, OpHead, Pack, PackAll, Concat, Legal, AttrRows;
      var joined := JoinedAll(attrs);
      ok := CheckParts(utf8, key, attrs);
      if !ok {
        return;
      }
      var at := Begin(Attrs(key, joined), 8, 0, key);
      Put(Pack(COUNT8, [|attrs|, 0]), at);
      PutRows(ATTR_ENTRY, AttrRows(joined), at);
      PutParts(attrs, at);
      assert buf[at..] == OpHead(0, Attrs(key, joined)) + Body(Attrs(key, joined));
      Finish(at, Attrs(key, joined));
    }

    /** Append three parts a value, with nothing assembled first. */
    method PutParts(attrs: seq<Parts>, ghost at: nat)
      requires 32 <= at <= |buf|
      modifies this`buf
      ensures at <= |buf| && buf[32..at] == old(buf[32..at]) && buf[at..] == old(buf[at..]) + Concat(Values(JoinedAll(attrs)))
    {
      hide Concat;
      ghost var ts := Values(JoinedAll(attrs));
      NoRows(End);
      for i := 0 to |attrs|
        invariant at <= |buf| && buf[32..at] == old(buf[32..at])
        invariant buf[at..] == old(buf[at..]) + Concat(ts[..i])
      {
        ConcatSnoc(ts, i);
        Put(attrs[i].first, at);
        Put(attrs[i].second, at);
        Put(attrs[i].third, at);
      }
      assert ts[..|ts|] == ts;
    }

    /** Seal what is staged into one record, its ops numbered from `first`; refused, with
        nothing changed, when there is none, it is too large or the numbers run out. */
    method Seal(hash: seq<byte> -> u64, first: u64) returns (ok: bool)
      requires Valid()
      modifies this`buf
      ensures Valid()
      ensures ok == LegalRecord(utf8, Record(first, staged))
      ensures if ok then buf == Sealed(hash, Record(first, staged)) else buf == old(buf)
    {
      hide EncodeAll, Pack, OpsSize, Legal;
      ghost var r := Record(first, staged);
      EncodedSizes(staged);
      if ops == 0 || |buf| > MAX_RECORD || first == 0 || first + ops - 1 >= 0x1_0000_0000_0000_0000 {
        return false;
      }
      RecordWidthsAre();
      var head := Pack(RECORD_FIELDS, [|buf|, TAG, COMMIT, 0, first as nat, ops, 0]);
      var body := buf[32..];
      buf := head + LE(hash(head + body), 8) + body;
      return true;
    }
  }

  lemma NoRows(ws: Layout)
    ensures PackAll(ws, []) == [] && Concat([]) == []
  {
  }

  lemma NoValues()
    ensures ValueBytes([]) == 0
  {
  }

  lemma {:induction false} ValuesSnoc(attrs: seq<Attr>, i: nat)
    requires i < |attrs|
    ensures ValueBytes(attrs[..i + 1]) == ValueBytes(attrs[..i]) + |attrs[i].value|
    decreases i
  {
    if i == 0 {
      assert attrs[..1] == [attrs[0]] && attrs[..1][1..] == [] && attrs[..0] == [];
    } else {
      ValuesSnoc(attrs[1..], i - 1);
      assert attrs[..i + 1][1..] == attrs[1..][..i] && attrs[..i][1..] == attrs[1..][..i - 1];
    }
  }

  lemma AscendSnoc(attrs: seq<Attr>, i: nat)
    requires i < |attrs| && KeysAscend(attrs[..i]) && (i > 0 ==> attrs[i - 1].k < attrs[i].k)
    ensures KeysAscend(attrs[..i + 1])
  {
    forall j, k | 0 <= j < k < i + 1 ensures attrs[j].k < attrs[k].k {
      if k < i { assert attrs[..i][j].k < attrs[..i][k].k; }
      else if j < i - 1 { assert attrs[..i][j].k < attrs[..i][i - 1].k; }
    }
  }

  lemma {:induction false} LabelsBound(segs: seq<Seg>)
    requires forall i :: 0 <= i < |segs| ==> |segs[i].heading| <= MAX_LABEL
    ensures LabelBytes(segs) <= MAX_LABEL * |segs|
  {
    if segs != [] { LabelsBound(segs[1..]); }
  }

  lemma SegsLegal(utf8: text -> bool, key: u64, segs: seq<Seg>)
    requires forall i :: 0 <= i < |segs| ==> utf8(segs[i].heading)
    ensures Legal(utf8, Segs(key, segs)) <==>
      |segs| <= MAX_SEGS && forall i :: 0 <= i < |segs| ==> |segs[i].heading| <= MAX_LABEL
  {
    if forall i :: 0 <= i < |segs| ==> |segs[i].heading| <= MAX_LABEL { LabelsBound(segs); }
  }

  lemma EdgesLegal(utf8: text -> bool, key: u64, edges: seq<Edge>)
    ensures Legal(utf8, Edges(key, edges)) <==> |edges| <= MAX_EDGES && Ascending(edges)
  {
  }

  lemma AttrsLegal(utf8: text -> bool, key: u64, attrs: seq<Attr>)
    requires forall i :: 0 <= i < |attrs| ==> utf8(attrs[i].value)
    ensures Legal(utf8, Attrs(key, attrs)) <==>
      && |attrs| <= MAX_ATTRS && KeysAscend(attrs) && 24 + 8 * |attrs| + ValueBytes(attrs) <= MAX_OP
      && forall i :: 0 <= i < |attrs| ==> |attrs[i].value| <= MAX_ATTR_LEN
  {
  }
}
