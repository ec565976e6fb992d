/** The record sections of a base file as bytes: their layouts, the checks made once when a
    file is opened, and what those checks are for: every later read is in bounds. */
module BaseFile {
  import opened Ops
  import opened ByteCodec
  import opened Csr
  import opened T = Tables
  import I = InEdges

  type Utf8 = text -> bool

  /** key, hash, fetched, last change, the four label offsets, then `NODE_TAIL` */
  const NODE: Layout := W(8, W(8, W(8, W(8, W(4, W(4, W(4, W(4, NODE_TAIL))))))))
  /** first segment, segment count, flags, interval, checks, changes, in-degree, zero */
  const NODE_TAIL: Layout := W(4, W(2, W(2, W(4, W(2, W(2, W(4, W(4, End))))))))
  /** key, start, length, label offset, importance, depth, flags */
  const SEG: Layout := W(8, W(4, W(4, W(4, W(2, W(1, W(1, End)))))))
  /** node, type, flags, weight */
  const EDGE: Layout := W(4, W(1, W(1, W(2, End))))
  /** key, zero, offset, length */
  const ATTR: Layout := W(1, W(3, W(4, W(4, End))))
  /** hash, frequency, postings offset and length, label offset */
  const LEX: Layout := W(8, W(4, W(4, W(4, W(4, End)))))
  /** trigram, offset, length */
  const TRI: Layout := W(4, W(4, W(4, End)))
  const WORD: Layout := W(4, End)

  lemma TailWidths()
    ensures Total(NODE_TAIL) == 24 && Len(NODE_TAIL) == 8
    ensures Width(NODE_TAIL, 0) == 4 && Width(NODE_TAIL, 1) == 2 && Width(NODE_TAIL, 2) == 2 && Width(NODE_TAIL, 3) == 4
    ensures Width(NODE_TAIL, 4) == 2 && Width(NODE_TAIL, 5) == 2 && Width(NODE_TAIL, 6) == 4 && Width(NODE_TAIL, 7) == 4
  {
  }

  lemma TailOffsets()
    ensures Len(NODE_TAIL) == 8
    ensures Offset(NODE_TAIL, 0) == 0 && Offset(NODE_TAIL, 1) == 4 && Offset(NODE_TAIL, 2) == 6 && Offset(NODE_TAIL, 3) == 8
    ensures Offset(NODE_TAIL, 4) == 12 && Offset(NODE_TAIL, 5) == 14 && Offset(NODE_TAIL, 6) == 16
  {
  }

  /** The first eight fields of a node record, and how the rest follow. */
  lemma NodeLayout(i: nat)
    requires i < 16
    ensures Total(NODE) == 72 && Len(NODE) == 16 && Len(NODE_TAIL) == 8
    ensures i < 4 ==> Width(NODE, i) == 8 && Offset(NODE, i) == 8 * i
    ensures 4 <= i < 8 ==> Width(NODE, i) == 4 && Offset(NODE, i) == 32 + 4 * (i - 4)
    ensures i >= 8 ==> Width(NODE, i) == Width(NODE_TAIL, i - 8) && Offset(NODE, i) == 48 + Offset(NODE_TAIL, i - 8)
  {
    TailWidths();
    hide Total, Len;
    assert Total(NODE) == 72 && Len(NODE) == 16 by { HeadLayout(); }
    var f2, f4, f6 := NODE.rest.rest, NODE.rest.rest.rest.rest, NODE.rest.rest.rest.rest.rest.rest;
    if i >= 8 {
      TwoOn(NODE, i);
      TwoOn(f2, i - 2);
      TwoOn(f4, i - 4);
      TwoOn(f6, i - 6);
    }
  }

  lemma HeadLayout()
    ensures Total(NODE) == 72 && Len(NODE) == 16
  {
    TailWidths();
    TotalTwo(NODE.rest.rest.rest.rest.rest.rest);
    TotalTwo(NODE.rest.rest.rest.rest);
    TotalTwo(NODE.rest.rest);
    TotalTwo(NODE);
  }

  lemma TotalTwo(ws: Layout)
    requires ws.W? && ws.rest.W?
    ensures Total(ws) == ws.w + ws.rest.w + Total(ws.rest.rest) && Len(ws) == 2 + Len(ws.rest.rest)
  {
  }

  lemma TwoOn(ws: Layout, i: nat)
    requires ws.W? && ws.rest.W? && 2 <= i < Len(ws)
    ensures i - 2 < Len(ws.rest.rest)
    ensures Width(ws, i) == Width(ws.rest.rest, i - 2) && Offset(ws, i) == ws.w + ws.rest.w + Offset(ws.rest.rest, i - 2)
  {
  }

  /** Record widths follow from the layouts. */
  lemma RecordOffsets()
    ensures Total(NODE) == 72 && Total(SEG) == 24 && Total(EDGE) == 8 && Total(ATTR) == 12 && Total(LEX) == 24
    ensures Total(TRI) == 12 && Total(WORD) == 4
    ensures Len(NODE) == 16 && Len(SEG) == 7 && Len(EDGE) == 4 && Len(ATTR) == 4 && Len(LEX) == 5 && Len(TRI) == 3 && Len(WORD) == 1
  {
    HeadLayout();
    hide Offset, Width;
  }

  /** And so do the accessors' own offsets: the last fields of a node record. */
  lemma NodeOffsets()
    ensures Len(NODE) == 16
    ensures Offset(NODE, 4) == 32 && Offset(NODE, 7) == 44 && Offset(NODE, 8) == 48 && Offset(NODE, 9) == 52
    ensures Offset(NODE, 10) == 54 && Offset(NODE, 11) == 56 && Offset(NODE, 12) == 60 && Offset(NODE, 13) == 62
    ensures Offset(NODE, 14) == 64
  {
    hide Total, Len, Offset, Width;
    TailOffsets();
    NodeLayout(4);
    NodeLayout(7);
    NodeLayout(8);
    NodeLayout(9);
    NodeLayout(10);
    NodeLayout(11);
    NodeLayout(12);
    NodeLayout(13);
    NodeLayout(14);
  }

  datatype Header = Header(nodes: nat, segs: nat, edges: nat, tokens: nat)

  datatype Sections = Sections(
    nodes: seq<byte>, segs: seq<byte>, edgeIndex: seq<byte>, edges: seq<byte>, labels: seq<byte>,
    lexicon: seq<byte>, postings: seq<byte>, ranks: seq<byte>, inIndex: seq<byte>, inEdges: seq<byte>,
    attrIndex: seq<byte>, attrs: seq<byte>, blobs: seq<byte>, order: seq<byte>, tri: seq<byte>, post: seq<byte>)

  lemma {:induction false} Multiples(n: nat)
    ensures Times(n, 4) == 4 * n && Times(n, 8) == 8 * n && Times(n, 12) == 12 * n && Times(n, 24) == 24 * n && Times(n, 72) == 72 * n
  {
    if n > 0 { Multiples(n - 1); }
  }

  // ---- the checks, said outright -------------------------------------------------------------------

  predicate LabelOk(utf8: Utf8, labels: seq<byte>, off: nat) {
    LabelFits(labels, off) && (off == NO_LABEL || utf8(labels[off + 2..off + 2 + PrefixAt(labels, off)]))
  }

  function Words(b: seq<byte>, n: nat): (ws: seq<nat>)
    requires |b| == 4 * n
    ensures |ws| == n
  {
    Multiples(n);
    RecordOffsets();
    var rows := Rows(WORD, b, n);
    seq(n, i requires 0 <= i < n => rows[i][0])
  }

  predicate NodeOk(utf8: Utf8, h: Header, labels: seq<byte>, v: seq<nat>)
    requires |v| == 16
  {
    && LabelOk(utf8, labels, v[4]) && LabelOk(utf8, labels, v[5]) && LabelOk(utf8, labels, v[6]) && LabelOk(utf8, labels, v[7])
    && v[8] + v[9] <= h.segs
  }

  /** A monotone index that ends at the record count. */
  predicate Monotone(ws: seq<nat>, n: nat, total: nat) {
    |ws| == n + 1 && ws[n] == total && forall i, j :: 0 <= i <= j <= n ==> ws[i] <= ws[j]
  }

  predicate CsrOk(b: seq<byte>, n: nat, total: nat) {
    (b == [] && total == 0) || (|b| == 4 * (n + 1) && Monotone(Words(b, n + 1), n, total))
  }

  predicate AttrOk(utf8: Utf8, blobs: seq<byte>, v: seq<nat>)
    requires |v| == 4
  {
    v[1] == 0 && v[2] + v[3] <= |blobs| && utf8(blobs[v[2]..v[2] + v[3]])
  }

  predicate TriOk(tokens: nat, post: seq<nat>, v: seq<nat>)
    requires |v| == 3
  {
    v[1] + v[2] <= |post| && forall i :: v[1] <= i < v[1] + v[2] ==> post[i] < tokens
  }

  predicate LexOk(utf8: Utf8, labels: seq<byte>, postings: nat, v: seq<nat>)
    requires |v| == 5
  {
    v[2] + v[3] <= postings && LabelOk(utf8, labels, v[4])
  }

  predicate Lengths(h: Header, s: Sections) {
    && |s.nodes| == 72 * h.nodes && |s.segs| == 24 * h.segs && |s.edges| == 8 * h.edges && |s.lexicon| == 24 * h.tokens
    && (h.nodes > 0 ==> |s.edgeIndex| == 4 * (h.nodes + 1) && |s.ranks| == 2 * h.nodes && |s.inEdges| == 8 * h.edges)
    && (h.nodes > 0 ==> |s.attrs| % 12 == 0)
    && |s.order| == 4 * h.tokens && |s.tri| % 12 == 0 && |s.post| % 4 == 0
  }

  function NodeRows(h: Header, s: Sections): (rows: seq<seq<nat>>)
    requires Lengths(h, s)
    ensures |rows| == h.nodes && forall i :: 0 <= i < |rows| ==> |rows[i]| == 16 && Fitting(NODE, rows[i])
  {
    Multiples(h.nodes);
    RecordOffsets();
    Rows(NODE, s.nodes, h.nodes)
  }

  function SegRows(h: Header, s: Sections): (rows: seq<seq<nat>>)
    requires Lengths(h, s)
    ensures |rows| == h.segs && forall i :: 0 <= i < |rows| ==> |rows[i]| == 7 && Fitting(SEG, rows[i])
  {
    Multiples(h.segs);
    RecordOffsets();
    Rows(SEG, s.segs, h.segs)
  }

  function EdgeRowsOf(b: seq<byte>, n: nat): (rows: seq<seq<nat>>)
    requires |b| == 8 * n
    ensures |rows| == n && forall i :: 0 <= i < |rows| ==> |rows[i]| == 4 && Fitting(EDGE, rows[i])
  {
    Multiples(n);
    RecordOffsets();
    Rows(EDGE, b, n)
  }

  function AttrRowsOf(b: seq<byte>): (rows: seq<seq<nat>>)
    requires |b| % 12 == 0
    ensures |rows| == |b| / 12 && forall i :: 0 <= i < |rows| ==> |rows[i]| == 4 && Fitting(ATTR, rows[i])
  {
    Multiples(|b| / 12);
    RecordOffsets();
    Rows(ATTR, b, |b| / 12)
  }

  function LexRows(h: Header, s: Sections): (rows: seq<seq<nat>>)
    requires Lengths(h, s)
    ensures |rows| == h.tokens && forall i :: 0 <= i < |rows| ==> |rows[i]| == 5 && Fitting(LEX, rows[i])
  {
    Multiples(h.tokens);
    RecordOffsets();
    Rows(LEX, s.lexicon, h.tokens)
  }

  function TriRows(b: seq<byte>): (rows: seq<seq<nat>>)
    requires |b| % 12 == 0
    ensures |rows| == |b| / 12 && forall i :: 0 <= i < |rows| ==> |rows[i]| == 3 && Fitting(TRI, rows[i])
  {
    Multiples(|b| / 12);
    RecordOffsets();
    Rows(TRI, b, |b| / 12)
  }

  function Post(s: Sections): seq<nat>
    requires |s.post| % 4 == 0
  {
    Words(s.post, |s.post| / 4)
  }

  /** First column strictly ascending: what binary searches rely on. */
  predicate FirstAscends(rows: seq<seq<nat>>)
    requires forall i :: 0 <= i < |rows| ==> |rows[i]| > 0
  {
    forall i, j :: 0 <= i < j < |rows| ==> rows[i][0] < rows[j][0]
  }

  ghost predicate GraphOk(utf8: Utf8, h: Header, s: Sections)
    requires Lengths(h, s)
  {
    && (forall i :: 0 <= i < h.nodes ==> NodeOk(utf8, h, s.labels, NodeRows(h, s)[i]))
    && (forall i :: 0 <= i < h.segs ==> LabelOk(utf8, s.labels, SegRows(h, s)[i][3]))
    && (h.nodes > 0 ==>
          && Monotone(Words(s.edgeIndex, h.nodes + 1), h.nodes, h.edges)
          && (forall i :: 0 <= i < h.edges ==> EdgeRowsOf(s.edges, h.edges)[i][0] < h.nodes)
          && CsrOk(s.inIndex, h.nodes, h.edges)
          && (forall i :: 0 <= i < h.edges ==> EdgeRowsOf(s.inEdges, h.edges)[i][0] < h.nodes)
          && CsrOk(s.attrIndex, h.nodes, |s.attrs| / 12)
          && (forall i :: 0 <= i < |s.attrs| / 12 ==> AttrOk(utf8, s.blobs, AttrRowsOf(s.attrs)[i])))
    && FirstAscends(NodeRows(h, s))
  }

  ghost predicate LexiconOk(utf8: Utf8, h: Header, s: Sections)
    requires Lengths(h, s)
  {
    && (forall i :: 0 <= i < h.tokens ==> Words(s.order, h.tokens)[i] < h.tokens)
    && (forall i :: 0 <= i < |s.tri| / 12 ==> TriOk(h.tokens, Post(s), TriRows(s.tri)[i]))
    && (forall i :: 0 <= i < h.tokens ==> LexOk(utf8, s.labels, |s.postings|, LexRows(h, s)[i]))
    && FirstAscends(LexRows(h, s))
  }

  // ---- the checks, as they run ------------------------------------------------------------------------

  /** Strictly ascending first fields, in one pass. */
  method CheckAscends(rows: seq<seq<nat>>) returns (ok: bool)
    requires forall i :: 0 <= i < |rows| ==> |rows[i]| > 0
    ensures ok <==> FirstAscends(rows)
  {
    var prev: Option<nat> := None;
    for i := 0 to |rows|
      invariant prev == if i == 0 then None else Some(rows[i - 1][0])
      invariant forall j, k :: 0 <= j < k < i ==> rows[j][0] < rows[k][0]
    {
      if prev.Some? && rows[i][0] <= prev.value {
        assert !(rows[i - 1][0] < rows[i][0]);
        return false;
      }
      prev := Some(rows[i][0]);
    }
    return true;
  }

  /** A monotone index in one pass, ending at the record count. */
  method CheckMonotone(ws: seq<nat>, n: nat, total: nat) returns (ok: bool)
    requires |ws| == n + 1
    ensures ok <==> Monotone(ws, n, total)
  {
    var prev := 0;
    for i := 0 to n + 1
      invariant prev == if i == 0 then 0 else ws[i - 1]
      invariant prev <= total && forall j, k :: 0 <= j <= k < i ==> ws[j] <= ws[k]
    {
      if ws[i] < prev || ws[i] > total {
        if i > 0 && ws[i] < prev { assert !(ws[i - 1] <= ws[i]); }
        return false;
      }
      prev := ws[i];
    }
    return prev == total;
  }

  /** A run of node ids, all in range. */
  method CheckNodeIds(rows: seq<seq<nat>>, n: nat) returns (ok: bool)
    requires forall i :: 0 <= i < |rows| ==> |rows[i]| == 4
    ensures ok <==> forall i :: 0 <= i < |rows| ==> rows[i][0] < n
  {
    for i := 0 to |rows|
      invariant forall j :: 0 <= j < i ==> rows[j][0] < n
    {
      if rows[i][0] >= n {
        return false;
      }
    }
    return true;
  }

  /** The graph's records: labels, segment runs, edges, inbound edges, attributes, key order. */
  method CheckGraph(utf8: Utf8, h: Header, s: Sections) returns (ok: bool)
    requires Lengths(h, s)
    ensures ok <==> GraphOk(utf8, h, s)
  {
    hide LabelOk, Monotone, FirstAscends, Words, AttrOk;
    var nodes, segs := NodeRows(h, s), SegRows(h, s);
    for i := 0 to h.nodes
      invariant forall j :: 0 <= j < i ==> NodeOk(utf8, h, s.labels, nodes[j])
    {
      if !NodeOk(utf8, h, s.labels, nodes[i]) {
        return false;
      }
    }
    for i := 0 to h.segs
      invariant forall j :: 0 <= j < i ==> LabelOk(utf8, s.labels, segs[j][3])
    {
      if !LabelOk(utf8, s.labels, segs[i][3]) {
        return false;
      }
    }
    if h.nodes > 0 {
      var linked := CheckLinks(utf8, h, s);
      if !linked {
        return false;
      }
    }
    ok := CheckAscends(nodes);
  }

  method CheckCsr(b: seq<byte>, n: nat, total: nat) returns (ok: bool)
    ensures ok <==> CsrOk(b, n, total)
  {
    hide Monotone, Words;
    if |b| == 0 && total == 0 {
      return true;
    }
    if |b| != 4 * (n + 1) {
      return false;
    }
    ok := CheckMonotone(Words(b, n + 1), n, total);
  }

  method CheckLinks(utf8: Utf8, h: Header, s: Sections) returns (ok: bool)
    requires Lengths(h, s) && h.nodes > 0
    ensures ok <==>
      && Monotone(Words(s.edgeIndex, h.nodes + 1), h.nodes, h.edges)
      && (forall i :: 0 <= i < h.edges ==> EdgeRowsOf(s.edges, h.edges)[i][0] < h.nodes)
      && CsrOk(s.inIndex, h.nodes, h.edges)
      && (forall i :: 0 <= i < h.edges ==> EdgeRowsOf(s.inEdges, h.edges)[i][0] < h.nodes)
      && CsrOk(s.attrIndex, h.nodes, |s.attrs| / 12)
      && (forall i :: 0 <= i < |s.attrs| / 12 ==> AttrOk(utf8, s.blobs, AttrRowsOf(s.attrs)[i]))
  {
    hide Monotone, Words, CsrOk, AttrOk;
    ok := CheckMonotone(Words(s.edgeIndex, h.nodes + 1), h.nodes, h.edges);
    if !ok { return; }
    ok := CheckNodeIds(EdgeRowsOf(s.edges, h.edges), h.nodes);
    if !ok { return; }
    ok := CheckCsr(s.inIndex, h.nodes, h.edges);
    if !ok { return; }
    ok := CheckNodeIds(EdgeRowsOf(s.inEdges, h.edges), h.nodes);
    if !ok { return; }
    ok := CheckCsr(s.attrIndex, h.nodes, |s.attrs| / 12);
    if !ok { return; }
    var attrs := AttrRowsOf(s.attrs);
    for i := 0 to |attrs|
      invariant forall j :: 0 <= j < i ==> AttrOk(utf8, s.blobs, attrs[j])
    {
      if !AttrOk(utf8, s.blobs, attrs[i]) {
        return false;
      }
    }
  }

  /** The search indices: ids name tokens, runs lie in their heaps, hashes ascend. */
  method CheckLexicon(utf8: Utf8, h: Header, s: Sections) returns (ok: bool)
    requires Lengths(h, s)
    ensures ok <==> LexiconOk(utf8, h, s)
  {
    hide Words, TriOk, LexOk, FirstAscends;
    var order, tri, lex := Words(s.order, h.tokens), TriRows(s.tri), LexRows(h, s);
    for i := 0 to h.tokens
      invariant forall j :: 0 <= j < i ==> order[j] < h.tokens
    {
      if order[i] >= h.tokens {
        return false;
      }
    }
    for i := 0 to |tri|
      invariant forall j :: 0 <= j < i ==> TriOk(h.tokens, Post(s), tri[j])
    {
      if !TriOk(h.tokens, Post(s), tri[i]) {
        return false;
      }
    }
    for i := 0 to h.tokens
      invariant forall j :: 0 <= j < i ==> LexOk(utf8, s.labels, |s.postings|, lex[j])
    {
      if !LexOk(utf8, s.labels, |s.postings|, lex[i]) {
        return false;
      }
    }
    ok := CheckAscends(lex);
  }

  /** Everything checked when a base is opened. */
  method CheckCounts(utf8: Utf8, h: Header, s: Sections) returns (ok: bool)
    ensures ok <==> Lengths(h, s) && GraphOk(utf8, h, s) && LexiconOk(utf8, h, s)
  {
    hide GraphOk, LexiconOk;
    if !Lengths(h, s) {
      return false;
    }
    ok := CheckGraph(utf8, h, s);
    if ok {
      ok := CheckLexicon(utf8, h, s);
    }
  }

  // ---- what the checks are for ------------------------------------------------------------------------------

  function NodeOf(v: seq<nat>): NodeRow
    requires |v| == 16 && Fitting(NODE, v)
  {
    NodeWidths(v);
    NodeRow(v[0], v[1], v[2], v[3], v[4], v[5], v[6], v[7], v[8], v[9], v[10], v[11], v[12], v[13], v[14])
  }

  lemma NodeWidths(v: seq<nat>)
    requires Fitting(NODE, v)
    ensures |v| == 16
    ensures v[0] < 0x1_0000_0000_0000_0000 && v[1] < 0x1_0000_0000_0000_0000 && v[2] < 0x1_0000_0000_0000_0000
    ensures v[3] < 0x1_0000_0000_0000_0000 && v[10] < 0x1_0000 && v[11] < 0x1_0000_0000 && v[12] < 0x1_0000 && v[13] < 0x1_0000
  {
    FieldBounds(NODE, v);
    Powers();
    NodeWidthsAre();
  }

  lemma NodeWidthsAre()
    ensures Len(NODE) == 16
    ensures Width(NODE, 0) == 8 && Width(NODE, 1) == 8 && Width(NODE, 2) == 8 && Width(NODE, 3) == 8
    ensures Width(NODE, 4) == 4 && Width(NODE, 5) == 4 && Width(NODE, 6) == 4 && Width(NODE, 7) == 4 && Width(NODE, 8) == 4
    ensures Width(NODE, 9) == 2 && Width(NODE, 10) == 2 && Width(NODE, 11) == 4 && Width(NODE, 12) == 2 && Width(NODE, 13) == 2
    ensures Width(NODE, 14) == 4 && Width(NODE, 15) == 4
  {
    hide Total, Len, Offset, Width;
    TailWidths();
    NodeLayout(0);
    NodeLayout(1);
    NodeLayout(2);
    NodeLayout(3);
    NodeLayout(4);
    NodeLayout(5);
    NodeLayout(6);
    NodeLayout(7);
    NodeLayout(8);
    NodeLayout(9);
    NodeLayout(10);
    NodeLayout(11);
    NodeLayout(12);
    NodeLayout(13);
    NodeLayout(14);
    NodeLayout(15);
  }

  lemma OtherWidthsAre()
    ensures Len(SEG) == 7 && Len(EDGE) == 4 && Len(ATTR) == 4
    ensures Width(SEG, 0) == 8 && Width(SEG, 1) == 4 && Width(SEG, 2) == 4 && Width(SEG, 3) == 4 && Width(SEG, 4) == 2
    ensures Width(SEG, 5) == 1 && Width(SEG, 6) == 1
    ensures Width(EDGE, 0) == 4 && Width(EDGE, 1) == 1 && Width(EDGE, 2) == 1 && Width(EDGE, 3) == 2
    ensures Width(ATTR, 0) == 1 && Width(ATTR, 1) == 3 && Width(ATTR, 2) == 4 && Width(ATTR, 3) == 4
  {
  }

  function SegRowOf(v: seq<nat>): SegRow
    requires |v| == 7 && Fitting(SEG, v)
  {
    FieldBounds(SEG, v);
    Powers();
    OtherWidthsAre();
    SegRow(v[0], v[1], v[2], v[3], v[4], v[5], v[6])
  }

  function EdgeRecOf(v: seq<nat>): EdgeRec
    requires |v| == 4 && Fitting(EDGE, v)
  {
    FieldBounds(EDGE, v);
    Powers();
    OtherWidthsAre();
    EdgeRec(v[0], v[1], v[2], v[3])
  }

  function AttrRowOf(v: seq<nat>): AttrRow
    requires |v| == 4 && Fitting(ATTR, v)
  {
    FieldBounds(ATTR, v);
    Powers();
    OtherWidthsAre();
    AttrRow(v[0], v[2], v[3])
  }

  function IndexOf(b: seq<byte>): seq<nat> { if |b| % 4 == 0 then Words(b, |b| / 4) else [] }

  /** The record tables a base's accessors read; edge and attribute sections mean nothing
      in a base without nodes. */
  function TablesOf(h: Header, s: Sections): T.Tables
    requires Lengths(h, s)
  {
    var edges := if h.nodes == 0 then [] else EdgeRowsOf(s.edges, h.edges);
    var inEdges := if h.nodes == 0 then [] else EdgeRowsOf(s.inEdges, h.edges);
    var attrs := if h.nodes == 0 then [] else AttrRowsOf(s.attrs);
    T.Tables.Tables(
      seq(h.nodes, i requires 0 <= i < h.nodes => NodeOf(NodeRows(h, s)[i])),
      seq(h.segs, i requires 0 <= i < h.segs => SegRowOf(SegRows(h, s)[i])),
      s.labels,
      IndexOf(s.edgeIndex), seq(|edges|, i requires 0 <= i < |edges| => EdgeRecOf(edges[i])),
      IndexOf(s.inIndex), seq(|inEdges|, i requires 0 <= i < |inEdges| => EdgeRecOf(inEdges[i])),
      IndexOf(s.attrIndex), seq(|attrs|, i requires 0 <= i < |attrs| => AttrRowOf(attrs[i])),
      s.blobs)
  }

  lemma CsrFits(b: seq<byte>, n: nat, total: nat)
    requires CsrOk(b, n, total)
    ensures IndexFits(IndexOf(b), n, total)
  {
  }

  lemma NodeInBounds(utf8: Utf8, h: Header, labels: seq<byte>, v: seq<nat>)
    requires |v| == 16 && Fitting(NODE, v) && NodeOk(utf8, h, labels, v)
    ensures var r := NodeOf(v);
            && LabelFits(labels, r.urlOff) && LabelFits(labels, r.titleOff)
            && LabelFits(labels, r.snippetOff) && LabelFits(labels, r.etagOff)
            && r.segStart + r.segCount <= h.segs && r.key as nat == v[0]
  {
    hide LabelFits, PrefixAt, Fitting;
  }

  lemma SegInBounds(utf8: Utf8, labels: seq<byte>, v: seq<nat>)
    requires |v| == 7 && Fitting(SEG, v) && LabelOk(utf8, labels, v[3])
    ensures LabelFits(labels, SegRowOf(v).headingOff)
  {
    hide LabelFits, PrefixAt, Fitting;
  }

  lemma AttrInBounds(utf8: Utf8, blobs: seq<byte>, v: seq<nat>)
    requires |v| == 4 && Fitting(ATTR, v) && AttrOk(utf8, blobs, v)
    ensures AttrRowOf(v).off + AttrRowOf(v).len <= |blobs|
  {
    hide Fitting;
  }

  lemma EdgeInBounds(v: seq<nat>)
    requires |v| == 4 && Fitting(EDGE, v)
    ensures EdgeRecOf(v).node == v[0]
  {
    hide Fitting;
  }

  /** A base that passes the checks is one every accessor reads in bounds, its nodes sorted
      for the binary search: so every merged read, whatever the key and the overlay, is total. */
  lemma CheckedInBounds(utf8: Utf8, h: Header, s: Sections)
    requires Lengths(h, s) && GraphOk(utf8, h, s)
    ensures InBounds(TablesOf(h, s)) && I.NodesSorted(TablesOf(h, s).nodes)
  {
    hide LabelFits, Monotone, Words, PrefixAt, Fitting, IndexFits, NodeOf, SegRowOf, EdgeRecOf, AttrRowOf, IndexOf, NodeOk, LabelOk,
      AttrOk, CsrOk;
    NodesInBounds(utf8, h, s);
    if h.nodes > 0 { LinksInBounds(utf8, h, s); }
  }

  lemma NodesInBounds(utf8: Utf8, h: Header, s: Sections)
    requires Lengths(h, s) && GraphOk(utf8, h, s)
    ensures var t := TablesOf(h, s);
            && |t.nodes| == h.nodes && I.NodesSorted(t.nodes) && HeadingsFit(t.labels, t.segs)
            && forall i :: 0 <= i < h.nodes ==>
                 && LabelFits(t.labels, t.nodes[i].urlOff) && LabelFits(t.labels, t.nodes[i].titleOff)
                 && LabelFits(t.labels, t.nodes[i].snippetOff) && LabelFits(t.labels, t.nodes[i].etagOff)
                 && t.nodes[i].segStart + t.nodes[i].segCount <= |t.segs|
  {
    hide LabelFits, Monotone, Words, PrefixAt, Fitting, IndexFits, NodeOf, SegRowOf, EdgeRecOf, AttrRowOf, IndexOf, NodeOk, LabelOk,
      AttrOk, CsrOk;
    var t := TablesOf(h, s);
    forall i | 0 <= i < h.nodes
      ensures LabelFits(t.labels, t.nodes[i].urlOff) && LabelFits(t.labels, t.nodes[i].titleOff)
      ensures LabelFits(t.labels, t.nodes[i].snippetOff) && LabelFits(t.labels, t.nodes[i].etagOff)
      ensures t.nodes[i].segStart + t.nodes[i].segCount <= |t.segs| && t.nodes[i].key as nat == NodeRows(h, s)[i][0]
    {
      NodeInBounds(utf8, h, s.labels, NodeRows(h, s)[i]);
    }
    forall i | 0 <= i < h.segs ensures LabelFits(t.labels, t.segs[i].headingOff) {
      SegInBounds(utf8, s.labels, SegRows(h, s)[i]);
    }
  }

  lemma LinksInBounds(utf8: Utf8, h: Header, s: Sections)
    requires Lengths(h, s) && GraphOk(utf8, h, s) && h.nodes > 0
    ensures var t, n := TablesOf(h, s), h.nodes;
            && |t.nodes| == n && IndexFits(t.edgeIndex, n, |t.edges|) && IndexFits(t.inIndex, n, |t.inEdges|)
            && IndexFits(t.attrIndex, n, |t.attrs|)
            && (forall i :: 0 <= i < |t.edges| ==> t.edges[i].node < n)
            && (forall i :: 0 <= i < |t.inEdges| ==> t.inEdges[i].node < n)
            && (forall i :: 0 <= i < |t.attrs| ==> t.attrs[i].off + t.attrs[i].len <= |t.blobs|)
  {
    hide LabelFits, Monotone, Words, PrefixAt, Fitting, IndexFits, NodeOf, SegRowOf, EdgeRecOf, AttrRowOf, IndexOf, NodeOk, LabelOk, AttrOk;
    var t := TablesOf(h, s);
    CsrFits(s.edgeIndex, h.nodes, h.edges);
    CsrFits(s.inIndex, h.nodes, h.edges);
    CsrFits(s.attrIndex, h.nodes, |s.attrs| / 12);
    forall i | 0 <= i < h.edges ensures t.edges[i].node < h.nodes && t.inEdges[i].node < h.nodes {
      EdgeInBounds(EdgeRowsOf(s.edges, h.edges)[i]);
      EdgeInBounds(EdgeRowsOf(s.inEdges, h.edges)[i]);
    }
    forall i | 0 <= i < |t.attrs| ensures t.attrs[i].off + t.attrs[i].len <= |t.blobs| {
      AttrInBounds(utf8, s.blobs, AttrRowsOf(s.attrs)[i]);
    }
  }
}
