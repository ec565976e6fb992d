/** Writing the record sections of a base: the bytes read back as the very tables. */
module BaseWrite {
  import opened Ops
  import opened ByteCodec
  import opened Csr
  import opened T = Tables
  import opened BaseFile

  // ---- one record each way -----------------------------------------------------------------------

  function RowOfNode(r: NodeRow): (v: seq<nat>)
    ensures |v| == 16
  {
    [r.key as nat, r.hash, r.fetched, r.lastChange, r.urlOff, r.titleOff, r.snippetOff, r.etagOff,
     r.segStart, r.segCount, r.flags, r.interval, r.checks, r.changes, r.inDegree, 0]
  }

  function RowOfSeg(r: SegRow): (v: seq<nat>)
    ensures |v| == 7
  {
    [r.segKey as nat, r.start, r.len, r.headingOff, r.importance, r.depth, r.flags]
  }

  function RowOfEdge(e: EdgeRec): (v: seq<nat>)
    ensures |v| == 4
  {
    [e.node, e.etype, e.flags, e.weight]
  }

  function RowOfAttr(a: AttrRow): (v: seq<nat>)
    ensures |v| == 4
  {
    [a.k as nat, 0, a.off, a.len]
  }

  predicate NodeFits(r: NodeRow) {
    && r.urlOff < 0x1_0000_0000 && r.titleOff < 0x1_0000_0000 && r.snippetOff < 0x1_0000_0000 && r.etagOff < 0x1_0000_0000
    && r.segStart < 0x1_0000_0000 && r.segCount < 0x1_0000 && r.inDegree < 0x1_0000_0000
  }

  lemma NodeBack(r: NodeRow)
    requires NodeFits(r)
    ensures Fitting(NODE, RowOfNode(r)) && NodeOf(RowOfNode(r)) == r
  {
    hide Fitting;
    Powers();
    NodeWidthsAre();
    FitsBounds(NODE, RowOfNode(r));
  }

  lemma SegBack(r: SegRow)
    requires r.headingOff < 0x1_0000_0000
    ensures Fitting(SEG, RowOfSeg(r)) && SegRowOf(RowOfSeg(r)) == r
  {
    hide Fitting;
    Powers();
    OtherWidthsAre();
    FitsBounds(SEG, RowOfSeg(r));
  }

  lemma EdgeBack(e: EdgeRec)
    requires e.node < 0x1_0000_0000
    ensures Fitting(EDGE, RowOfEdge(e)) && EdgeRecOf(RowOfEdge(e)) == e
  {
    hide Fitting;
    Powers();
    OtherWidthsAre();
    FitsBounds(EDGE, RowOfEdge(e));
  }

  lemma AttrBack(a: AttrRow)
    requires a.off < 0x1_0000_0000 && a.len < 0x1_0000_0000
    ensures Fitting(ATTR, RowOfAttr(a)) && AttrRowOf(RowOfAttr(a)) == a
  {
    hide Fitting;
    Powers();
    OtherWidthsAre();
    FitsBounds(ATTR, RowOfAttr(a));
  }

  // ---- whole sections --------------------------------------------------------------------------------

  function WordRows(ws: seq<nat>): (rows: seq<seq<nat>>)
    ensures |rows| == |ws| && forall i :: 0 <= i < |rows| ==> |rows[i]| == 1
  {
    seq(|ws|, i requires 0 <= i < |ws| => [ws[i]])
  }

  function WordBytes(ws: seq<nat>): (b: seq<byte>)
    ensures |b| == 4 * |ws|
  {
    RecordOffsets();
    Multiples(|ws|);
    PackAll(WORD, WordRows(ws))
  }

  lemma WordFits(w: nat)
    requires w < 0x1_0000_0000
    ensures Fitting(WORD, [w])
  {
    Powers();
  }

  lemma WordsBack(ws: seq<nat>)
    requires forall i :: 0 <= i < |ws| ==> ws[i] < 0x1_0000_0000
    ensures IndexOf(WordBytes(ws)) == ws
  {
    hide Fitting, PackAll, UnpackAll;
    RecordOffsets();
    Multiples(|ws|);
    var rows := WordRows(ws);
    forall i | 0 <= i < |rows| ensures |rows[i]| == Len(WORD) && Fitting(WORD, rows[i]) { WordFits(ws[i]); }
    RowsOfPack(WORD, rows, WordBytes(ws));
    assert Words(WordBytes(ws), |ws|) == ws;
  }

  function NodeBytes(nodes: seq<NodeRow>): (b: seq<byte>)
    ensures |b| == 72 * |nodes|
  {
    RecordOffsets();
    Multiples(|nodes|);
    PackAll(NODE, seq(|nodes|, i requires 0 <= i < |nodes| => RowOfNode(nodes[i])))
  }

  function SegBytes(segs: seq<SegRow>): (b: seq<byte>)
    ensures |b| == 24 * |segs|
  {
    RecordOffsets();
    Multiples(|segs|);
    PackAll(SEG, seq(|segs|, i requires 0 <= i < |segs| => RowOfSeg(segs[i])))
  }

  function EdgeBytes(edges: seq<EdgeRec>): (b: seq<byte>)
    ensures |b| == 8 * |edges|
  {
    RecordOffsets();
    Multiples(|edges|);
    PackAll(EDGE, seq(|edges|, i requires 0 <= i < |edges| => RowOfEdge(edges[i])))
  }

  function AttrBytes(attrs: seq<AttrRow>): (b: seq<byte>)
    ensures |b| == 12 * |attrs|
  {
    RecordOffsets();
    Multiples(|attrs|);
    PackAll(ATTR, seq(|attrs|, i requires 0 <= i < |attrs| => RowOfAttr(attrs[i])))
  }

  /** The sections of a vocabulary: token records, their postings, and the search indices. */
  datatype TokenBytes = TokenBytes(lexicon: seq<byte>, postings: seq<byte>, order: seq<byte>, tri: seq<byte>, post: seq<byte>)

  /** The sections compaction writes; none at all for a store without nodes. */
  function SectionsOf(t: T.Tables, ranks: seq<byte>, w: TokenBytes): Sections {
    if t.nodes == [] then Sections([], [], [], [], [], [], [], [], [], [], [], [], [], [], [], [])
    else
      Sections(NodeBytes(t.nodes), SegBytes(t.segs), WordBytes(t.edgeIndex), EdgeBytes(t.edges), t.labels,
               w.lexicon, w.postings, ranks, WordBytes(t.inIndex), EdgeBytes(t.inEdges),
               WordBytes(t.attrIndex), AttrBytes(t.attrs), t.blobs, w.order, w.tri, w.post)
  }

  function HeaderOf(t: T.Tables, tokens: nat): Header {
    if t.nodes == [] then Header(0, 0, 0, 0) else Header(|t.nodes|, |t.segs|, |t.edges|, tokens)
  }

  predicate TokensFit(w: TokenBytes, tokens: nat) {
    |w.lexicon| == 24 * tokens && |w.order| == 4 * tokens && |w.tri| % 12 == 0 && |w.post| % 4 == 0
  }

  predicate Fits32(ws: seq<nat>) { forall i :: 0 <= i < |ws| ==> ws[i] < 0x1_0000_0000 }

  /** Every count and offset within its field. */
  predicate Writable(t: T.Tables) {
    && (forall i :: 0 <= i < |t.nodes| ==> NodeFits(t.nodes[i]))
    && (forall i :: 0 <= i < |t.segs| ==> t.segs[i].headingOff < 0x1_0000_0000)
    && (forall i :: 0 <= i < |t.edges| ==> t.edges[i].node < 0x1_0000_0000)
    && (forall i :: 0 <= i < |t.inEdges| ==> t.inEdges[i].node < 0x1_0000_0000)
    && (forall i :: 0 <= i < |t.attrs| ==> t.attrs[i].off < 0x1_0000_0000 && t.attrs[i].len < 0x1_0000_0000)
    && Fits32(t.edgeIndex) && Fits32(t.inIndex) && Fits32(t.attrIndex)
    && |t.nodes| > 0 && |t.edgeIndex| == |t.nodes| + 1 && |t.inEdges| == |t.edges|
  }

  lemma NodesBack(nodes: seq<NodeRow>)
    requires forall i :: 0 <= i < |nodes| ==> NodeFits(nodes[i])
    ensures Total(NODE) == 72 && Times(|nodes|, 72) == 72 * |nodes|
    ensures var rows := Rows(NODE, NodeBytes(nodes), |nodes|);
            forall i :: 0 <= i < |nodes| ==>
              |rows[i]| == 16 && Fitting(NODE, rows[i]) && rows[i] == RowOfNode(nodes[i]) && NodeOf(rows[i]) == nodes[i]
  {
    hide Fitting, PackAll, UnpackAll, NodeOf, RowOfNode;
    RecordOffsets();
    Multiples(|nodes|);
    var rows := seq(|nodes|, i requires 0 <= i < |nodes| => RowOfNode(nodes[i]));
    forall i | 0 <= i < |rows| ensures |rows[i]| == Len(NODE) && Fitting(NODE, rows[i]) { NodeBack(nodes[i]); }
    RowsOfPack(NODE, rows, NodeBytes(nodes));
    forall i | 0 <= i < |nodes| ensures Fitting(NODE, rows[i]) && NodeOf(rows[i]) == nodes[i] { NodeBack(nodes[i]); }
  }

  lemma SegsBack(segs: seq<SegRow>)
    requires forall i :: 0 <= i < |segs| ==> segs[i].headingOff < 0x1_0000_0000
    ensures Total(SEG) == 24 && Times(|segs|, 24) == 24 * |segs|
    ensures var rows := Rows(SEG, SegBytes(segs), |segs|);
            forall i :: 0 <= i < |segs| ==>
              |rows[i]| == 7 && Fitting(SEG, rows[i]) && rows[i] == RowOfSeg(segs[i]) && SegRowOf(rows[i]) == segs[i]
  {
    hide Fitting, PackAll, UnpackAll, SegRowOf, RowOfSeg;
    RecordOffsets();
    Multiples(|segs|);
    var rows := seq(|segs|, i requires 0 <= i < |segs| => RowOfSeg(segs[i]));
    forall i | 0 <= i < |rows| ensures |rows[i]| == Len(SEG) && Fitting(SEG, rows[i]) { SegBack(segs[i]); }
    RowsOfPack(SEG, rows, SegBytes(segs));
    forall i | 0 <= i < |segs| ensures Fitting(SEG, rows[i]) && SegRowOf(rows[i]) == segs[i] { SegBack(segs[i]); }
  }

  lemma EdgesBack(edges: seq<EdgeRec>)
    requires forall i :: 0 <= i < |edges| ==> edges[i].node < 0x1_0000_0000
    ensures var rows := EdgeRowsOf(EdgeBytes(edges), |edges|);
            forall i :: 0 <= i < |edges| ==> rows[i] == RowOfEdge(edges[i]) && EdgeRecOf(rows[i]) == edges[i]
  {
    hide Fitting, PackAll, UnpackAll, EdgeRecOf, RowOfEdge;
    RecordOffsets();
    Multiples(|edges|);
    var rows := seq(|edges|, i requires 0 <= i < |edges| => RowOfEdge(edges[i]));
    forall i | 0 <= i < |rows| ensures |rows[i]| == Len(EDGE) && Fitting(EDGE, rows[i]) { EdgeBack(edges[i]); }
    RowsOfPack(EDGE, rows, EdgeBytes(edges));
    forall i | 0 <= i < |edges| ensures Fitting(EDGE, rows[i]) && EdgeRecOf(rows[i]) == edges[i] { EdgeBack(edges[i]); }
  }

  lemma AttrsBack(attrs: seq<AttrRow>)
    requires forall i :: 0 <= i < |attrs| ==> attrs[i].off < 0x1_0000_0000 && attrs[i].len < 0x1_0000_0000
    ensures var rows := AttrRowsOf(AttrBytes(attrs));
            |rows| == |attrs| && forall i :: 0 <= i < |attrs| ==> rows[i] == RowOfAttr(attrs[i]) && AttrRowOf(rows[i]) == attrs[i]
  {
    hide Fitting, PackAll, UnpackAll, AttrRowOf, RowOfAttr;
    RecordOffsets();
    Multiples(|attrs|);
    var rows := seq(|attrs|, i requires 0 <= i < |attrs| => RowOfAttr(attrs[i]));
    forall i | 0 <= i < |rows| ensures |rows[i]| == Len(ATTR) && Fitting(ATTR, rows[i]) { AttrBack(attrs[i]); }
    RowsOfPack(ATTR, rows, AttrBytes(attrs));
    forall i | 0 <= i < |attrs| ensures Fitting(ATTR, rows[i]) && AttrRowOf(rows[i]) == attrs[i] { AttrBack(attrs[i]); }
  }

  /** Writing a store's tables and reading the bytes gives the tables back, whole. */
  lemma TablesRoundTrip(t: T.Tables, ranks: seq<byte>, w: TokenBytes, tokens: nat)
    requires Writable(t) && |ranks| == 2 * |t.nodes| && TokensFit(w, tokens)
    ensures Lengths(HeaderOf(t, tokens), SectionsOf(t, ranks, w))
    ensures TablesOf(HeaderOf(t, tokens), SectionsOf(t, ranks, w)) == t
  {
    hide NodeBytes, SegBytes, EdgeBytes, AttrBytes, WordBytes, NodeOf, SegRowOf, EdgeRecOf, AttrRowOf, IndexOf, Fitting, EdgeRowsOf,
      AttrRowsOf, NodeFits;
    var h, s := HeaderOf(t, tokens), SectionsOf(t, ranks, w);
    NodesBack(t.nodes);
    SegsBack(t.segs);
    EdgesBack(t.edges);
    EdgesBack(t.inEdges);
    AttrsBack(t.attrs);
    WordsBack(t.edgeIndex);
    WordsBack(t.inIndex);
    WordsBack(t.attrIndex);
    var back := TablesOf(h, s);
    assert back.nodes == t.nodes && back.segs == t.segs;
    assert back.edges == t.edges && back.inEdges == t.inEdges && back.attrs == t.attrs;
  }
}
