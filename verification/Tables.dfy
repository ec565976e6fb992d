/** The record tables compaction renders a store into, dense ids instead of keys, and the
    reads that go through them. */
module Tables {
  import opened Ops
  import opened Merge
  import opened Csr

  /** "No label" in a label-offset field. */
  const NO_LABEL: nat := 0xFFFF_FFFF

  datatype NodeRow = NodeRow(
    key: u64, hash: u64, fetched: u64, lastChange: u64,
    urlOff: nat, titleOff: nat, snippetOff: nat, etagOff: nat,
    segStart: nat, segCount: nat, flags: u16, interval: u32, checks: u16, changes: u16, inDegree: nat)

  datatype SegRow = SegRow(segKey: u64, start: u32, len: u32, headingOff: nat, importance: u16, depth: byte, flags: byte)

  datatype AttrRow = AttrRow(k: byte, off: nat, len: nat)

  datatype Tables = Tables(
    nodes: seq<NodeRow>, segs: seq<SegRow>, labels: seq<byte>,
    edgeIndex: seq<nat>, edges: seq<EdgeRec>, inIndex: seq<nat>, inEdges: seq<EdgeRec>,
    attrIndex: seq<nat>, attrs: seq<AttrRow>, blobs: seq<byte>)

  // ---- the label heap ---------------------------------------------------------------------

  function LengthPrefix(n: nat): seq<byte>
    requires n < 0x1_0000
  {
    [n % 0x100, n / 0x100]
  }

  /** A label field that holds `t`: the sentinel for none, else the offset of its prefix. */
  predicate Holds(labels: seq<byte>, off: nat, t: Option<text>) {
    if t.None? then off == NO_LABEL
    else
      && off != NO_LABEL && |t.value| < 0x1_0000
      && off + 2 + |t.value| <= |labels|
      && labels[off..off + 2] == LengthPrefix(|t.value|)
      && labels[off + 2..off + 2 + |t.value|] == t.value
  }

  function PrefixAt(labels: seq<byte>, off: nat): nat
    requires off + 2 <= |labels|
  {
    (labels[off] as nat) + 0x100 * (labels[off + 1] as nat)
  }

  predicate LabelFits(labels: seq<byte>, off: nat) {
    off == NO_LABEL || (off + 2 <= |labels| && off + 2 + PrefixAt(labels, off) <= |labels|)
  }

  function LabelAt(labels: seq<byte>, off: nat): Option<text>
    requires LabelFits(labels, off)
  {
    if off == NO_LABEL then None
    else Some(labels[off + 2..off + 2 + PrefixAt(labels, off)])
  }

  lemma LabelReadsBack(labels: seq<byte>, off: nat, t: Option<text>)
    requires Holds(labels, off, t)
    ensures LabelFits(labels, off) && LabelAt(labels, off) == t
  {
    if t.Some? {
      var prefix := labels[off..off + 2];
      assert prefix[0] == labels[off] && prefix[1] == labels[off + 1];
      assert LengthPrefix(|t.value|)[0] == prefix[0] && LengthPrefix(|t.value|)[1] == prefix[1];
    }
  }

  /** Appending to the heap moves no label. */
  lemma HoldsGrows(labels: seq<byte>, more: seq<byte>, off: nat, t: Option<text>)
    requires Holds(labels, off, t)
    ensures Holds(labels + more, off, t)
  {
    if t.Some? {
      assert (labels + more)[off..off + 2] == labels[off..off + 2];
      assert (labels + more)[off + 2..off + 2 + |t.value|] == labels[off + 2..off + 2 + |t.value|];
    }
  }

  /** A length as a 32-bit field keeps it. */
  function Truncated(n: nat): nat { n % 0x1_0000_0000 }

  /** A label goes to the end of the heap, at the 32-bit truncation of the heap's length: it
      is held there as long as that length stays below the sentinel, and is lost at it. */
  method PushLabel(labels: seq<byte>, t: Option<text>) returns (labels': seq<byte>, off: nat)
    requires t.Some? ==> |t.value| < 0x1_0000
    ensures labels <= labels' && |labels'| == |labels| + LabelSize(t)
    ensures t.None? || |labels| < NO_LABEL ==> Holds(labels', off, t)
    ensures t.Some? && |labels| == NO_LABEL ==> !Holds(labels', off, t)
    ensures t.Some? ==> off == Truncated(|labels|)
  {
    if t.None? {
      return labels, NO_LABEL;
    }
    off := Truncated(|labels|);
    labels' := labels + LengthPrefix(|t.value|) + t.value;
  }

  // ---- how much there is to lay out ------------------------------------------------------------

  function SumOf<T>(xs: seq<T>, size: T -> nat): nat {
    if xs == [] then 0 else SumOf(xs[..|xs| - 1], size) + size(xs[|xs| - 1])
  }

  lemma SumOfStep<T>(xs: seq<T>, size: T -> nat, i: nat)
    requires i < |xs|
    ensures SumOf(xs[..i + 1], size) == SumOf(xs[..i], size) + size(xs[i])
  {
    assert xs[..i + 1][..i] == xs[..i];
  }

  lemma SumOfNone<T>(xs: seq<T>, size: T -> nat)
    ensures SumOf(xs[..0], size) == 0
  {
  }

  /** What a label adds to the heap. */
  function LabelSize(t: Option<text>): nat { if t.None? then 0 else 2 + |t.value| }

  function HeadingSize(s: SegRef): nat { LabelSize(Some(s.heading)) }

  /** What a node's labels add to the heap: its own and its headings. */
  function LabelsSize(d: BaseDoc): nat {
    LabelSize(UrlLabel(d.rec.url)) + LabelSize(d.rec.title) + LabelSize(d.rec.snippet) + LabelSize(d.rec.etag)
    + SumOf(d.segs, HeadingSize)
  }

  function ValueSize(a: Attr): nat { |a.value| }

  function ValuesSize(d: BaseDoc): nat { SumOf(d.attrs, ValueSize) }

  function SegsIn(d: BaseDoc): nat { |d.segs| }

  function EdgesIn(d: BaseDoc): nat { |d.edges| }

  function AttrsIn(d: BaseDoc): nat { |d.attrs| }

  // ---- one node ------------------------------------------------------------------------------

  /** A stub has no URL label; a node read back without one has the empty URL. */
  function UrlLabel(url: text): Option<text> { if url == [] then None else Some(url) }

  predicate Short(t: Option<text>) { t.Some? ==> |t.value| < 0x1_0000 }

  /** Strings short enough for their prefix, and segment ranges flagged as they are. */
  ghost predicate Storable(d: BaseDoc) {
    && |d.rec.url| < 0x1_0000 && Short(d.rec.title) && Short(d.rec.snippet) && Short(d.rec.etag)
    && forall i :: 0 <= i < |d.segs| ==>
         |d.segs[i].heading| < 0x1_0000 && (d.segs[i].range.Some? <==> d.segs[i].flags % 2 == 0)
  }

  /** The fields of a segment record that are not its label. */
  predicate SegLaid(r: SegRow, s: SegRef) {
    && r.segKey == s.segKey && r.importance == s.importance && r.depth == s.depth && r.flags == s.flags
    && (s.range.Some? ==> (r.start, r.len) == s.range.value)
  }

  predicate SegHeld(r: SegRow, s: SegRef, labels: seq<byte>) {
    SegLaid(r, s) && Holds(labels, r.headingOff, Some(s.heading))
  }

  /** The fields of a node record that are no labels, and its segment run. */
  ghost predicate NodeLaid(r: NodeRow, key: u64, d: BaseDoc, segs: seq<SegRow>) {
    && r.key == key && r.hash == d.rec.hash && r.fetched == d.rec.fetched && r.lastChange == d.rec.lastChange
    && r.flags == d.rec.flags && r.interval == d.rec.interval
    && r.checks == d.rec.checks && r.changes == d.rec.changes
    && r.segCount == |d.segs| && r.segStart + r.segCount <= |segs|
    && forall i :: 0 <= i < |d.segs| ==> SegLaid(segs[r.segStart + i], d.segs[i])
  }

  ghost predicate NodeHeld(r: NodeRow, key: u64, d: BaseDoc, labels: seq<byte>, segs: seq<SegRow>) {
    && NodeLaid(r, key, d, segs)
    && Holds(labels, r.urlOff, UrlLabel(d.rec.url)) && Holds(labels, r.titleOff, d.rec.title)
    && Holds(labels, r.snippetOff, d.rec.snippet) && Holds(labels, r.etagOff, d.rec.etag)
    && forall i :: 0 <= i < |d.segs| ==> SegHeld(segs[r.segStart + i], d.segs[i], labels)
  }

  lemma NodeHeldGrows(r: NodeRow, key: u64, d: BaseDoc, labels: seq<byte>, segs: seq<SegRow>,
                      labels': seq<byte>, segs': seq<SegRow>)
    requires NodeHeld(r, key, d, labels, segs) && labels <= labels' && segs <= segs'
    ensures NodeHeld(r, key, d, labels', segs')
  {
    hide Holds;
    var more := labels'[|labels|..];
    assert labels' == labels + more;
    HoldsGrows(labels, more, r.urlOff, UrlLabel(d.rec.url));
    HoldsGrows(labels, more, r.titleOff, d.rec.title);
    HoldsGrows(labels, more, r.snippetOff, d.rec.snippet);
    HoldsGrows(labels, more, r.etagOff, d.rec.etag);
    forall i | 0 <= i < |d.segs| ensures SegHeld(segs'[r.segStart + i], d.segs[i], labels') {
      HoldsGrows(labels, more, segs[r.segStart + i].headingOff, Some(d.segs[i].heading));
    }
  }

  lemma NodeLaidGrows(r: NodeRow, key: u64, d: BaseDoc, segs: seq<SegRow>, segs': seq<SegRow>)
    requires NodeLaid(r, key, d, segs) && segs <= segs'
    ensures NodeLaid(r, key, d, segs')
  {
    hide SegLaid;
  }

  predicate HeadingsFit(labels: seq<byte>, segs: seq<SegRow>) {
    forall i :: 0 <= i < |segs| ==> LabelFits(labels, segs[i].headingOff)
  }

  lemma HeadingsStillFit(labels: seq<byte>, labels': seq<byte>, segs: seq<SegRow>)
    requires HeadingsFit(labels, segs) && labels <= labels'
    ensures HeadingsFit(labels', segs)
  {
  }

  method RenderSegs(refs: seq<SegRef>, labels: seq<byte>, segs: seq<SegRow>)
    returns (labels': seq<byte>, segs': seq<SegRow>)
    requires forall i :: 0 <= i < |refs| ==> |refs[i].heading| < 0x1_0000
    ensures labels <= labels' && segs <= segs' && |segs'| == |segs| + |refs|
    ensures |labels'| == |labels| + SumOf(refs, HeadingSize)
    ensures forall i :: 0 <= i < |refs| ==> SegLaid(segs'[|segs| + i], refs[i])
    ensures |labels'| <= NO_LABEL ==> forall i :: 0 <= i < |refs| ==> SegHeld(segs'[|segs| + i], refs[i], labels')
    ensures |labels'| <= NO_LABEL && HeadingsFit(labels, segs) ==> HeadingsFit(labels', segs')
  {
    hide Holds, LabelFits, Truncated;
    labels', segs' := labels, segs;
    var i := 0;
    while i < |refs|
      invariant 0 <= i <= |refs|
      invariant labels <= labels' && segs <= segs' && |segs'| == |segs| + i
      invariant |labels'| == |labels| + SumOf(refs[..i], HeadingSize)
      invariant forall j :: 0 <= j < i ==> SegLaid(segs'[|segs| + j], refs[j])
      invariant |labels'| <= NO_LABEL ==> forall j :: 0 <= j < i ==> SegHeld(segs'[|segs| + j], refs[j], labels')
      invariant |labels'| <= NO_LABEL && HeadingsFit(labels, segs) ==> HeadingsFit(labels', segs')
    {
      var s := refs[i];
      SumOfStep(refs, HeadingSize, i);
      ghost var was := labels';
      var off;
      labels', off := PushLabel(labels', Some(s.heading));
      var (start, len) := if s.range.Some? then s.range.value else (0, 0);
      if |labels'| <= NO_LABEL {
        forall j | 0 <= j < i ensures SegHeld(segs'[|segs| + j], refs[j], labels') {
          StillHeld(was, labels', segs'[|segs| + j].headingOff, Some(refs[j].heading));
        }
        LabelReadsBack(labels', off, Some(s.heading));
        if HeadingsFit(labels, segs) { HeadingsStillFit(was, labels', segs'); }
      }
      segs' := segs' + [SegRow(s.segKey, start, len, off, s.importance, s.depth, s.flags)];
      i := i + 1;
    }
    assert refs[..|refs|] == refs;
  }

  lemma StorableParts(d: BaseDoc)
    requires Storable(d)
    ensures |d.rec.url| < 0x1_0000 && Short(d.rec.title) && Short(d.rec.snippet) && Short(d.rec.etag)
    ensures forall i :: 0 <= i < |d.segs| ==> |d.segs[i].heading| < 0x1_0000
  {
  }

  method RenderNode(key: u64, d: BaseDoc, inDegree: nat, labels: seq<byte>, segs: seq<SegRow>)
    returns (row: NodeRow, labels': seq<byte>, segs': seq<SegRow>)
    requires Storable(d)
    ensures labels <= labels' && segs <= segs' && row.inDegree == inDegree
    ensures row.segStart == |segs| && |segs'| == |segs| + row.segCount
    ensures NodeLaid(row, key, d, segs') && |labels'| == |labels| + LabelsSize(d)
    ensures |labels'| <= NO_LABEL ==> NodeHeld(row, key, d, labels', segs')
    ensures |labels'| <= NO_LABEL && HeadingsFit(labels, segs) ==> HeadingsFit(labels', segs')
  {
    hide Holds, LabelFits, Truncated, SegHeld, HeadingsFit, Storable, SegLaid, SumOf;
    StorableParts(d);
    var urlOff, titleOff, snippetOff, etagOff;
    var l1, l2, l3, l4;
    l1, urlOff := PushLabel(labels, UrlLabel(d.rec.url));
    l2, titleOff := PushLabel(l1, d.rec.title);
    l3, snippetOff := PushLabel(l2, d.rec.snippet);
    l4, etagOff := PushLabel(l3, d.rec.etag);
    labels', segs' := RenderSegs(d.segs, l4, segs);
    if HeadingsFit(labels, segs) && |labels'| <= NO_LABEL { HeadingsStillFit(labels, l4, segs); }
    row := NodeRow(key, d.rec.hash, d.rec.fetched, d.rec.lastChange, urlOff, titleOff, snippetOff, etagOff,
                   |segs|, |d.segs|, d.rec.flags, d.rec.interval, d.rec.checks, d.rec.changes, inDegree);
    if |labels'| <= NO_LABEL {
      StillHeld(l1, labels', urlOff, UrlLabel(d.rec.url));
      StillHeld(l2, labels', titleOff, d.rec.title);
      StillHeld(l3, labels', snippetOff, d.rec.snippet);
      StillHeld(l4, labels', etagOff, d.rec.etag);
    }
  }

  lemma StillHeld(labels: seq<byte>, labels': seq<byte>, off: nat, t: Option<text>)
    requires Holds(labels, off, t) && labels <= labels'
    ensures Holds(labels', off, t)
  {
    assert labels' == labels + labels'[|labels|..];
    HoldsGrows(labels, labels'[|labels|..], off, t);
  }

  // ---- the whole base -------------------------------------------------------------------------

  ghost predicate KeysAscend(keys: seq<u64>) { forall i, j :: 0 <= i < j < |keys| ==> keys[i] < keys[j] }

  /** A store ready to be rendered: sorted keys, resolved and sorted edges, storable texts. */
  ghost predicate Renderable(keys: seq<u64>, docs: seq<BaseDoc>) {
    && |keys| == |docs| && KeysAscend(keys)
    && forall i :: 0 <= i < |docs| ==>
         && Storable(docs[i]) && Ascending(docs[i].edges)
         && forall j :: 0 <= j < |docs[i].edges| ==> docs[i].edges[j].dst in keys
  }

  /** The dense id a key gets: its place in key order. */
  function IdOf(keys: seq<u64>, k: u64): (id: nat)
    requires k in keys
    ensures id < |keys| && keys[id] == k
  {
    if keys[|keys| - 1] == k then |keys| - 1 else IdOf(keys[..|keys| - 1], k)
  }

  lemma IdUnique(keys: seq<u64>, i: nat)
    requires KeysAscend(keys) && i < |keys|
    ensures IdOf(keys, keys[i]) == i
  {
    var j := IdOf(keys, keys[i]);
    assert !(j < i) && !(i < j);
  }

  function EdgeRow(keys: seq<u64>, edges: seq<Edge>): seq<EdgeRec>
    requires forall j :: 0 <= j < |edges| ==> edges[j].dst in keys
  {
    seq(|edges|, j requires 0 <= j < |edges| =>
      EdgeRec(IdOf(keys, edges[j].dst), edges[j].etype, edges[j].flags, edges[j].weight))
  }

  /** Ascending destination keys have ascending ids. */
  lemma EdgeRowAscends(keys: seq<u64>, edges: seq<Edge>)
    requires KeysAscend(keys) && Ascending(edges)
    requires forall j :: 0 <= j < |edges| ==> edges[j].dst in keys
    ensures NodesAscend(EdgeRow(keys, edges))
    ensures forall j :: 0 <= j < |edges| ==> EdgeRow(keys, edges)[j].node < |keys|
  {
    forall i, j | 0 <= i < j < |edges|
      ensures IdOf(keys, edges[i].dst) < IdOf(keys, edges[j].dst)
    {
      var a, b := IdOf(keys, edges[i].dst), IdOf(keys, edges[j].dst);
      assert keys[a] < keys[b] && !(b < a);
    }
  }

  ghost predicate AttrsHeld(rows: seq<AttrRow>, attrs: seq<Attr>, blobs: seq<byte>) {
    && |rows| == |attrs|
    && forall j :: 0 <= j < |attrs| ==>
         && rows[j].k == attrs[j].k && rows[j].off + rows[j].len <= |blobs|
         && blobs[rows[j].off..rows[j].off + rows[j].len] == attrs[j].value
  }

  lemma AttrsHeldGrows(rows: seq<AttrRow>, attrs: seq<Attr>, blobs: seq<byte>, more: seq<byte>)
    requires AttrsHeld(rows, attrs, blobs)
    ensures AttrsHeld(rows, attrs, blobs + more)
  {
    forall j | 0 <= j < |attrs|
      ensures (blobs + more)[rows[j].off..rows[j].off + rows[j].len] == attrs[j].value
    {
      assert (blobs + more)[rows[j].off..rows[j].off + rows[j].len] == blobs[rows[j].off..rows[j].off + rows[j].len];
    }
  }

  method RenderAttrs(docs: seq<BaseDoc>) returns (rows: seq<seq<AttrRow>>, blobs: seq<byte>)
    ensures |rows| == |docs|
    ensures forall i :: 0 <= i < |docs| ==> AttrsHeld(rows[i], docs[i].attrs, blobs)
    ensures |blobs| == SumOf(docs, ValuesSize)
  {
    hide SumOf;
    SumOfNone(docs, ValuesSize);
    rows, blobs := [], [];
    var i := 0;
    while i < |docs|
      invariant 0 <= i <= |docs| && |rows| == i
      invariant |blobs| == SumOf(docs[..i], ValuesSize)
      invariant forall k :: 0 <= k < i ==> AttrsHeld(rows[k], docs[k].attrs, blobs)
    {
      SumOfStep(docs, ValuesSize, i);
      SumOfNone(docs[i].attrs, ValueSize);
      var attrs := docs[i].attrs;
      var row: seq<AttrRow> := [];
      var j := 0;
      while j < |attrs|
        invariant 0 <= j <= |attrs|
        invariant AttrsHeld(row, attrs[..j], blobs)
        invariant |blobs| == SumOf(docs[..i], ValuesSize) + SumOf(attrs[..j], ValueSize)
        invariant forall k :: 0 <= k < i ==> AttrsHeld(rows[k], docs[k].attrs, blobs)
      {
        forall k | 0 <= k < i ensures AttrsHeld(rows[k], docs[k].attrs, blobs + attrs[j].value) {
          AttrsHeldGrows(rows[k], docs[k].attrs, blobs, attrs[j].value);
        }
        AttrsHeldGrows(row, attrs[..j], blobs, attrs[j].value);
        SumOfStep(attrs, ValueSize, j);
        row := row + [AttrRow(attrs[j].k, |blobs|, |attrs[j].value|)];
        blobs := blobs + attrs[j].value;
        j := j + 1;
      }
      assert attrs[..|attrs|] == attrs;
      rows := rows + [row];
      i := i + 1;
    }
    assert docs[..|docs|] == docs;
  }

  /** Where the segment run of node `i` starts: where the one before it ends. */
  predicate TileAt(nodes: seq<NodeRow>, i: nat)
    requires i < |nodes|
  {
    nodes[i].segStart == if i == 0 then 0 else nodes[i - 1].segStart + nodes[i - 1].segCount
  }

  /** Segment runs lie end to end, in node order, and leave nothing over. */
  predicate SegsTile(nodes: seq<NodeRow>, total: nat) {
    && (forall i :: 0 <= i < |nodes| ==> TileAt(nodes, i))
    && total == if nodes == [] then 0 else nodes[|nodes| - 1].segStart + nodes[|nodes| - 1].segCount
  }

  lemma NoHeadings()
    ensures HeadingsFit([], [])
  {
  }

  lemma TileNone()
    ensures SegsTile([], 0)
  {
  }

  lemma TileOne(nodes: seq<NodeRow>, total: nat, r: NodeRow)
    requires SegsTile(nodes, total) && r.segStart == total
    ensures SegsTile(nodes + [r], total + r.segCount)
  {
    var all := nodes + [r];
    forall i | 0 <= i < |all| ensures TileAt(all, i) {
      if i < |nodes| { assert TileAt(nodes, i); }
    }
  }

  lemma TilePrefix(nodes: seq<NodeRow>, total: nat)
    requires SegsTile(nodes, total) && nodes != []
    ensures SegsTile(nodes[..|nodes| - 1], nodes[|nodes| - 1].segStart)
  {
    var n := |nodes| - 1;
    assert TileAt(nodes, n);
    forall i | 0 <= i < n ensures TileAt(nodes[..n], i) { assert TileAt(nodes, i); }
  }

  /** So every segment record is in some node's run. */
  lemma {:induction false} SegOwner(nodes: seq<NodeRow>, total: nat, j: nat) returns (i: nat)
    requires SegsTile(nodes, total) && j < total
    ensures i < |nodes| && nodes[i].segStart <= j < nodes[i].segStart + nodes[i].segCount
  {
    var last := nodes[|nodes| - 1];
    if j >= last.segStart {
      i := |nodes| - 1;
    } else {
      TilePrefix(nodes, total);
      i := SegOwner(nodes[..|nodes| - 1], last.segStart, j);
    }
  }

  /** Everything tables hold but the labels: every node with its runs, the edges by id, their
      exact transpose, and the attributes over the blob heap. */
  ghost predicate Laid(t: Tables, keys: seq<u64>, docs: seq<BaseDoc>, attrRows: seq<seq<AttrRow>>) {
    && Renderable(keys, docs) && |attrRows| == |docs|
    && |t.nodes| == |docs|
    && (forall i :: 0 <= i < |docs| ==> NodeLaid(t.nodes[i], keys[i], docs[i], t.segs))
    && SegsTile(t.nodes, |t.segs|)
    && IsCsr(t.edgeIndex, t.edges, EdgeRows(keys, docs))
    && IsCsr(t.inIndex, t.inEdges, InRows(keys, docs))
    && (forall i :: 0 <= i < |docs| ==> t.nodes[i].inDegree == |InRows(keys, docs)[i]|)
    && (if t.attrIndex == [] then t.attrs == [] && forall i :: 0 <= i < |docs| ==> docs[i].attrs == []
        else IsCsr(t.attrIndex, t.attrs, attrRows))
    && (forall i :: 0 <= i < |docs| ==> AttrsHeld(attrRows[i], docs[i].attrs, t.blobs))
  }

  /** What rendered tables hold: all of it, every label in its place. */
  ghost predicate Represents(t: Tables, keys: seq<u64>, docs: seq<BaseDoc>, attrRows: seq<seq<AttrRow>>) {
    && Laid(t, keys, docs, attrRows)
    && (forall i :: 0 <= i < |docs| ==> NodeHeld(t.nodes[i], keys[i], docs[i], t.labels, t.segs))
    && HeadingsFit(t.labels, t.segs)
  }

  function EdgeRows(keys: seq<u64>, docs: seq<BaseDoc>): seq<seq<EdgeRec>>
    requires forall i, j :: 0 <= i < |docs| && 0 <= j < |docs[i].edges| ==> docs[i].edges[j].dst in keys
  {
    seq(|docs|, i requires 0 <= i < |docs| => EdgeRow(keys, docs[i].edges))
  }

  function InRows(keys: seq<u64>, docs: seq<BaseDoc>): seq<seq<EdgeRec>>
    requires forall i, j :: 0 <= i < |docs| && 0 <= j < |docs[i].edges| ==> docs[i].edges[j].dst in keys
  {
    seq(|docs|, d requires 0 <= d < |docs| => InboundOf(EdgeRows(keys, docs), d))
  }

  lemma EdgeRowsOk(keys: seq<u64>, docs: seq<BaseDoc>)
    requires Renderable(keys, docs)
    ensures RowsOk(EdgeRows(keys, docs))
  {
    forall s | 0 <= s < |docs|
      ensures NodesAscend(EdgeRow(keys, docs[s].edges))
      ensures forall j :: 0 <= j < |docs[s].edges| ==> EdgeRow(keys, docs[s].edges)[j].node < |docs|
    {
      EdgeRowAscends(keys, docs[s].edges);
    }
  }

  /** Render a whole store: nodes with their labels and segments, forward and reverse edge
      runs, attribute runs. The attribute sections are left out when nothing fills them. The
      heaps are exactly as long as the store's labels and values, and the labels are in their
      places too unless there are more of them than a 32-bit offset can tell apart. */
  method RenderBase(keys: seq<u64>, docs: seq<BaseDoc>) returns (t: Tables)
    requires Renderable(keys, docs)
    ensures |t.labels| == SumOf(docs, LabelsSize) && |t.blobs| == SumOf(docs, ValuesSize)
    ensures exists attrRows ::
      Laid(t, keys, docs, attrRows) && (SumOf(docs, LabelsSize) <= NO_LABEL ==> Represents(t, keys, docs, attrRows))
  {
    hide Holds, NodeHeld, NodeLaid, AttrsHeld, SumOf;
    var rows := EdgeRows(keys, docs);
    EdgeRowsOk(keys, docs);
    var inbound := Invert(rows);
    assert inbound == InRows(keys, docs);
    var nodes, labels, segs := RenderNodes(keys, docs, inbound);
    var edgeIndex, edges := Csr.Render(rows);
    var inIndex, inEdges := Csr.Render(inbound);
    var aRows, blobs := RenderAttrs(docs);
    var attrIndex, attrs := Csr.Render(aRows);
    if attrs == [] {
      forall i | 0 <= i < |docs| ensures docs[i].attrs == [] {
        RowOf(attrIndex, attrs, aRows, i);
        NoAttrs(aRows[i], docs[i].attrs, blobs);
      }
      attrIndex := [];
    }
    t := Tables(nodes, segs, labels, edgeIndex, edges, inIndex, inEdges, attrIndex, attrs, blobs);
    assert Laid(t, keys, docs, aRows) && (|labels| <= NO_LABEL ==> Represents(t, keys, docs, aRows));
  }

  lemma {:induction false} FlatCount<T, U>(rows: seq<seq<T>>, docs: seq<U>, size: U -> nat)
    requires |rows| == |docs| && forall i :: 0 <= i < |docs| ==> |rows[i]| == size(docs[i])
    ensures |Flat(rows)| == SumOf(docs, size)
  {
    if docs != [] { FlatCount(rows[..|docs| - 1], docs[..|docs| - 1], size); }
  }

  lemma {:induction false} TiledCount(nodes: seq<NodeRow>, total: nat, docs: seq<BaseDoc>)
    requires SegsTile(nodes, total) && |nodes| == |docs| && forall i :: 0 <= i < |docs| ==> nodes[i].segCount == |docs[i].segs|
    ensures total == SumOf(docs, SegsIn)
  {
    if docs != [] {
      TilePrefix(nodes, total);
      TiledCount(nodes[..|docs| - 1], nodes[|docs| - 1].segStart, docs[..|docs| - 1]);
    }
  }

  /** As many records as the documents have segments, edges and attributes. */
  lemma LaidCounts(t: Tables, keys: seq<u64>, docs: seq<BaseDoc>, attrRows: seq<seq<AttrRow>>)
    requires Laid(t, keys, docs, attrRows)
    ensures |t.segs| == SumOf(docs, SegsIn) && |t.edges| == SumOf(docs, EdgesIn) && |t.attrs| == SumOf(docs, AttrsIn)
    ensures forall i :: 0 <= i < |docs| ==> t.nodes[i].segCount == |docs[i].segs|
  {
    hide SegsTile, InRows, EdgeRow, SegLaid, Storable, Ascending, SumOf;
    TiledCount(t.nodes, |t.segs|, docs);
    FlatCount(EdgeRows(keys, docs), docs, EdgesIn) by { RowLengths(keys, docs); }
    FlatCount(attrRows, docs, AttrsIn);
    if t.attrIndex == [] { NothingSums(docs); }
  }

  lemma RowLengths(keys: seq<u64>, docs: seq<BaseDoc>)
    requires Renderable(keys, docs)
    ensures |EdgeRows(keys, docs)| == |docs|
    ensures forall i :: 0 <= i < |docs| ==> |EdgeRows(keys, docs)[i]| == |docs[i].edges|
  {
  }

  lemma {:induction false} NothingSums(docs: seq<BaseDoc>)
    requires forall i :: 0 <= i < |docs| ==> docs[i].attrs == []
    ensures SumOf(docs, AttrsIn) == 0
  {
    if docs != [] { NothingSums(docs[..|docs| - 1]); }
  }

  lemma NoAttrs(rows: seq<AttrRow>, attrs: seq<Attr>, blobs: seq<byte>)
    requires AttrsHeld(rows, attrs, blobs) && rows == []
    ensures attrs == []
  {
  }

  method RenderNodes(keys: seq<u64>, docs: seq<BaseDoc>, inbound: seq<seq<EdgeRec>>)
    returns (nodes: seq<NodeRow>, labels: seq<byte>, segs: seq<SegRow>)
    requires Renderable(keys, docs) && |inbound| == |docs|
    ensures |nodes| == |docs| && SegsTile(nodes, |segs|)
    ensures forall i :: 0 <= i < |docs| ==> nodes[i].inDegree == |inbound[i]|
    ensures |labels| == SumOf(docs, LabelsSize)
    ensures forall i :: 0 <= i < |docs| ==> NodeLaid(nodes[i], keys[i], docs[i], segs)
    ensures |labels| <= NO_LABEL ==> HeadingsFit(labels, segs)
    ensures |labels| <= NO_LABEL ==> forall i :: 0 <= i < |docs| ==> NodeHeld(nodes[i], keys[i], docs[i], labels, segs)
  {
    hide Holds, NodeHeld, NodeLaid, LabelFits, SegsTile, HeadingsFit, Storable, SumOf, LabelsSize;
    SumOfNone(docs, LabelsSize);
    TileNone();
    assert HeadingsFit([], []) by { NoHeadings(); }
    nodes, labels, segs := [], [], [];
    var i := 0;
    while i < |docs|
      invariant 0 <= i <= |docs| && |nodes| == i && SegsTile(nodes, |segs|)
      invariant forall k :: 0 <= k < i ==> nodes[k].inDegree == |inbound[k]|
      invariant |labels| == SumOf(docs[..i], LabelsSize)
      invariant forall k :: 0 <= k < i ==> NodeLaid(nodes[k], keys[k], docs[k], segs)
      invariant |labels| <= NO_LABEL ==> HeadingsFit(labels, segs)
      invariant |labels| <= NO_LABEL ==> forall k :: 0 <= k < i ==> NodeHeld(nodes[k], keys[k], docs[k], labels, segs)
    {
      var row, labels', segs' := RenderNode(keys[i], docs[i], |inbound[i]|, labels, segs);
      forall k | |labels'| <= NO_LABEL && 0 <= k < i ensures NodeHeld(nodes[k], keys[k], docs[k], labels', segs') {
        NodeHeldGrows(nodes[k], keys[k], docs[k], labels, segs, labels', segs');
      }
      forall k | 0 <= k < i ensures NodeLaid(nodes[k], keys[k], docs[k], segs') {
        NodeLaidGrows(nodes[k], keys[k], docs[k], segs, segs');
      }
      SumOfStep(docs, LabelsSize, i);
      TileOne(nodes, |segs|, row);
      nodes, labels, segs := nodes + [row], labels', segs';
      i := i + 1;
    }
    assert docs[..|docs|] == docs;
  }

  // ---- reading the tables back -------------------------------------------------------------------

  /** One CSR index over `total` records for `n` nodes, or absent with nothing to index. */
  predicate IndexFits(index: seq<nat>, n: nat, total: nat) {
    if index == [] then total == 0
    else
      && |index| == n + 1 && index[n] == total
      && forall i, j :: 0 <= i <= j <= n ==> index[i] <= index[j]
  }

  /** Everything the record accessors rely on. */
  predicate InBounds(t: Tables) {
    var n := |t.nodes|;
    && (forall i :: 0 <= i < n ==>
          && LabelFits(t.labels, t.nodes[i].urlOff) && LabelFits(t.labels, t.nodes[i].titleOff)
          && LabelFits(t.labels, t.nodes[i].snippetOff) && LabelFits(t.labels, t.nodes[i].etagOff)
          && t.nodes[i].segStart + t.nodes[i].segCount <= |t.segs|)
    && HeadingsFit(t.labels, t.segs)
    && (n > 0 ==>
          && IndexFits(t.edgeIndex, n, |t.edges|) && IndexFits(t.inIndex, n, |t.inEdges|)
          && IndexFits(t.attrIndex, n, |t.attrs|)
          && (forall i :: 0 <= i < |t.edges| ==> t.edges[i].node < n)
          && (forall i :: 0 <= i < |t.inEdges| ==> t.inEdges[i].node < n)
          && (forall i :: 0 <= i < |t.attrs| ==> t.attrs[i].off + t.attrs[i].len <= |t.blobs|))
  }

  function Run<T>(index: seq<nat>, recs: seq<T>, i: nat): seq<T>
    requires index != [] ==> i + 1 < |index| && index[i] <= index[i + 1] <= |recs|
  {
    if index == [] then [] else recs[index[i]..index[i + 1]]
  }

  function Text(t: Option<text>): text { if t.Some? then t.value else [] }

  /** One base node as the accessors read it. */
  function DocAt(t: Tables, i: nat): BaseDoc
    requires InBounds(t) && i < |t.nodes|
  {
    var r := t.nodes[i];
    BaseDoc(
      NodeRec(Text(LabelAt(t.labels, r.urlOff)), LabelAt(t.labels, r.titleOff), LabelAt(t.labels, r.snippetOff),
              LabelAt(t.labels, r.etagOff), r.hash, r.fetched, r.lastChange, r.interval, r.checks, r.changes, r.flags),
      seq(r.segCount, j requires 0 <= j < r.segCount => SegAt(t, r.segStart + j)),
      EdgesAt(t, i),
      AttrsAt(t, i))
  }

  function SegAt(t: Tables, j: nat): SegRef
    requires InBounds(t) && j < |t.segs|
  {
    var s := t.segs[j];
    SegRef(s.segKey, Text(LabelAt(t.labels, s.headingOff)),
           if s.flags % 2 == 0 then Some((s.start, s.len)) else None, s.depth, s.importance, s.flags)
  }

  function EdgesAt(t: Tables, i: nat): seq<Edge>
    requires InBounds(t) && i < |t.nodes|
  {
    var run := Run(t.edgeIndex, t.edges, i);
    seq(|run|, j requires 0 <= j < |run| =>
      Edge(t.nodes[run[j].node].key, run[j].etype, run[j].flags, run[j].weight))
  }

  function AttrsAt(t: Tables, i: nat): seq<Attr>
    requires InBounds(t) && i < |t.nodes|
  {
    var run := Run(t.attrIndex, t.attrs, i);
    seq(|run|, j requires 0 <= j < |run| => Attr(run[j].k, t.blobs[run[j].off..run[j].off + run[j].len]))
  }

  lemma CsrFits<T>(index: seq<nat>, flat: seq<T>, rows: seq<seq<T>>)
    requires IsCsr(index, flat, rows)
    ensures IndexFits(index, |rows|, |flat|)
  {
    WholeCsr(index, flat, rows);
  }

  /** What holds of every row holds of the flattened records. */
  lemma {:induction false} FlatAll<T>(rows: seq<seq<T>>, p: T -> bool)
    requires forall i, j :: 0 <= i < |rows| && 0 <= j < |rows[i]| ==> p(rows[i][j])
    ensures forall k :: 0 <= k < |Flat(rows)| ==> p(Flat(rows)[k])
  {
    if rows != [] {
      var most, last := rows[..|rows| - 1], rows[|rows| - 1];
      FlatAll(most, p);
      forall k | 0 <= k < |Flat(rows)| ensures p(Flat(rows)[k]) {
        if k >= |Flat(most)| { assert Flat(rows)[k] == last[k - |Flat(most)|]; }
      }
    }
  }

  lemma EdgesInBounds(index: seq<nat>, edges: seq<EdgeRec>, rows: seq<seq<EdgeRec>>, n: nat)
    requires IsCsr(index, edges, rows) && |rows| == n
    requires forall i, j :: 0 <= i < n && 0 <= j < |rows[i]| ==> rows[i][j].node < n
    ensures IndexFits(index, n, |edges|)
    ensures forall i :: 0 <= i < |edges| ==> edges[i].node < n
  {
    CsrFits(index, edges, rows);
    FlatAll(rows, (e: EdgeRec) => e.node < n);
  }

  lemma AttrsInBounds(index: seq<nat>, attrs: seq<AttrRow>, rows: seq<seq<AttrRow>>, docs: seq<BaseDoc>, blobs: seq<byte>)
    requires IsCsr(index, attrs, rows) && |rows| == |docs|
    requires forall i :: 0 <= i < |docs| ==> AttrsHeld(rows[i], docs[i].attrs, blobs)
    ensures IndexFits(index, |rows|, |attrs|)
    ensures forall i :: 0 <= i < |attrs| ==> attrs[i].off + attrs[i].len <= |blobs|
  {
    CsrFits(index, attrs, rows);
    var size := |blobs|;
    FlatAll(rows, (a: AttrRow) => a.off + a.len <= size);
  }

  lemma InRowsInBounds(keys: seq<u64>, docs: seq<BaseDoc>, d: nat, j: nat)
    requires Renderable(keys, docs) && d < |docs| && j < |InRows(keys, docs)[d]|
    ensures InRows(keys, docs)[d][j].node < |docs|
  {
    EdgeRowsOk(keys, docs);
    InboundIsTranspose(EdgeRows(keys, docs), d, EdgeRec(0, 0, 0, 0));
  }

  /** Rendered tables pass every check, so every access is in bounds. */
  lemma RenderedInBounds(t: Tables, keys: seq<u64>, docs: seq<BaseDoc>, attrRows: seq<seq<AttrRow>>)
    requires Represents(t, keys, docs, attrRows)
    ensures InBounds(t)
  {
    hide InboundOf, EdgeRow, Ascending, EdgeRows, InRows, IsCsr, AttrsHeld, IndexFits, LabelFits, LabelAt, Holds;
    var n := |docs|;
    forall i | 0 <= i < n
      ensures LabelFits(t.labels, t.nodes[i].urlOff) && LabelFits(t.labels, t.nodes[i].titleOff)
      ensures LabelFits(t.labels, t.nodes[i].snippetOff) && LabelFits(t.labels, t.nodes[i].etagOff)
    {
      NodeReadsBack(t.nodes[i], keys[i], docs[i], t.labels, t.segs);
    }
    RowCounts(keys, docs);
    EdgeRowsOk(keys, docs);
    EdgesInBounds(t.edgeIndex, t.edges, EdgeRows(keys, docs), n);
    forall d, j | 0 <= d < n && 0 <= j < |InRows(keys, docs)[d]| ensures InRows(keys, docs)[d][j].node < n {
      InRowsInBounds(keys, docs, d, j);
    }
    EdgesInBounds(t.inIndex, t.inEdges, InRows(keys, docs), n);
    if t.attrIndex != [] {
      AttrsInBounds(t.attrIndex, t.attrs, attrRows, docs, t.blobs);
    } else {
      assert IndexFits([], n, 0) by { EmptyIndexFits(n); }
    }
  }

  lemma RowCounts(keys: seq<u64>, docs: seq<BaseDoc>)
    requires Renderable(keys, docs)
    ensures |EdgeRows(keys, docs)| == |InRows(keys, docs)| == |docs|
  {
  }

  lemma EmptyIndexFits(n: nat)
    ensures IndexFits([], n, 0)
  {
  }

  lemma NodeReadsBack(r: NodeRow, key: u64, d: BaseDoc, labels: seq<byte>, segs: seq<SegRow>)
    requires NodeHeld(r, key, d, labels, segs)
    ensures LabelFits(labels, r.urlOff) && Text(LabelAt(labels, r.urlOff)) == d.rec.url
    ensures LabelFits(labels, r.titleOff) && LabelAt(labels, r.titleOff) == d.rec.title
    ensures LabelFits(labels, r.snippetOff) && LabelAt(labels, r.snippetOff) == d.rec.snippet
    ensures LabelFits(labels, r.etagOff) && LabelAt(labels, r.etagOff) == d.rec.etag
  {
    hide Holds, LabelFits, LabelAt;
    LabelReadsBack(labels, r.urlOff, UrlLabel(d.rec.url));
    LabelReadsBack(labels, r.titleOff, d.rec.title);
    LabelReadsBack(labels, r.snippetOff, d.rec.snippet);
    LabelReadsBack(labels, r.etagOff, d.rec.etag);
  }
}
