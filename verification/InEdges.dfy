/** Reads through the rendered tables: they give back what was rendered, the binary search
    finds exactly the keys that are there, and inbound edges are the transpose of outbound
    ones under any overlay. */
module InEdges {
  import opened Ops
  import opened Merge
  import opened Csr
  import opened Tables
  import C = Compaction

  // ---- the tables read back ------------------------------------------------------------------

  lemma SegsReadBack(t: Tables, r: NodeRow, key: u64, d: BaseDoc)
    requires InBounds(t) && r in t.nodes && NodeHeld(r, key, d, t.labels, t.segs) && Storable(d)
    ensures r.segStart + r.segCount <= |t.segs| && r.segCount == |d.segs|
    ensures forall j :: 0 <= j < |d.segs| ==> SegAt(t, r.segStart + j) == d.segs[j]
  {
    hide Holds;
    forall j | 0 <= j < |d.segs| ensures SegAt(t, r.segStart + j) == d.segs[j] {
      LabelReadsBack(t.labels, t.segs[r.segStart + j].headingOff, Some(d.segs[j].heading));
    }
  }

  lemma EdgesReadBack(t: Tables, keys: seq<u64>, docs: seq<BaseDoc>, attrRows: seq<seq<AttrRow>>, i: nat)
    requires Represents(t, keys, docs, attrRows) && InBounds(t) && i < |docs|
    ensures EdgesAt(t, i) == docs[i].edges
  {
    hide Ascending, InBounds, AttrsHeld;
    assert InBoundsIndex(t, i) by { IndexInBounds(t, i); }
    RowOf(t.edgeIndex, t.edges, EdgeRows(keys, docs), i);
    var run := Run(t.edgeIndex, t.edges, i);
    assert run == EdgeRow(keys, docs[i].edges);
    forall j | 0 <= j < |run| ensures t.nodes[run[j].node].key == docs[i].edges[j].dst {
      assert NodeHeld(t.nodes[run[j].node], keys[run[j].node], docs[run[j].node], t.labels, t.segs);
    }
  }

  predicate InBoundsIndex(t: Tables, i: nat) {
    && (t.edgeIndex != [] ==> i + 1 < |t.edgeIndex| && t.edgeIndex[i] <= t.edgeIndex[i + 1] <= |t.edges|)
    && (t.attrIndex != [] ==> i + 1 < |t.attrIndex| && t.attrIndex[i] <= t.attrIndex[i + 1] <= |t.attrs|)
  }

  lemma IndexInBounds(t: Tables, i: nat)
    requires InBounds(t) && i < |t.nodes|
    ensures InBoundsIndex(t, i)
  {
  }

  lemma AttrsReadBack(t: Tables, keys: seq<u64>, docs: seq<BaseDoc>, attrRows: seq<seq<AttrRow>>, i: nat)
    requires Represents(t, keys, docs, attrRows) && InBounds(t) && i < |docs|
    ensures AttrsAt(t, i) == docs[i].attrs
  {
    hide Ascending, NodeHeld, EdgeRows, InRows, IsCsr, Storable;
    assert InBoundsIndex(t, i) by { IndexInBounds(t, i); }
    if t.attrIndex != [] {
      RowOf(t.attrIndex, t.attrs, attrRows, i);
      assert Run(t.attrIndex, t.attrs, i) == attrRows[i];
    }
    assert AttrsHeld(attrRows[i], docs[i].attrs, t.blobs);
  }

  lemma Assembled(t: Tables, i: nat, d: BaseDoc)
    requires InBounds(t) && i < |t.nodes|
    requires NodeHeld(t.nodes[i], t.nodes[i].key, d, t.labels, t.segs) && Storable(d)
    requires EdgesAt(t, i) == d.edges && AttrsAt(t, i) == d.attrs
    ensures DocAt(t, i) == d
  {
    hide EdgesAt, AttrsAt, SegAt, LabelAt, LabelFits, Holds;
    NodeReadsBack(t.nodes[i], t.nodes[i].key, d, t.labels, t.segs);
    SegsReadBack(t, t.nodes[i], t.nodes[i].key, d);
    assert DocAt(t, i).segs == d.segs;
  }

  /** Rendering and reading back is the identity on every node. */
  lemma DocReadsBack(t: Tables, keys: seq<u64>, docs: seq<BaseDoc>, attrRows: seq<seq<AttrRow>>, i: nat)
    requires Represents(t, keys, docs, attrRows) && i < |docs|
    ensures InBounds(t) && DocAt(t, i) == docs[i]
  {
    hide InBounds, EdgesAt, AttrsAt, EdgeRows, InRows, IsCsr, AttrsHeld, DocAt, Storable, Ascending;
    RenderedInBounds(t, keys, docs, attrRows);
    EdgesReadBack(t, keys, docs, attrRows, i);
    AttrsReadBack(t, keys, docs, attrRows, i);
    Assembled(t, i, docs[i]);
  }

  // ---- finding a node --------------------------------------------------------------------------

  ghost predicate NodesSorted(nodes: seq<NodeRow>) {
    forall i, j :: 0 <= i < j < |nodes| ==> nodes[i].key < nodes[j].key
  }

  /** The binary search every lookup goes through. */
  method FindNode(nodes: seq<NodeRow>, key: u64) returns (id: Option<nat>)
    requires NodesSorted(nodes)
    ensures id.Some? ==> id.value < |nodes| && nodes[id.value].key == key
    ensures id.None? ==> forall i :: 0 <= i < |nodes| ==> nodes[i].key != key
  {
    var lo, hi := 0, |nodes|;
    while lo < hi
      invariant 0 <= lo <= hi <= |nodes|
      invariant forall i :: 0 <= i < lo ==> nodes[i].key < key
      invariant forall i :: hi <= i < |nodes| ==> nodes[i].key > key
    {
      var mid := (lo + hi) / 2;
      if nodes[mid].key < key {
        lo := mid + 1;
      } else if nodes[mid].key > key {
        hi := mid;
      } else {
        return Some(mid);
      }
    }
    return None;
  }

  /** A base document by key. */
  ghost function Lookup(t: Tables, key: u64): Option<BaseDoc>
    requires InBounds(t)
  {
    if i :| 0 <= i < |t.nodes| && t.nodes[i].key == key then Some(DocAt(t, i)) else None
  }

  lemma RenderedSorted(t: Tables, keys: seq<u64>, docs: seq<BaseDoc>, attrRows: seq<seq<AttrRow>>)
    requires Represents(t, keys, docs, attrRows)
    ensures NodesSorted(t.nodes)
    ensures forall i :: 0 <= i < |docs| ==> t.nodes[i].key == keys[i]
  {
    hide EdgeRows, InRows, IsCsr, AttrsHeld, Holds, Ascending;
  }

  lemma LookupAt(t: Tables, i: nat)
    requires InBounds(t) && NodesSorted(t.nodes) && i < |t.nodes|
    ensures Lookup(t, t.nodes[i].key) == Some(DocAt(t, i))
  {
    hide InBounds, DocAt;
    forall j | 0 <= j < |t.nodes| && t.nodes[j].key == t.nodes[i].key ensures j == i {
      assert !(j < i) && !(i < j);
    }
  }

  /** Looking a key up in the tables finds the document rendered for it, if any. */
  lemma LookupReadsBack(t: Tables, keys: seq<u64>, docs: seq<BaseDoc>, attrRows: seq<seq<AttrRow>>, key: u64)
    requires Represents(t, keys, docs, attrRows)
    ensures InBounds(t)
    ensures |keys| == |docs|
    ensures Lookup(t, key) == if key in keys then Some(docs[IdOf(keys, key)]) else None
  {
    RenderedInBounds(t, keys, docs, attrRows);
    RenderedSorted(t, keys, docs, attrRows);
    assert |t.nodes| == |docs| == |keys|;
    hide InBounds, DocAt, Represents, NodesSorted;
    if key in keys {
      var i := IdOf(keys, key);
      DocReadsBack(t, keys, docs, attrRows, i);
      LookupAt(t, i);
    } else {
      forall j | 0 <= j < |t.nodes| ensures t.nodes[j].key != key {
        assert keys[j] in keys;
      }
    }
  }

  // ---- inbound edges ------------------------------------------------------------------------------

  datatype Inbound = Inbound(src: u64, etype: byte, flags: byte, weight: u16)

  /** A source whose edges the overlay replaced or removed. */
  predicate Replaced(overlay: Overlay, src: u64) {
    src in overlay && (overlay[src].edges.Some? || overlay[src].removed || overlay[src].severed)
  }

  function Turned(nodes: seq<NodeRow>, e: EdgeRec): Inbound
    requires e.node < |nodes|
  {
    Inbound(nodes[e.node].key, e.etype, e.flags, e.weight)
  }

  /** The base's inbound records whose source still has its base edges. */
  function FromBase(nodes: seq<NodeRow>, overlay: Overlay, run: seq<EdgeRec>): seq<Inbound>
    requires forall j :: 0 <= j < |run| ==> run[j].node < |nodes|
  {
    if run == [] then []
    else
      var last := Turned(nodes, run[|run| - 1]);
      FromBase(nodes, overlay, run[..|run| - 1]) + (if Replaced(overlay, last.src) then [] else [last])
  }

  function EdgesOp(p: Patch): seq<Edge> {
    if p.edges.Some? && p.edges.value.Edges? then p.edges.value.edges else []
  }

  function EntryHits(edges: seq<Edge>, src: u64, key: u64): seq<Inbound> {
    if edges == [] then []
    else
      var last := edges[|edges| - 1];
      EntryHits(edges[..|edges| - 1], src, key)
      + (if last.dst == key then [Inbound(src, last.etype, last.flags, last.weight)] else [])
  }

  /** The overlay's edges to `key`, sources in the order they are visited. */
  function FromOverlay(overlay: Overlay, srcs: seq<u64>, key: u64): seq<Inbound>
    requires forall s :: s in srcs ==> s in overlay
  {
    if srcs == [] then []
    else
      var src := srcs[|srcs| - 1];
      FromOverlay(overlay, srcs[..|srcs| - 1], key)
      + (if overlay[src].removed then [] else EntryHits(EdgesOp(overlay[src]), src, key))
  }

  function InsertBySrc(xs: seq<Inbound>, x: Inbound): seq<Inbound> {
    if xs == [] || xs[|xs| - 1].src <= x.src then xs + [x]
    else InsertBySrc(xs[..|xs| - 1], x) + [xs[|xs| - 1]]
  }

  function SortBySrc(xs: seq<Inbound>): seq<Inbound> {
    if xs == [] then [] else InsertBySrc(SortBySrc(xs[..|xs| - 1]), xs[|xs| - 1])
  }

  function RunFor(t: Tables, id: Option<nat>): seq<EdgeRec>
    requires InBounds(t) && (id.Some? ==> id.value < |t.nodes|)
    ensures forall j :: 0 <= j < |RunFor(t, id)| ==> RunFor(t, id)[j].node < |t.nodes|
  {
    if id.None? then [] else Run(t.inIndex, t.inEdges, id.value)
  }

  /** `id` is the node with this key, or there is none. */
  predicate Names(t: Tables, key: u64, id: Option<nat>) {
    && (id.Some? ==> id.value < |t.nodes| && t.nodes[id.value].key == key)
    && (id.None? ==> forall i :: 0 <= i < |t.nodes| ==> t.nodes[i].key != key)
  }

  function InboundFrom(t: Tables, overlay: Overlay, srcs: seq<u64>, key: u64, id: Option<nat>): seq<Inbound>
    requires InBounds(t) && (id.Some? ==> id.value < |t.nodes|) && forall s :: s in srcs ==> s in overlay
  {
    FromBase(t.nodes, overlay, RunFor(t, id)) + SortBySrc(FromOverlay(overlay, srcs, key))
  }

  /** The base's inbound run of a node, without the sources the overlay replaced. */
  method ReadBaseRun(t: Tables, overlay: Overlay, id: Option<nat>) returns (out: seq<Inbound>)
    requires InBounds(t) && (id.Some? ==> id.value < |t.nodes|)
    ensures out == FromBase(t.nodes, overlay, RunFor(t, id))
  {
    hide InBounds;
    out := [];
    var run := RunFor(t, id);
    var i := 0;
    while i < |run|
      invariant 0 <= i <= |run|
      invariant out == FromBase(t.nodes, overlay, run[..i])
    {
      var src := t.nodes[run[i].node].key;
      assert run[..i + 1][..i] == run[..i];
      if !Replaced(overlay, src) {
        out := out + [Inbound(src, run[i].etype, run[i].flags, run[i].weight)];
      }
      i := i + 1;
    }
    assert run[..|run|] == run;
  }

  /** Inbound edges of `key`: the base run first, then the overlay's, sorted by source. */
  method ReadInEdges(t: Tables, overlay: Overlay, srcs: seq<u64>, key: u64) returns (out: seq<Inbound>)
    requires InBounds(t) && NodesSorted(t.nodes)
    requires forall s :: s in srcs <==> s in overlay
    ensures exists id :: Names(t, key, id) && out == InboundFrom(t, overlay, srcs, key, id)
  {
    hide InBounds, FromBase, FromOverlay, SortBySrc, RunFor, NodesSorted;
    var found := FindNode(t.nodes, key);
    assert Names(t, key, found);
    out := ReadBaseRun(t, overlay, found);
    var later := GroupInbound(overlay, srcs, key);
    out := out + later;
    assert out == InboundFrom(t, overlay, srcs, key, found);
  }

  lemma FromOverlayStep(overlay: Overlay, srcs: seq<u64>, i: nat, key: u64)
    requires (forall s :: s in srcs ==> s in overlay) && i < |srcs|
    ensures FromOverlay(overlay, srcs[..i + 1], key) == FromOverlay(overlay, srcs[..i], key)
      + (if overlay[srcs[i]].removed then [] else EntryHits(EdgesOp(overlay[srcs[i]]), srcs[i], key))
  {
    assert srcs[..i + 1][..i] == srcs[..i];
  }

  lemma EntryHitsStep(edges: seq<Edge>, i: nat, src: u64, key: u64)
    requires i < |edges|
    ensures EntryHits(edges[..i + 1], src, key) == EntryHits(edges[..i], src, key)
      + (if edges[i].dst == key then [Inbound(src, edges[i].etype, edges[i].flags, edges[i].weight)] else [])
  {
    assert edges[..i + 1][..i] == edges[..i];
  }

  lemma NoHits(overlay: Overlay, src: u64, key: u64)
    ensures FromOverlay(overlay, [], key) == [] && EntryHits([], src, key) == [] && SortBySrc([]) == []
  {
  }

  /** Visit the overlay in any order and keep the entries that point at `key`. */
  method GroupInbound(overlay: Overlay, srcs: seq<u64>, key: u64) returns (sorted: seq<Inbound>)
    requires forall s :: s in srcs ==> s in overlay
    ensures sorted == SortBySrc(FromOverlay(overlay, srcs, key))
  {
    hide FromOverlay, EntryHits, SortBySrc, EdgesOp;
    var hits: seq<Inbound> := [];
    NoHits(overlay, 0, key);
    var i := 0;
    while i < |srcs|
      invariant 0 <= i <= |srcs|
      invariant hits == FromOverlay(overlay, srcs[..i], key)
    {
      FromOverlayStep(overlay, srcs, i, key);
      var p := overlay[srcs[i]];
      if !p.removed {
        var found := HitsOf(EdgesOp(p), srcs[i], key);
        hits := hits + found;
      }
      i := i + 1;
    }
    assert srcs[..|srcs|] == srcs;
    sorted := Sorted(hits);
  }

  method HitsOf(edges: seq<Edge>, src: u64, key: u64) returns (hits: seq<Inbound>)
    ensures hits == EntryHits(edges, src, key)
  {
    hide EntryHits;
    hits := [];
    NoHits(map[], src, key);
    var j := 0;
    while j < |edges|
      invariant 0 <= j <= |edges|
      invariant hits == EntryHits(edges[..j], src, key)
    {
      EntryHitsStep(edges, j, src, key);
      if edges[j].dst == key {
        hits := hits + [Inbound(src, edges[j].etype, edges[j].flags, edges[j].weight)];
      }
      j := j + 1;
    }
    assert edges[..|edges|] == edges;
  }

  method Sorted(hits: seq<Inbound>) returns (sorted: seq<Inbound>)
    ensures sorted == SortBySrc(hits)
  {
    hide InsertBySrc;
    sorted := [];
    var i := 0;
    while i < |hits|
      invariant 0 <= i <= |hits|
      invariant sorted == SortBySrc(hits[..i])
    {
      assert hits[..i + 1][..i] == hits[..i];
      sorted := InsertBySrc(sorted, hits[i]);
      i := i + 1;
    }
    assert hits[..|hits|] == hits;
  }

  // ---- the transpose ----------------------------------------------------------------------------------

  ghost predicate SrcsAscend(xs: seq<Inbound>) {
    forall i, j :: 0 <= i < j < |xs| ==> xs[i].src < xs[j].src
  }

  ghost predicate DistinctSrcs(xs: seq<Inbound>) {
    forall i, j :: 0 <= i < j < |xs| ==> xs[i].src != xs[j].src
  }

  lemma {:induction false} InsertPermutes(xs: seq<Inbound>, x: Inbound)
    ensures multiset(InsertBySrc(xs, x)) == multiset(xs) + multiset{x}
  {
    if xs != [] {
      assert xs == xs[..|xs| - 1] + [xs[|xs| - 1]];
      if xs[|xs| - 1].src > x.src { InsertPermutes(xs[..|xs| - 1], x); }
    }
  }

  lemma {:induction false} SortPermutes(xs: seq<Inbound>)
    ensures multiset(SortBySrc(xs)) == multiset(xs)
  {
    hide InsertBySrc;
    if xs != [] {
      var most, last := xs[..|xs| - 1], xs[|xs| - 1];
      SortPermutes(most);
      InsertPermutes(SortBySrc(most), last);
      assert xs == most + [last];
    }
  }

  lemma {:induction false} InsertAscends(xs: seq<Inbound>, x: Inbound)
    requires SrcsAscend(xs) && forall i :: 0 <= i < |xs| ==> xs[i].src != x.src
    ensures SrcsAscend(InsertBySrc(xs, x))
  {
    if xs != [] && xs[|xs| - 1].src > x.src {
      var most, last := xs[..|xs| - 1], xs[|xs| - 1];
      InsertAscends(most, x);
      InsertPermutes(most, x);
      var rest := InsertBySrc(most, x);
      forall i | 0 <= i < |rest| ensures rest[i].src < last.src { assert rest[i] in multiset(most) + multiset{x}; }
    }
  }

  lemma {:induction false} SortAscends(xs: seq<Inbound>)
    requires DistinctSrcs(xs)
    ensures SrcsAscend(SortBySrc(xs))
  {
    hide InsertBySrc;
    if xs != [] {
      var most, last := xs[..|xs| - 1], xs[|xs| - 1];
      SortAscends(most);
      SortPermutes(most);
      var sorted := SortBySrc(most);
      forall i | 0 <= i < |sorted| ensures sorted[i].src != last.src { assert sorted[i] in multiset(most); }
      InsertAscends(sorted, last);
    }
  }

  lemma {:induction false} OnceEach(xs: seq<Inbound>, x: Inbound)
    requires DistinctSrcs(xs)
    ensures multiset(xs)[x] == if x in xs then 1 else 0
  {
    if xs != [] {
      var most, last := xs[..|xs| - 1], xs[|xs| - 1];
      OnceEach(most, x);
      assert xs == most + [last];
      forall i | 0 <= i < |most| ensures most[i] != last {
        assert xs[i].src != xs[|xs| - 1].src;
      }
    }
  }

  lemma {:induction false} FromBaseStep(nodes: seq<NodeRow>, overlay: Overlay, most: seq<EdgeRec>, last: EdgeRec)
    requires last.node < |nodes| && forall j :: 0 <= j < |most| ==> most[j].node < |nodes|
    ensures FromBase(nodes, overlay, most + [last]) == FromBase(nodes, overlay, most)
      + (if Replaced(overlay, nodes[last.node].key) then [] else [Turned(nodes, last)])
  {
    assert (most + [last])[..|most + [last]| - 1] == most;
  }

  lemma FromBaseEmpty(nodes: seq<NodeRow>, overlay: Overlay)
    ensures FromBase(nodes, overlay, []) == []
  {
  }

  /** Some record of the run, turned round, is `x`. */
  ghost predicate InRun(nodes: seq<NodeRow>, run: seq<EdgeRec>, x: Inbound) {
    exists j :: 0 <= j < |run| && run[j].node < |nodes| && Turned(nodes, run[j]) == x
  }

  lemma InRunStep(nodes: seq<NodeRow>, most: seq<EdgeRec>, last: EdgeRec, x: Inbound)
    requires last.node < |nodes|
    ensures InRun(nodes, most + [last], x) <==> InRun(nodes, most, x) || Turned(nodes, last) == x
  {
    var run := most + [last];
    if j :| 0 <= j < |most| && most[j].node < |nodes| && Turned(nodes, most[j]) == x { assert run[j] == most[j]; }
    assert run[|most|] == last;
  }

  /** From the base: exactly the records of the run whose source kept its base edges. */
  lemma {:induction false} FromBaseMembers(nodes: seq<NodeRow>, overlay: Overlay, run: seq<EdgeRec>, x: Inbound)
    requires forall j :: 0 <= j < |run| ==> run[j].node < |nodes|
    ensures x in FromBase(nodes, overlay, run) <==> !Replaced(overlay, x.src) && InRun(nodes, run, x)
  {
    hide Replaced, FromBase, InRun;
    if run == [] {
      FromBaseEmpty(nodes, overlay);
      assert !InRun(nodes, [], x) by { NotInEmptyRun(nodes, x); }
    } else {
      var most, last := run[..|run| - 1], run[|run| - 1];
      FromBaseMembers(nodes, overlay, most, x);
      assert run == most + [last];
      FromBaseStep(nodes, overlay, most, last);
      InRunStep(nodes, most, last, x);
    }
  }

  lemma NotInEmptyRun(nodes: seq<NodeRow>, x: Inbound)
    ensures !InRun(nodes, [], x)
  {
  }

  /** Its sources ascend, so none repeats. */
  lemma {:induction false} FromBaseOrder(nodes: seq<NodeRow>, overlay: Overlay, run: seq<EdgeRec>)
    requires NodesSorted(nodes) && NodesAscend(run)
    requires forall j :: 0 <= j < |run| ==> run[j].node < |nodes|
    ensures SrcsAscend(FromBase(nodes, overlay, run)) && DistinctSrcs(FromBase(nodes, overlay, run))
    ensures forall y :: y in FromBase(nodes, overlay, run) ==>
      !Replaced(overlay, y.src) && run != [] && y.src <= nodes[run[|run| - 1].node].key
  {
    hide Replaced, FromBase;
    if run == [] {
      FromBaseEmpty(nodes, overlay);
    } else {
      var most, last := run[..|run| - 1], run[|run| - 1];
      FromBaseOrder(nodes, overlay, most);
      assert run == most + [last];
      FromBaseStep(nodes, overlay, most, last);
      var before := FromBase(nodes, overlay, most);
      forall i | 0 <= i < |before| ensures before[i].src < nodes[last.node].key {
        assert before[i] in before;
        assert run[|run| - 2].node < run[|run| - 1].node;
      }
    }
  }

  lemma {:induction false} EntryNone(edges: seq<Edge>, src: u64, key: u64)
    requires forall i :: 0 <= i < |edges| ==> edges[i].dst != key
    ensures EntryHits(edges, src, key) == []
  {
    if edges != [] { EntryNone(edges[..|edges| - 1], src, key); }
  }

  lemma {:induction false} EntryAt(edges: seq<Edge>, src: u64, key: u64, i: nat)
    requires Ascending(edges) && i < |edges| && edges[i].dst == key
    ensures EntryHits(edges, src, key) == [Inbound(src, edges[i].etype, edges[i].flags, edges[i].weight)]
  {
    var most := edges[..|edges| - 1];
    if i == |edges| - 1 {
      EntryNone(most, src, key);
    } else {
      EntryAt(most, src, key, i);
      assert edges[i].dst < edges[|edges| - 1].dst;
    }
  }

  lemma EntryExactly(edges: seq<Edge>, src: u64, key: u64, x: Inbound)
    requires Ascending(edges)
    ensures x in EntryHits(edges, src, key) <==> x.src == src && Edge(key, x.etype, x.flags, x.weight) in edges
    ensures |EntryHits(edges, src, key)| <= 1
    ensures forall y :: y in EntryHits(edges, src, key) ==> y.src == src
  {
    if i :| 0 <= i < |edges| && edges[i].dst == key {
      EntryAt(edges, src, key, i);
      if Edge(key, x.etype, x.flags, x.weight) in edges {
        var j :| 0 <= j < |edges| && edges[j] == Edge(key, x.etype, x.flags, x.weight);
        EntryAt(edges, src, key, j);
      }
    } else {
      EntryNone(edges, src, key);
    }
  }

  ghost predicate NoRepeats(srcs: seq<u64>) { forall i, j :: 0 <= i < j < |srcs| ==> srcs[i] != srcs[j] }

  /** What folding validated ops leaves: an edge patch is an edge set, ascending. */
  ghost predicate OverlayOk(overlay: Overlay) {
    forall s :: s in overlay ==>
      Ascending(EdgesOp(overlay[s])) && (overlay[s].edges.Some? ==> overlay[s].edges.value.Edges?)
  }

  /** From the overlay: exactly the entries of the sources that are not removed. */
  lemma {:induction false} FromOverlayExactly(overlay: Overlay, srcs: seq<u64>, key: u64, x: Inbound)
    requires (forall s :: s in srcs ==> s in overlay) && NoRepeats(srcs) && OverlayOk(overlay)
    ensures x in FromOverlay(overlay, srcs, key) <==>
            && x.src in srcs && !overlay[x.src].removed
            && Edge(key, x.etype, x.flags, x.weight) in EdgesOp(overlay[x.src])
    ensures DistinctSrcs(FromOverlay(overlay, srcs, key))
    ensures forall i :: 0 <= i < |FromOverlay(overlay, srcs, key)| ==>
      FromOverlay(overlay, srcs, key)[i].src in srcs && EdgesOp(overlay[FromOverlay(overlay, srcs, key)[i].src]) != []
  {
    hide EntryHits, EdgesOp, Ascending;
    if srcs != [] {
      var most, src := srcs[..|srcs| - 1], srcs[|srcs| - 1];
      FromOverlayExactly(overlay, most, key, x);
      assert srcs == most + [src] && src !in most;
      EntryExactly(EdgesOp(overlay[src]), src, key, x);
      if EdgesOp(overlay[src]) == [] { NoHits(overlay, src, key); }
    }
  }

  /** The base run of `id` holds exactly the mirrored edges to its key. */
  lemma BaseRun(t: Tables, keys: seq<u64>, docs: seq<BaseDoc>, attrRows: seq<seq<AttrRow>>, id: nat)
    requires Represents(t, keys, docs, attrRows) && id < |docs|
    ensures InBounds(t) && RunFor(t, Some(id)) == InboundOf(EdgeRows(keys, docs), id)
  {
    hide InBounds, Ascending, Storable, NodeHeld, AttrsHeld;
    RenderedInBounds(t, keys, docs, attrRows);
    RowOf(t.inIndex, t.inEdges, InRows(keys, docs), id);
  }

  lemma MirroredEdge(keys: seq<u64>, docs: seq<BaseDoc>, id: nat, src: nat, e: EdgeRec)
    requires Renderable(keys, docs) && id < |docs| && src < |docs| && e.node == id
    ensures e in EdgeRow(keys, docs[src].edges) <==> Edge(keys[id], e.etype, e.flags, e.weight) in docs[src].edges
  {
    hide Storable, Ascending;
    var edges := docs[src].edges;
    if e in EdgeRow(keys, edges) {
      var j :| 0 <= j < |edges| && EdgeRow(keys, edges)[j] == e;
      assert edges[j] == Edge(keys[id], e.etype, e.flags, e.weight);
    }
    if Edge(keys[id], e.etype, e.flags, e.weight) in edges {
      var j :| 0 <= j < |edges| && edges[j] == Edge(keys[id], e.etype, e.flags, e.weight);
      IdUnique(keys, id);
      assert EdgeRow(keys, edges)[j] == e;
    }
  }

  function AsEdge(key: u64, x: Inbound): Edge { Edge(key, x.etype, x.flags, x.weight) }

  /** The base half of the answer: the edges that sources kept from the base. */
  lemma BaseHalf(t: Tables, keys: seq<u64>, docs: seq<BaseDoc>, attrRows: seq<seq<AttrRow>>,
                 overlay: Overlay, id: Option<nat>, key: u64, x: Inbound)
    requires Represents(t, keys, docs, attrRows)
    requires id.Some? ==> id.value < |docs| && keys[id.value] == key
    requires id.None? ==> key !in keys
    ensures InBounds(t) && |keys| == |docs|
    ensures var run := RunFor(t, id);
            && SrcsAscend(FromBase(t.nodes, overlay, run)) && DistinctSrcs(FromBase(t.nodes, overlay, run))
            && (forall y :: y in FromBase(t.nodes, overlay, run) ==> !Replaced(overlay, y.src))
            && (x in FromBase(t.nodes, overlay, run) <==>
                  !Replaced(overlay, x.src) && x.src in keys && AsEdge(key, x) in docs[IdOf(keys, x.src)].edges)
  {
    hide InBounds, NodeHeld, AttrsHeld, IsCsr, Replaced, RunFor, EdgeRows, InRows, EdgeRow, InRun, Storable, Ascending,
      HeadingsFit, RowsOk, NodesAscend, DistinctSrcs, SrcsAscend;
    RenderedInBounds(t, keys, docs, attrRows);
    RenderedSorted(t, keys, docs, attrRows);
    if id.None? {
      NoRun(t);
      FromBaseEmpty(t.nodes, overlay);
      assert DistinctSrcs([]) && SrcsAscend([]) by { NoSrcs(); }
      if x.src in keys { NoEdgeToStranger(keys, docs, key, x); }
    } else {
      BaseRun(t, keys, docs, attrRows, id.value);
      EdgeRowsOk(keys, docs);
      var run := RunFor(t, id);
      assert forall s :: 0 <= s < |EdgeRows(keys, docs)| ==> NodesAscend(EdgeRows(keys, docs)[s]) by { RowsAscend(EdgeRows(keys, docs)); }
      InboundIsTranspose(EdgeRows(keys, docs), id.value, EdgeRec(0, 0, 0, 0));
      RowCounts(keys, docs);
      FromBaseMembers(t.nodes, overlay, run, x);
      FromBaseOrder(t.nodes, overlay, run);
      RunExactly(t, keys, docs, attrRows, id.value, run, x);
    }
  }

  lemma RowsAscend(rows: seq<seq<EdgeRec>>)
    requires RowsOk(rows)
    ensures forall s :: 0 <= s < |rows| ==> NodesAscend(rows[s])
  {
  }

  lemma NoSrcs()
    ensures DistinctSrcs([]) && SrcsAscend([])
  {
  }

  lemma NoRun(t: Tables)
    requires InBounds(t)
    ensures RunFor(t, None) == []
  {
  }

  lemma NoEdgeToStranger(keys: seq<u64>, docs: seq<BaseDoc>, key: u64, x: Inbound)
    requires Renderable(keys, docs) && key !in keys && x.src in keys
    ensures AsEdge(key, x) !in docs[IdOf(keys, x.src)].edges
  {
    hide Storable, Ascending;
  }

  lemma RunExactly(t: Tables, keys: seq<u64>, docs: seq<BaseDoc>, attrRows: seq<seq<AttrRow>>,
                   id: nat, run: seq<EdgeRec>, x: Inbound)
    requires Represents(t, keys, docs, attrRows) && id < |docs|
    requires run == InboundOf(EdgeRows(keys, docs), id)
    requires forall j :: 0 <= j < |run| ==> run[j].node < |t.nodes|
    ensures InRun(t.nodes, run, x) <==> x.src in keys && AsEdge(keys[id], x) in docs[IdOf(keys, x.src)].edges
  {
    hide NodeHeld, AttrsHeld, IsCsr, InRows, InboundOf, Storable, Ascending, HeadingsFit;
    RenderedSorted(t, keys, docs, attrRows);
    EdgeRowsOk(keys, docs);
    var rows := EdgeRows(keys, docs);
    if j :| 0 <= j < |run| && Turned(t.nodes, run[j]) == x {
      var src := run[j].node;
      InboundIsTranspose(rows, id, run[j]);
      MirroredEdge(keys, docs, id, src, run[j].(node := id));
      IdUnique(keys, src);
    }
    if x.src in keys && AsEdge(keys[id], x) in docs[IdOf(keys, x.src)].edges {
      var src := IdOf(keys, x.src);
      var e := EdgeRec(src, x.etype, x.flags, x.weight);
      MirroredEdge(keys, docs, id, src, e.(node := id));
      InboundIsTranspose(rows, id, e);
      var j :| 0 <= j < |run| && run[j] == e;
      assert Turned(t.nodes, run[j]) == x;
    }
  }

  /** Two lists over different sources, each naming a source once. */
  lemma OnceInBoth(a: seq<Inbound>, b: seq<Inbound>, x: Inbound)
    requires DistinctSrcs(a) && DistinctSrcs(b)
    requires x in a ==> x !in b
    ensures multiset(a + SortBySrc(b))[x] == if x in a || x in b then 1 else 0
  {
    OnceEach(a, x);
    OnceEach(b, x);
    SortPermutes(b);
  }

  /** For every base compaction can write and every overlay: an inbound edge is reported
      exactly once if it is among its source's outbound edges, and never otherwise. */
  lemma InEdgesAreTranspose(
    t: Tables, keys: seq<u64>, docs: seq<BaseDoc>, attrRows: seq<seq<AttrRow>>,
    overlay: Overlay, srcs: seq<u64>, key: u64, id: Option<nat>, x: Inbound)
    requires Represents(t, keys, docs, attrRows) && OverlayOk(overlay)
    requires NoRepeats(srcs) && forall s :: s in srcs <==> s in overlay
    requires Names(t, key, id)
    ensures InBounds(t)
    ensures multiset(InboundFrom(t, overlay, srcs, key, id))[x] ==
              if AsEdge(key, x) in Neighbors(Lookup(t, x.src), C.At(overlay, x.src)) then 1 else 0
  {
    hide InBounds, NodeHeld, AttrsHeld, IsCsr, RunFor, EdgeRows, InRows, EdgeRow, Lookup, FromBase, FromOverlay, SortBySrc,
      Ascending, DistinctSrcs, IdOf, Storable, HeadingsFit;
    RenderedSorted(t, keys, docs, attrRows);
    assert id.None? ==> key !in keys by {
      if key in keys { assert t.nodes[IdOf(keys, key)].key == key; }
    }
    BaseHalf(t, keys, docs, attrRows, overlay, id, key, x);
    LookupReadsBack(t, keys, docs, attrRows, x.src);
    FromOverlayExactly(overlay, srcs, key, x);
    var a, b := FromBase(t.nodes, overlay, RunFor(t, id)), FromOverlay(overlay, srcs, key);
    OnceInBoth(a, b, x);
  }

  /** In which order: the base's, whose sources the overlay leaves alone, then the overlay's,
      either in ascending order of source. */
  ghost predicate InOrder(overlay: Overlay, out: seq<Inbound>, base: nat)
    requires base <= |out|
  {
    && SrcsAscend(out[..base]) && SrcsAscend(out[base..])
    && (forall i :: 0 <= i < base ==> !Replaced(overlay, out[i].src))
    && forall i :: base <= i < |out| ==> out[i].src in overlay && overlay[out[i].src].edges.Some?
  }

  lemma BaseFirst(t: Tables, overlay: Overlay, srcs: seq<u64>, key: u64, id: Option<nat>)
    requires InBounds(t) && (id.Some? ==> id.value < |t.nodes|) && forall s :: s in srcs ==> s in overlay
    ensures |FromBase(t.nodes, overlay, RunFor(t, id))| <= |InboundFrom(t, overlay, srcs, key, id)|
  {
  }

  lemma InEdgesInOrder(
    t: Tables, keys: seq<u64>, docs: seq<BaseDoc>, attrRows: seq<seq<AttrRow>>,
    overlay: Overlay, srcs: seq<u64>, key: u64, id: Option<nat>)
    requires Represents(t, keys, docs, attrRows) && OverlayOk(overlay)
    requires NoRepeats(srcs) && forall s :: s in srcs <==> s in overlay
    requires Names(t, key, id)
    ensures InBounds(t)
    ensures var base := |FromBase(t.nodes, overlay, RunFor(t, id))|;
            InOrder(overlay, InboundFrom(t, overlay, srcs, key, id), base)
  {
    hide InBounds, NodeHeld, AttrsHeld, IsCsr, RunFor, EdgeRows, InRows, EdgeRow, FromBase, FromOverlay, SortBySrc,
      Ascending, DistinctSrcs, SrcsAscend, IdOf, Storable, HeadingsFit, Replaced;
    RenderedSorted(t, keys, docs, attrRows);
    assert id.None? ==> key !in keys by {
      if key in keys { assert t.nodes[IdOf(keys, key)].key == key; }
    }
    var x := Inbound(0, 0, 0, 0);
    BaseHalf(t, keys, docs, attrRows, overlay, id, key, x);
    FromOverlayExactly(overlay, srcs, key, x);
    var a, b := FromBase(t.nodes, overlay, RunFor(t, id)), FromOverlay(overlay, srcs, key);
    SortAscends(b);
    SortPermutes(b);
    var out := InboundFrom(t, overlay, srcs, key, id);
    assert out[..|a|] == a && out[|a|..] == SortBySrc(b);
    forall i | |a| <= i < |out| ensures out[i].src in overlay && overlay[out[i].src].edges.Some? {
      assert out[i] == SortBySrc(b)[i - |a|];
      assert out[i] in multiset(SortBySrc(b)) && out[i] in multiset(b);
      var j :| 0 <= j < |b| && b[j] == out[i];
    }
  }

  /** Reading inbound edges of a rendered store: each edge to `key` once, exactly those of the
      outbound reads, in order. */
  method InboundEdges(
    t: Tables, ghost keys: seq<u64>, ghost docs: seq<BaseDoc>, ghost attrRows: seq<seq<AttrRow>>,
    overlay: Overlay, srcs: seq<u64>, key: u64) returns (out: seq<Inbound>)
    requires Represents(t, keys, docs, attrRows) && OverlayOk(overlay)
    requires NoRepeats(srcs) && forall s :: s in srcs <==> s in overlay
    ensures InBounds(t)
    ensures forall x: Inbound :: multiset(out)[x] ==
              if AsEdge(key, x) in Neighbors(Lookup(t, x.src), C.At(overlay, x.src)) then 1 else 0
    ensures exists base: nat :: base <= |out| && InOrder(overlay, out, base)
  {
    hide InBounds, Represents, NodesSorted, InboundFrom, Lookup, OverlayOk, NoRepeats, InOrder;
    RenderedInBounds(t, keys, docs, attrRows);
    RenderedSorted(t, keys, docs, attrRows);
    out := ReadInEdges(t, overlay, srcs, key);
    ghost var id :| Names(t, key, id) && out == InboundFrom(t, overlay, srcs, key, id);
    InEdgesInOrder(t, keys, docs, attrRows, overlay, srcs, key, id);
    BaseFirst(t, overlay, srcs, key, id);
    forall x: Inbound
      ensures multiset(out)[x] == if AsEdge(key, x) in Neighbors(Lookup(t, x.src), C.At(overlay, x.src)) then 1 else 0
    {
      InEdgesAreTranspose(t, keys, docs, attrRows, overlay, srcs, key, id, x);
    }
  }
}
