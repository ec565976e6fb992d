/** Walks over a snapshot's own edges: upstream and downstream mirror each other, because
    what a snapshot reports inbound is the transpose of what it reports outbound. */
module Lineage {
  import opened Ops
  import opened Merge
  import opened Tables
  import opened InEdges
  import opened Traverse
  import C = Compaction

  /** The EXACT bit of an edge's flags. */
  predicate IsExact(flags: byte) { flags / 4 % 2 == 1 }

  /** Exact just when bit 2 is set. */
  lemma ExactBit(flags: byte)
    ensures IsExact(flags) <==> flags % 8 >= 4
  {
    assert flags == 8 * (flags / 8) + flags % 8;
  }

  function OutLink(e: Edge): Link { Link(e.dst, e.etype, IsExact(e.flags)) }

  function InLink(x: Inbound): Link { Link(x.src, x.etype, IsExact(x.flags)) }

  ghost function Outbound(t: Tables, overlay: Overlay, key: u64): seq<Edge>
    requires InBounds(t)
  {
    Neighbors(Lookup(t, key), C.At(overlay, key))
  }

  ghost function IdAt(t: Tables, key: u64): (id: Option<nat>)
    ensures Names(t, key, id)
  {
    if i :| 0 <= i < |t.nodes| && t.nodes[i].key == key then Some(i) else None
  }

  /** The graph offers, at every node, the links of the snapshot's outbound and inbound edges. */
  ghost predicate OffersSnapshot(g: Graph, t: Tables, overlay: Overlay, srcs: seq<u64>)
    requires InBounds(t) && forall s :: s in srcs ==> s in overlay
  {
    forall k: u64 ::
      && OfEdges(g.outLinks(k), Outbound(t, overlay, k))
      && OfInbound(g.inLinks(k), InboundFrom(t, overlay, srcs, k, IdAt(t, k)))
  }

  predicate OfEdges(ls: seq<Link>, es: seq<Edge>) {
    |ls| == |es| && forall i :: 0 <= i < |ls| ==> ls[i] == OutLink(es[i])
  }

  predicate OfInbound(ls: seq<Link>, xs: seq<Inbound>) {
    |ls| == |xs| && forall i :: 0 <= i < |ls| ==> ls[i] == InLink(xs[i])
  }

  lemma OutLinkFrom(ls: seq<Link>, es: seq<Edge>, l: Link) returns (e: Edge)
    requires OfEdges(ls, es) && l in ls
    ensures e in es && OutLink(e) == l
  {
    var i :| 0 <= i < |ls| && ls[i] == l;
    e := es[i];
  }

  lemma InLinkFrom(ls: seq<Link>, xs: seq<Inbound>, l: Link) returns (x: Inbound)
    requires OfInbound(ls, xs) && l in ls
    ensures x in xs && InLink(x) == l
  {
    var i :| 0 <= i < |ls| && ls[i] == l;
    x := xs[i];
  }

  lemma LinkOfEdge(ls: seq<Link>, es: seq<Edge>, e: Edge)
    requires OfEdges(ls, es) && e in es
    ensures OutLink(e) in ls
  {
    var i :| 0 <= i < |es| && es[i] == e;
    assert ls[i] == OutLink(e);
  }

  lemma LinkOfInbound(ls: seq<Link>, xs: seq<Inbound>, x: Inbound)
    requires OfInbound(ls, xs) && x in xs
    ensures InLink(x) in ls
  {
    var i :| 0 <= i < |xs| && xs[i] == x;
    assert ls[i] == InLink(x);
  }

  /** An outbound link of `a` to `b` is an inbound link of `b` from `a`, and the other way round. */
  lemma LinksMirror(
    t: Tables, keys: seq<u64>, docs: seq<BaseDoc>, attrRows: seq<seq<AttrRow>>, overlay: Overlay, srcs: seq<u64>,
    g: Graph, a: u64, b: u64, etype: byte, exact: bool)
    requires Represents(t, keys, docs, attrRows) && OverlayOk(overlay)
    requires NoRepeats(srcs) && forall s :: s in srcs <==> s in overlay
    requires InBounds(t) && OffersSnapshot(g, t, overlay, srcs)
    ensures Link(b, etype, exact) in g.outLinks(a) <==> Link(a, etype, exact) in g.inLinks(b)
  {
    hide Represents, InBounds, OverlayOk, NoRepeats, Names, Lookup, InboundFrom, OfEdges, OfInbound, Neighbors, IsExact;
    assert OfEdges(g.outLinks(a), Outbound(t, overlay, a));
    assert OfInbound(g.inLinks(b), InboundFrom(t, overlay, srcs, b, IdAt(t, b)));
    if Link(b, etype, exact) in g.outLinks(a) {
      var e := OutLinkFrom(g.outLinks(a), Outbound(t, overlay, a), Link(b, etype, exact));
      var x := Inbound(a, e.etype, e.flags, e.weight);
      InEdgesAreTranspose(t, keys, docs, attrRows, overlay, srcs, b, IdAt(t, b), x);
      assert AsEdge(b, x) == e;
      LinkOfInbound(g.inLinks(b), InboundFrom(t, overlay, srcs, b, IdAt(t, b)), x);
    }
    if Link(a, etype, exact) in g.inLinks(b) {
      var x := InLinkFrom(g.inLinks(b), InboundFrom(t, overlay, srcs, b, IdAt(t, b)), Link(a, etype, exact));
      InEdgesAreTranspose(t, keys, docs, attrRows, overlay, srcs, b, IdAt(t, b), x);
      LinkOfEdge(g.outLinks(a), Outbound(t, overlay, a), AsEdge(b, x));
    }
  }

  /** Two walks over one snapshot that follow the same types, one along its edges, the other
      against them, or both in both directions, are over opposite graphs. */
  lemma SnapshotIsOpposite(
    t: Tables, keys: seq<u64>, docs: seq<BaseDoc>, attrRows: seq<seq<AttrRow>>, overlay: Overlay, srcs: seq<u64>,
    forth: Graph, back: Graph)
    requires Represents(t, keys, docs, attrRows) && OverlayOk(overlay)
    requires NoRepeats(srcs) && forall s :: s in srcs <==> s in overlay
    requires InBounds(t) && OffersSnapshot(forth, t, overlay, srcs)
    requires back.outLinks == forth.outLinks && back.inLinks == forth.inLinks && back.follow == forth.follow
    requires back.out == forth.inbound && back.inbound == forth.out
    ensures Opposite(forth, back)
  {
    hide Represents, InBounds, OverlayOk, NoRepeats, OffersSnapshot;
    forall a, b, e, x ensures Link(b, e, x) in Links(forth, a) <==> Link(a, e, x) in Links(back, b) {
      LinksMirror(t, keys, docs, attrRows, overlay, srcs, forth, a, b, e, x);
      LinksMirror(t, keys, docs, attrRows, overlay, srcs, forth, b, a, e, x);
    }
  }

  /** Over any rendered store and overlay: walking downstream from `x` finds `y` at depth `d`
      exactly when walking upstream from `y` finds `x` at depth `d`; and a walk both ways
      from either finds the other at the same depth. */
  lemma LineageMirrors(
    t: Tables, keys: seq<u64>, docs: seq<BaseDoc>, attrRows: seq<seq<AttrRow>>, overlay: Overlay, srcs: seq<u64>,
    forth: Graph, back: Graph, x: u64, y: u64, maxDepth: nat, hops: seq<Hop>, mirrored: seq<Hop>, d: nat)
    requires Represents(t, keys, docs, attrRows) && OverlayOk(overlay)
    requires NoRepeats(srcs) && forall s :: s in srcs <==> s in overlay
    requires InBounds(t) && OffersSnapshot(forth, t, overlay, srcs)
    requires back.outLinks == forth.outLinks && back.inLinks == forth.inLinks && back.follow == forth.follow
    requires back.out == forth.inbound && back.inbound == forth.out && x != y
    requires Sound(forth, x, hops, maxDepth) && Complete(forth, x, hops, maxDepth)
    requires Sound(back, y, mirrored, maxDepth) && Complete(back, y, mirrored, maxDepth)
    requires forall p :: 0 <= p < |hops| ==> Continued(forth, hops, p)
    requires forall p :: 0 <= p < |mirrored| ==> Continued(back, mirrored, p)
    ensures (exists i :: 0 <= i < |hops| && hops[i].key == y && hops[i].depth == d)
       <==> (exists i :: 0 <= i < |mirrored| && mirrored[i].key == x && mirrored[i].depth == d)
  {
    hide Represents, InBounds, OverlayOk, NoRepeats, OffersSnapshot, Sound, Complete, Continued, Opposite;
    SnapshotIsOpposite(t, keys, docs, attrRows, overlay, srcs, forth, back);
    ImpactMirrorsLineage(forth, back, x, y, maxDepth, hops, mirrored, d);
  }
}
