/** A compacted store on disk: what compaction collects can be laid out as tables, and what
    the tables give back, key by key and edge by edge, is what was collected. */
module StoredBase {
  import opened Ops
  import opened Merge
  import opened Tables
  import opened InEdges
  import C = Compaction

  /** The documents of a base in key order. */
  ghost predicate InKeyOrder(base: C.Base, keys: seq<u64>, docs: seq<BaseDoc>) {
    && KeysAscend(keys) && (forall k :: k in keys <==> k in base)
    && |docs| == |keys| && forall i :: 0 <= i < |keys| ==> docs[i] == base[keys[i]]
  }

  /** Every base compaction can collect lays out, its strings permitting: edges resolve and
      ascend whatever the base and overlay were. */
  lemma CompactedIsRenderable(
    c: Config, base: C.Base, overlay: Overlay, keys: seq<u64>, docs: seq<BaseDoc>)
    requires C.EdgesAscend(base) && C.OverlayAscends(overlay)
    requires InKeyOrder(C.Compact(c, base, overlay), keys, docs)
    requires forall i :: 0 <= i < |docs| ==> Storable(docs[i])
    ensures Renderable(keys, docs)
  {
    hide C.Compact, Storable, Ascending;
    var once := C.Compact(c, base, overlay);
    C.CompactResolvesEdges(c, base, overlay);
    forall i, j | 0 <= i < |docs| && 0 <= j < |docs[i].edges| ensures docs[i].edges[j].dst in keys {
      assert keys[i] in once && docs[i].edges[j].dst in C.Targets(once[keys[i]]);
    }
  }

  /** The tables hold exactly the base they were laid out from. */
  lemma TablesAreBase(t: Tables, base: C.Base, keys: seq<u64>, docs: seq<BaseDoc>, attrRows: seq<seq<AttrRow>>, k: u64)
    requires InKeyOrder(base, keys, docs) && Represents(t, keys, docs, attrRows)
    ensures InBounds(t) && Lookup(t, k) == C.At(base, k)
  {
    hide InBounds, Represents, Lookup, KeysAscend;
    LookupReadsBack(t, keys, docs, attrRows, k);
  }

  /** So a read through the tables of a compacted store, with nothing written since, is
      the read it was compacted from (stubs aside). */
  lemma StoredReads(
    c: Config, base: C.Base, overlay: Overlay, t: Tables, keys: seq<u64>, docs: seq<BaseDoc>,
    attrRows: seq<seq<AttrRow>>, k: u64)
    requires C.EdgesAscend(base) && C.OverlayAscends(overlay)
    requires InKeyOrder(C.Compact(c, base, overlay), keys, docs) && Represents(t, keys, docs, attrRows)
    ensures InBounds(t)
    ensures var before := C.ReadAt(c, base, overlay, k);
            before.Some? && !C.StubDoc(before) ==>
              Read(c, Lookup(t, k), None) == before && Node(c, Lookup(t, k), None) == C.NodeAt(c, base, overlay, k)
  {
    hide InBounds, Represents, Lookup, C.Compact, Read, Node, InKeyOrder;
    TablesAreBase(t, C.Compact(c, base, overlay), keys, docs, attrRows, k);
    C.CompactPreservesReads(c, base, overlay, k);
  }

  /** And the inbound edges any later snapshot reports are the transpose of its outbound
      ones, by key, whatever has been written since. */
  lemma StoredInEdges(
    base: C.Base, t: Tables, keys: seq<u64>, docs: seq<BaseDoc>, attrRows: seq<seq<AttrRow>>,
    overlay: Overlay, srcs: seq<u64>, key: u64, id: Option<nat>, x: Inbound)
    requires InKeyOrder(base, keys, docs) && Represents(t, keys, docs, attrRows) && OverlayOk(overlay)
    requires NoRepeats(srcs) && forall s :: s in srcs <==> s in overlay
    requires Names(t, key, id)
    ensures InBounds(t)
    ensures multiset(InboundFrom(t, overlay, srcs, key, id))[x] ==
              if AsEdge(key, x) in Neighbors(C.At(base, x.src), C.At(overlay, x.src)) then 1 else 0
  {
    hide InBounds, Represents, Lookup, InKeyOrder, InboundFrom, OverlayOk, Names;
    InEdgesAreTranspose(t, keys, docs, attrRows, overlay, srcs, key, id, x);
    TablesAreBase(t, base, keys, docs, attrRows, x.src);
  }
}
