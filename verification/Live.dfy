/** The sweep over live documents: base nodes through their patches, then overlay-only nodes
    in key order. It visits exactly the live keys, each once. */
module Live {
  import opened Ops
  import opened Merge
  import opened T = Tables
  import I = InEdges
  import C = Compaction

  /** What folding staged ops leaves: an overlay core is an upsert, and never a stub. */
  predicate CoresOk(overlay: Overlay) {
    forall k :: k in overlay && overlay[k].core.Some? ==>
      overlay[k].core.value.Upsert? && !IsStub(overlay[k].core.value.flags)
  }

  /** Live: there is a node, and neither its stub bit nor its tombstone bit is set. */
  lemma LiveExactly(d: Option<Doc>)
    ensures C.Live(d) <==> d.Some? && d.value.flags / 2 % 2 == 0 && d.value.flags / 4 % 2 == 0
  {
    if d.Some? { FlagBits(d.value.flags); }
  }

  ghost predicate LiveAt(c: Config, t: T.Tables, overlay: Overlay, k: u64)
    requires InBounds(t)
  {
    C.Live(Read(c, I.Lookup(t, k), C.At(overlay, k)))
  }

  ghost predicate Distinct(ks: seq<u64>) { forall i, j :: 0 <= i < j < |ks| ==> ks[i] != ks[j] }

  /** A node record the sweep shows to its visitor. */
  predicate Shown(r: NodeRec) { !IsStub(r.flags) && !IsTombstone(r.flags) }

  lemma LiveIsShown(c: Config, b: Option<BaseDoc>, p: Option<Patch>)
    ensures C.Live(Read(c, b, p)) <==> Node(c, b, p).Some? && Shown(Node(c, b, p).value)
  {
    hide Node, Segments, Neighbors, Attributes, IsStub, IsTombstone;
  }

  /** An overlay core without history reads as a node that is no stub. */
  lemma FreshIsNode(c: Config, p: Patch)
    requires !p.removed && p.core.Some? && p.core.value.Upsert? && !IsStub(p.core.value.flags)
    ensures Node(c, None, Some(p)).Some? && !IsStub(Node(c, None, Some(p)).value.flags)
  {
    hide IsStub, IsTombstone, IsPinned, WithPin, WithTombstone;
  }

  lemma NoNode(c: Config, p: Option<Patch>)
    requires p.None? || p.value.removed || p.value.core.None?
    ensures Node(c, None, p) == None
  {
  }

  predicate InBase(t: T.Tables, k: u64) { exists i :: 0 <= i < |t.nodes| && t.nodes[i].key == k }

  /** Base nodes, in key order. */
  method SweepBase(c: Config, t: T.Tables, overlay: Overlay) returns (out: seq<u64>)
    requires InBounds(t) && I.NodesSorted(t.nodes)
    ensures Distinct(out) && forall k :: k in out <==> InBase(t, k) && LiveAt(c, t, overlay, k)
  {
    hide InBounds, Node, DocAt, I.Lookup, Shown;
    out := [];
    for i := 0 to |t.nodes|
      invariant Distinct(out)
      invariant forall k :: k in out <==> (exists j :: 0 <= j < i && t.nodes[j].key == k) && LiveAt(c, t, overlay, k)
    {
      var key := t.nodes[i].key;
      I.LookupAt(t, i);
      var p := C.At(overlay, key);
      LiveIsShown(c, Some(DocAt(t, i)), p);
      var n := Node(c, Some(DocAt(t, i)), p);
      forall j | 0 <= j < i ensures t.nodes[j].key != key {}
      ghost var before := out;
      assert key !in before;
      if n.Some? && Shown(n.value) {
        out := out + [key];
      }
      forall k ensures k in out <==> (exists j :: 0 <= j < i + 1 && t.nodes[j].key == k) && LiveAt(c, t, overlay, k) {
        if k == key { assert t.nodes[i].key == k; }
        assert k in out <==> k in before || (k == key && LiveAt(c, t, overlay, key));
      }
    }
  }

  /** Overlay-only nodes, in key order. */
  method SweepFresh(c: Config, t: T.Tables, overlay: Overlay) returns (out: seq<u64>)
    requires InBounds(t) && CoresOk(overlay)
    ensures forall i, j :: 0 <= i < j < |out| ==> out[i] < out[j]
    ensures forall k :: k in out <==> !InBase(t, k) && LiveAt(c, t, overlay, k)
  {
    hide InBounds, Node, DocAt, Shown, InBase, IsStub, IsTombstone, I.Lookup, C.Live, Read;
    var pending := set k | k in overlay && !overlay[k].removed && overlay[k].core.Some? && !InBase(t, k);
    ghost var all := pending;
    out := [];
    while pending != {}
      invariant pending <= all
      invariant forall k :: k in out <==> k in all && k !in pending && LiveAt(c, t, overlay, k)
      invariant forall i, j :: 0 <= i < j < |out| ==> out[i] < out[j]
      invariant forall i, k :: 0 <= i < |out| && k in pending ==> out[i] < k
      decreases |pending|
    {
      ghost var m := Smallest(pending);
      var k :| k in pending && forall h :: h in pending ==> k <= h;
      FreshIsNode(c, overlay[k]);
      FreshLookup(t, k);
      LiveIsShown(c, None, Some(overlay[k]));
      var n := Node(c, None, Some(overlay[k]));
      ShownIs(n.value);
      if !IsTombstone(n.value.flags) {
        out := out + [k];
      }
      pending := pending - {k};
    }
    forall k | !InBase(t, k) && k !in all ensures !LiveAt(c, t, overlay, k) {
      FreshLookup(t, k);
      NoNode(c, C.At(overlay, k));
      LiveIsShown(c, None, C.At(overlay, k));
    }
  }

  lemma ShownIs(r: NodeRec)
    ensures Shown(r) <==> !IsStub(r.flags) && !IsTombstone(r.flags)
  {
  }

  lemma FreshLookup(t: T.Tables, k: u64)
    requires InBounds(t) && !InBase(t, k)
    ensures I.Lookup(t, k) == None
  {
    hide InBounds, DocAt;
  }

  /** The whole sweep: every live document, once, and nothing else. */
  method ForEachLive(c: Config, t: T.Tables, overlay: Overlay) returns (out: seq<u64>)
    requires InBounds(t) && I.NodesSorted(t.nodes) && CoresOk(overlay)
    ensures Distinct(out) && forall k :: k in out <==> LiveAt(c, t, overlay, k)
  {
    hide InBounds, LiveAt, InBase, I.NodesSorted, CoresOk;
    out := SweepBase(c, t, overlay);
    var more := SweepFresh(c, t, overlay);
    ghost var base := out;
    out := out + more;
    forall i, j | 0 <= i < j < |out| ensures out[i] != out[j] {
      if i < |base| <= j {
        assert base[i] in base && more[j - |base|] in more;
      }
    }
  }

  /** A compaction leaves the sweep, and so the count, as it was. */
  lemma SweepSurvivesCompaction(c: Config, base: C.Base, overlay: Overlay, before: seq<u64>, after: seq<u64>)
    requires C.EdgesAscend(base) && C.OverlayAscends(overlay)
    requires Distinct(before) && forall k :: k in before <==> C.Live(C.ReadAt(c, base, overlay, k))
    requires Distinct(after) && forall k :: k in after <==> C.Live(C.ReadAt(c, C.Compact(c, base, overlay), map[], k))
    ensures multiset(before) == multiset(after) && |before| == |after|
  {
    hide C.Compact, C.ReadAt, C.Live, C.EdgesAscend, C.OverlayAscends;
    forall k: u64 ensures multiset(before)[k] == multiset(after)[k] {
      C.CompactPreservesLiveSet(c, base, overlay, k);
      CountOnce(before, k);
      CountOnce(after, k);
    }
    assert |before| == |multiset(before)| && |after| == |multiset(after)|;
  }

  lemma {:induction false} CountOnce(ks: seq<u64>, k: u64)
    requires Distinct(ks)
    ensures multiset(ks)[k] == if k in ks then 1 else 0
  {
    if ks != [] {
      var most, last := ks[..|ks| - 1], ks[|ks| - 1];
      CountOnce(most, k);
      assert ks == most + [last];
      forall i | 0 <= i < |most| ensures most[i] != last { assert ks[i] != ks[|ks| - 1]; }
    }
  }
}
