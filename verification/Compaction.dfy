/** Compaction over whole stores: collect every node through the merged read, keep stubs
    for referenced keys only, and start over with an empty overlay. It preserves what
    every read returns, at any point of any history. */
module Compaction {
  import opened Ops
  import opened Merge

  /** A base by key. Edge destinations are keys; their dense numbering is `Tables`. */
  type Base = map<u64, BaseDoc>

  function At<V>(m: map<u64, V>, k: u64): Option<V> { if k in m then Some(m[k]) else None }

  const BLANK_REC := NodeRec([], None, None, None, 0, 0, 0, 0, 0, 0, STUB)
  const BLANK := BaseDoc(BLANK_REC, [], [], [])

  // ---- edge sets --------------------------------------------------------------------------

  /** Insert by destination, after equals. */
  function Insert(es: seq<Edge>, e: Edge): seq<Edge> {
    if es == [] || es[|es| - 1].dst <= e.dst then es + [e]
    else Insert(es[..|es| - 1], e) + [es[|es| - 1]]
  }

  function SortByDst(es: seq<Edge>): seq<Edge> {
    if es == [] then [] else Insert(SortByDst(es[..|es| - 1]), es[|es| - 1])
  }

  /** Drop every edge whose destination is the one before it. */
  function Dedup(es: seq<Edge>): seq<Edge> {
    if |es| <= 1 then es
    else
      var rest := Dedup(es[..|es| - 1]);
      if es[|es| - 1].dst == es[|es| - 2].dst then rest else rest + [es[|es| - 1]]
  }

  lemma SortSnoc(es: seq<Edge>, e: Edge)
    requires es == [] || es[|es| - 1].dst < e.dst
    ensures SortByDst(es) == es ==> SortByDst(es + [e]) == es + [e]
    ensures Dedup(es) == es ==> Dedup(es + [e]) == es + [e]
  {
    assert (es + [e])[..|es + [e]| - 1] == es;
  }

  /** Sorting and deduplicating a stored edge set leaves it alone. */
  lemma {:induction false} SortedAlready(es: seq<Edge>)
    requires Ascending(es)
    ensures SortByDst(es) == es && Dedup(es) == es
  {
    hide SortByDst, Dedup;
    if es == [] {
      SortEmpty();
    } else {
      var most, last := es[..|es| - 1], es[|es| - 1];
      SortedAlready(most);
      SortSnoc(most, last);
      assert es == most + [last];
    }
  }

  /** Destinations ascending, perhaps with repeats: what sorting leaves of any edges. */
  predicate Sorted(es: seq<Edge>) { forall i, j :: 0 <= i < j < |es| ==> es[i].dst <= es[j].dst }

  lemma {:induction false} InsertKeeps(es: seq<Edge>, e: Edge)
    requires Sorted(es)
    ensures Sorted(Insert(es, e)) && Insert(es, e) != []
    ensures forall x :: x in Insert(es, e) <==> x in es || x == e
  {
    if es != [] {
      var most, last := es[..|es| - 1], es[|es| - 1];
      assert es == most + [last];
      if last.dst > e.dst {
        InsertKeeps(most, e);
        var rest := Insert(most, e);
        forall i | 0 <= i < |rest| ensures rest[i].dst <= last.dst { assert rest[i] in rest; }
      }
    }
  }

  lemma {:induction false} SortKeeps(es: seq<Edge>)
    ensures Sorted(SortByDst(es))
    ensures forall x :: x in SortByDst(es) <==> x in es
  {
    hide Insert;
    if es != [] {
      var most, last := es[..|es| - 1], es[|es| - 1];
      assert es == most + [last];
      SortKeeps(most);
      InsertKeeps(SortByDst(most), last);
    }
  }

  predicate GoesTo(es: seq<Edge>, dst: u64) { exists i :: 0 <= i < |es| && es[i].dst == dst }

  lemma GoesToSnoc(es: seq<Edge>, e: Edge, dst: u64)
    ensures GoesTo(es + [e], dst) <==> GoesTo(es, dst) || e.dst == dst
  {
    var all := es + [e];
    assert all[|es|] == e;
    if i :| 0 <= i < |es| && es[i].dst == dst { assert all[i].dst == dst; }
  }

  /** Where a sorted run of edges ends, its deduplicated form ends. */
  predicate EndsAlike(out: seq<Edge>, es: seq<Edge>) {
    es != [] ==> out != [] && out[|out| - 1].dst == es[|es| - 1].dst
  }

  lemma {:induction false} DedupKeeps(es: seq<Edge>, dst: u64)
    requires Sorted(es)
    ensures Ascending(Dedup(es)) && EndsAlike(Dedup(es), es)
    ensures forall x :: x in Dedup(es) ==> x in es
    ensures GoesTo(Dedup(es), dst) <==> GoesTo(es, dst)
  {
    if |es| > 1 {
      var most, last := es[..|es| - 1], es[|es| - 1];
      assert es == most + [last];
      DedupKeeps(most, dst);
      var rest := Dedup(most);
      GoesToSnoc(most, last, dst);
      GoesToSnoc(rest, last, dst);
      if most[|most| - 1].dst == last.dst {
        if last.dst == dst { assert rest[|rest| - 1].dst == dst; }
      } else {
        forall i | 0 <= i < |rest| ensures rest[i].dst < last.dst {
          assert rest[i] in rest;
          var j :| 0 <= j < |most| && most[j] == rest[i];
          assert most[j].dst <= most[|most| - 1].dst;
        }
      }
    }
  }

  /** Whatever a node's edges are, collecting leaves one to each destination they have, by
      ascending destination, every one of them as it was. */
  lemma CollectedEdges(es: seq<Edge>, dst: u64)
    ensures var out := Dedup(SortByDst(es));
            && Ascending(out) && (forall x :: x in out ==> x in es)
            && (GoesTo(out, dst) <==> GoesTo(es, dst))
  {
    hide Dedup, SortByDst;
    SortKeeps(es);
    var sorted := SortByDst(es);
    DedupKeeps(sorted, dst);
    if i :| 0 <= i < |es| && es[i].dst == dst {
      assert es[i] in sorted;
      var j :| 0 <= j < |sorted| && sorted[j] == es[i];
    }
    if i :| 0 <= i < |sorted| && sorted[i].dst == dst {
      assert sorted[i] in es;
      var j :| 0 <= j < |es| && es[j] == sorted[i];
    }
  }

  lemma SortEmpty()
    ensures SortByDst([]) == [] && Dedup([]) == []
  {
  }

  // ---- collecting and stub management -------------------------------------------------------

  /** A node as compaction reads it: through the merged read of a snapshot. */
  function Collected(c: Config, b: Option<BaseDoc>, p: Option<Patch>): Option<BaseDoc> {
    var n := Node(c, b, p);
    if n.None? then None
    else Some(BaseDoc(n.value, Segments(c, b, p), Dedup(SortByDst(Neighbors(b, p))), Attributes(b, p)))
  }

  function Keys(base: Base, overlay: Overlay): set<u64> { base.Keys + overlay.Keys }

  function ModelsOf(c: Config, base: Base, overlay: Overlay, keys: set<u64>): Base {
    map k | k in keys && Collected(c, At(base, k), At(overlay, k)).Some? ::
      Collected(c, At(base, k), At(overlay, k)).value
  }

  function Models(c: Config, base: Base, overlay: Overlay): Base {
    ModelsOf(c, base, overlay, Keys(base, overlay))
  }

  function Targets(d: BaseDoc): set<u64> { set i | 0 <= i < |d.edges| :: d.edges[i].dst }

  /** Every key some collected node points at. */
  function Referenced(models: Base): set<u64> { set k, t | k in models && t in Targets(models[k]) :: t }

  /** Drop the stubs nothing references, and add one for every referenced key without a node. */
  function ManageStubs(models: Base): Base {
    var referenced := Referenced(models);
    (map k | k in models && (!IsStub(models[k].rec.flags) || k in referenced) :: models[k])
    + (map k | k in referenced && k !in models :: BLANK)
  }

  function Compact(c: Config, base: Base, overlay: Overlay): Base {
    ManageStubs(Models(c, base, overlay))
  }

  lemma ReferencedGrows(models: Base, k: u64, d: BaseDoc)
    requires k !in models
    ensures Referenced(models[k := d]) == Referenced(models) + Targets(d)
  {
    var next := models[k := d];
    forall t | t in Referenced(models) ensures t in Referenced(next) {
      var j :| j in models && t in Targets(models[j]);
      assert j in next && next[j] == models[j];
    }
    forall t | t in Targets(d) ensures t in Referenced(next) {
      assert k in next && next[k] == d;
    }
  }

  lemma ModelsGrow(c: Config, base: Base, overlay: Overlay, keys: set<u64>, k: u64)
    ensures var m := Collected(c, At(base, k), At(overlay, k));
            ModelsOf(c, base, overlay, keys + {k}) ==
              if m.Some? then ModelsOf(c, base, overlay, keys)[k := m.value] else ModelsOf(c, base, overlay, keys)
  {
    hide Collected;
  }

  /** Collect every key once, in order, marking what each node points at. */
  method Collect(c: Config, base: Base, overlay: Overlay, keys: seq<u64>) returns (models: Base, referenced: set<u64>)
    requires forall k :: k in keys <==> k in Keys(base, overlay)
    requires forall i, j :: 0 <= i < j < |keys| ==> keys[i] < keys[j]
    ensures models == Models(c, base, overlay) && referenced == Referenced(models)
  {
    hide Collected, Targets, Referenced, ModelsOf;
    models, referenced := map[], {};
    ghost var done: set<u64> := {};
    NothingReferenced();
    NothingCollected(c, base, overlay);
    var i := 0;
    while i < |keys|
      invariant 0 <= i <= |keys|
      invariant forall k :: k in done <==> k in keys[..i]
      invariant models == ModelsOf(c, base, overlay, done) && models.Keys <= done
      invariant referenced == Referenced(models)
    {
      var k := keys[i];
      var m := Collected(c, At(base, k), At(overlay, k));
      assert keys[..i + 1] == keys[..i] + [k];
      ModelsGrow(c, base, overlay, done, k);
      if m.Some? {
        ReferencedGrows(models, k, m.value);
        models, referenced := models[k := m.value], referenced + Targets(m.value);
      }
      done := done + {k};
      i := i + 1;
    }
    assert keys[..|keys|] == keys;
    assert done == Keys(base, overlay);
  }

  lemma NothingCollected(c: Config, base: Base, overlay: Overlay)
    ensures ModelsOf(c, base, overlay, {}) == map[]
  {
  }

  lemma NothingReferenced()
    ensures Referenced(map[]) == {}
  {
  }

  /** The compactor's own passes: collect, drop unreferenced stubs, add missing ones. */
  method CompactModels(c: Config, base: Base, overlay: Overlay, keys: seq<u64>) returns (models: Base)
    requires forall k :: k in keys <==> k in Keys(base, overlay)
    requires forall i, j :: 0 <= i < j < |keys| ==> keys[i] < keys[j]
    ensures models == Compact(c, base, overlay)
  {
    hide Models, Referenced;
    var referenced;
    models, referenced := Collect(c, base, overlay, keys);
    ghost var all := models;
    models := map k | k in models && (!IsStub(models[k].rec.flags) || k in referenced) :: models[k];
    var missing := set k | k in referenced && k !in models;
    models := models + (map k | k in missing :: BLANK);
    assert models == ManageStubs(all);
  }

  // ---- what compaction preserves --------------------------------------------------------------

  ghost predicate EdgesAscend(base: Base) { forall k :: k in base ==> Ascending(base[k].edges) }

  ghost predicate OverlayAscends(overlay: Overlay) {
    forall k :: k in overlay && overlay[k].edges.Some? && overlay[k].edges.value.Edges? ==>
      Ascending(overlay[k].edges.value.edges)
  }

  function ReadAt(c: Config, base: Base, overlay: Overlay, k: u64): Option<Doc> {
    Read(c, At(base, k), At(overlay, k))
  }

  function NodeAt(c: Config, base: Base, overlay: Overlay, k: u64): Option<NodeRec> {
    Node(c, At(base, k), At(overlay, k))
  }

  predicate StubDoc(d: Option<Doc>) { d.Some? && IsStub(d.value.flags) }

  /** A stub with nothing in it: no text, no hash, no counters, no sets. */
  const BLANK_DOC := Doc([], None, None, None, 0, 0, 0, 0, 0, STUB, [], [], [])

  /** Some node that shows has an edge to `k`. */
  ghost predicate PointedAt(c: Config, base: Base, overlay: Overlay, k: u64) {
    exists j: u64, e :: ReadAt(c, base, overlay, j).Some? && e in ReadAt(c, base, overlay, j).value.edges && e.dst == k
  }

  lemma ReferencedIsPointedAt(c: Config, base: Base, overlay: Overlay, k: u64)
    requires EdgesAscend(base) && OverlayAscends(overlay)
    ensures k in Referenced(Models(c, base, overlay)) <==> PointedAt(c, base, overlay, k)
  {
    hide ReadAt, NodeAt, Models, EdgesAscend, OverlayAscends;
    var m := Models(c, base, overlay);
    if k in Referenced(m) {
      var j :| j in m && k in Targets(m[j]);
      ModelEdges(c, base, overlay, j);
      var i :| 0 <= i < |m[j].edges| && m[j].edges[i].dst == k;
      assert m[j].edges[i] in ReadAt(c, base, overlay, j).value.edges;
    }
    if j: u64, e :| ReadAt(c, base, overlay, j).Some? && e in ReadAt(c, base, overlay, j).value.edges && e.dst == k {
      ModelEdges(c, base, overlay, j);
      var i :| 0 <= i < |m[j].edges| && m[j].edges[i] == e;
      assert k in Targets(m[j]);
    }
  }

  lemma ModelEdges(c: Config, base: Base, overlay: Overlay, j: u64)
    requires EdgesAscend(base) && OverlayAscends(overlay)
    ensures var m := Models(c, base, overlay);
            && (j in m <==> ReadAt(c, base, overlay, j).Some?)
            && (j in m ==> ReadAt(c, base, overlay, j).value.edges == m[j].edges)
  {
    hide Models, Node, Segments, Neighbors, Attributes;
    CollectedReads(c, base, overlay, j);
    var m := Models(c, base, overlay);
    if j in m { PlainReads(c, m[j]); }
  }

  /** A collected node reads, with no overlay, as it read through the overlay. */
  lemma CollectedSame(c: Config, b: Option<BaseDoc>, p: Option<Patch>)
    requires b.Some? ==> Ascending(b.value.edges)
    requires p.Some? && p.value.edges.Some? && p.value.edges.value.Edges? ==> Ascending(p.value.edges.value.edges)
    ensures var d := Collected(c, b, p);
            && (d.Some? <==> Read(c, b, p).Some?)
            && (d.Some? ==> Ascending(d.value.edges))
            && Read(c, d, None) == Read(c, b, p)
            && Node(c, d, None) == Node(c, b, p)
  {
    hide SortByDst, Dedup, CoreNode, Merged;
    SortedAlready(Neighbors(b, p));
  }

  lemma CollectedReads(c: Config, base: Base, overlay: Overlay, k: u64)
    requires EdgesAscend(base) && OverlayAscends(overlay)
    ensures var m := Models(c, base, overlay);
            && ReadAt(c, m, map[], k) == ReadAt(c, base, overlay, k)
            && NodeAt(c, m, map[], k) == NodeAt(c, base, overlay, k)
            && (k in m <==> ReadAt(c, base, overlay, k).Some?)
            && (k in m ==> Ascending(m[k].edges))
  {
    hide Collected, Ascending;
    CollectedSame(c, At(base, k), At(overlay, k));
    assert Read(c, None, None) == None && Node(c, None, None) == None;
    if k !in Keys(base, overlay) {
      assert Read(c, At(base, k), At(overlay, k)) == None;
    }
    hide Read, Node;
  }

  /** After a compaction every key reads as before, every field of the node included, but
      for stubs: those nothing points at are gone, and every key that is pointed at and
      has no node is a blank one. */
  lemma CompactPreservesReads(c: Config, base: Base, overlay: Overlay, k: u64)
    requires EdgesAscend(base) && OverlayAscends(overlay)
    ensures var before, after := ReadAt(c, base, overlay, k), ReadAt(c, Compact(c, base, overlay), map[], k);
            var pointedAt := PointedAt(c, base, overlay, k);
            && (before.Some? && (!StubDoc(before) || pointedAt) ==>
                  after == before
                  && NodeAt(c, Compact(c, base, overlay), map[], k) == NodeAt(c, base, overlay, k))
            && (StubDoc(before) && !pointedAt ==> after == None)
            && (before.None? ==> after == if pointedAt then Some(BLANK_DOC) else None)
  {
    ReferencedIsPointedAt(c, base, overlay, k);
    hide Referenced, Models, IsStub, Node, Segments, Neighbors, Attributes, PointedAt;
    CollectedReads(c, base, overlay, k);
    BlankReads(c);
    var m := Models(c, base, overlay);
    if k in m { PlainReads(c, m[k]); }
  }

  /** With no overlay a base document reads as it stands. */
  lemma PlainReads(c: Config, b: BaseDoc)
    ensures Read(c, Some(b), None) == Some(DocOf(b.rec, b.segs, b.edges, b.attrs))
    ensures Node(c, Some(b), None) == Some(b.rec)
  {
  }

  lemma BlankReads(c: Config)
    ensures Read(c, Some(BLANK), None) == Some(BLANK_DOC) && Read(c, None, None) == None
    ensures Node(c, None, None) == None && IsStub(BLANK_DOC.flags)
  {
  }

  /** A live document: what counts, and what a sweep over the store visits. */
  predicate Live(d: Option<Doc>) { d.Some? && !IsStub(d.value.flags) && !IsTombstone(d.value.flags) }

  lemma CompactPreservesLiveSet(c: Config, base: Base, overlay: Overlay, k: u64)
    requires EdgesAscend(base) && OverlayAscends(overlay)
    ensures Live(ReadAt(c, Compact(c, base, overlay), map[], k)) <==> Live(ReadAt(c, base, overlay, k))
  {
    hide Compact, ReadAt, NodeAt, IsStub, IsTombstone;
    CompactPreservesReads(c, base, overlay, k);
    BlankReads(c);
  }

  /** Every edge of a compacted base points at one of its nodes. */
  ghost predicate Resolved(base: Base) {
    forall k, t :: k in base && t in Targets(base[k]) ==> t in base
  }

  lemma CompactResolvesEdges(c: Config, base: Base, overlay: Overlay)
    requires EdgesAscend(base) && OverlayAscends(overlay)
    ensures Resolved(Compact(c, base, overlay)) && EdgesAscend(Compact(c, base, overlay))
  {
    hide Models, Referenced;
    var m := Models(c, base, overlay);
    forall k | k in m ensures Ascending(m[k].edges) {
      CollectedReads(c, base, overlay, k);
    }
    forall k, t | k in ManageStubs(m) && t in Targets(ManageStubs(m)[k]) ensures t in ManageStubs(m) {
      ManagedTargets(m, k, t);
    }
  }

  // ---- compacting twice -----------------------------------------------------------------------

  lemma ManagedTargets(m: Base, k: u64, t: u64)
    requires k in ManageStubs(m) && t in Targets(ManageStubs(m)[k])
    ensures t in ManageStubs(m)
  {
    assert k in m && t in Referenced(m);
  }

  /** A second sweep keeps exactly what a kept node still points at. */
  lemma ManageAgain(m: Base)
    requires Resolved(m)
    ensures ManageStubs(m).Keys == set k | k in m && (!IsStub(m[k].rec.flags) || k in Referenced(m))
    ensures forall k :: k in ManageStubs(m) ==> ManageStubs(m)[k] == m[k]
  {
    forall t | t in Referenced(m) ensures t in m {
      var k :| k in m && t in Targets(m[k]);
    }
  }

  ghost predicate StubsReferenced(m: Base) {
    forall k :: k in m && IsStub(m[k].rec.flags) ==> k in Referenced(m)
  }

  lemma ManageFixed(m: Base)
    requires Resolved(m)
    ensures ManageStubs(m) == m <==> StubsReferenced(m)
  {
    hide Referenced, IsStub, ManageStubs, Resolved;
    ManageAgain(m);
    if !StubsReferenced(m) {
      var k :| k in m && IsStub(m[k].rec.flags) && k !in Referenced(m);
      assert k !in ManageStubs(m).Keys;
    } else {
      assert ManageStubs(m).Keys == m.Keys;
    }
  }

  lemma CollectedAgain(c: Config, base: Base)
    requires EdgesAscend(base)
    ensures Models(c, base, map[]) == base
  {
    forall k | k in base ensures Collected(c, At(base, k), None) == Some(base[k]) {
      SortedAlready(base[k].edges);
    }
    hide Collected;
  }

  /** A stub nothing points at: what a compaction drops. */
  predicate Dropped(m: Base, k: u64) { k in m && IsStub(m[k].rec.flags) && k !in Referenced(m) }

  predicate PointsAt(m: Base, k: u64, target: u64) { k in m && target in Targets(m[k]) }

  /** Whatever a dropped stub points at that is a stub or no node at all, a node that stays
      points at too. */
  ghost predicate DroppedStubsAddNothing(m: Base) {
    forall k, t :: PointsAt(m, k, t) && Dropped(m, k) && (t !in m || IsStub(m[t].rec.flags)) ==>
      exists j :: PointsAt(m, j, t) && !Dropped(m, j)
  }

  /** What is pointed at after stub management is what the nodes that stay point at. */
  lemma ReferencedAfter(m: Base, t: u64)
    ensures t in Referenced(ManageStubs(m)) <==> exists j :: PointsAt(m, j, t) && !Dropped(m, j)
  {
    var once := ManageStubs(m);
    if t in Referenced(once) {
      var j :| j in once && t in Targets(once[j]);
      assert PointsAt(m, j, t) && !Dropped(m, j);
    }
    if j :| PointsAt(m, j, t) && !Dropped(m, j) {
      assert j in once && once[j] == m[j];
    }
  }

  lemma StubsReferencedAfter(m: Base)
    ensures StubsReferenced(ManageStubs(m)) <==> DroppedStubsAddNothing(m)
  {
    var once := ManageStubs(m);
    if DroppedStubsAddNothing(m) {
      forall k | k in once && IsStub(once[k].rec.flags) ensures k in Referenced(once) {
        assert k in Referenced(m);
        var j :| j in m && k in Targets(m[j]);
        assert PointsAt(m, j, k);
        ReferencedAfter(m, k);
      }
    }
    if StubsReferenced(once) {
      forall k, t | PointsAt(m, k, t) && Dropped(m, k) && (t !in m || IsStub(m[t].rec.flags))
        ensures exists j :: PointsAt(m, j, t) && !Dropped(m, j)
      {
        assert t in Referenced(m);
        assert t in once && IsStub(once[t].rec.flags);
        ReferencedAfter(m, t);
      }
    }
  }

  /** Compacting a compacted store changes nothing if and only if the stubs the first
      compaction dropped were not the only ones to point at another stub. */
  lemma CompactIsIdempotent(c: Config, base: Base, overlay: Overlay)
    requires EdgesAscend(base) && OverlayAscends(overlay)
    ensures var once := Compact(c, base, overlay);
            Compact(c, once, map[]) == once <==> DroppedStubsAddNothing(Models(c, base, overlay))
  {
    hide Models, ManageStubs, StubsReferenced, Resolved, EdgesAscend, OverlayAscends, DroppedStubsAddNothing;
    var once := Compact(c, base, overlay);
    CompactResolvesEdges(c, base, overlay);
    CollectedAgain(c, once);
    ManageFixed(once);
    StubsReferencedAfter(Models(c, base, overlay));
  }

  // ---- compaction at any point of a history ---------------------------------------------------

  /** The same to every reader of live documents: equal, or each absent or a blank stub. */
  predicate Same(d: Option<Doc>, e: Option<Doc>) { d == e || (Blankish(d) && Blankish(e)) }

  predicate Blankish(d: Option<Doc>) { d.None? || d == Some(BLANK_DOC) }

  lemma ApplySame(c: Config, d: Option<Doc>, e: Option<Doc>, op: Op)
    requires Same(d, e) && WellFormed(d, op)
    ensures WellFormed(e, op) && Same(Apply(c, d, op), Apply(c, e, op))
  {
    hide IsTombstone;
    BlankReads(c);
    assert !IsPinned(BLANK_DOC.flags) && IsStub(BLANK_DOC.flags);
  }

  lemma {:induction false} RunSame(c: Config, d: Option<Doc>, e: Option<Doc>, ops: seq<Op>, key: u64)
    requires Same(d, e) && WellFormedRun(c, d, ops, key)
    ensures WellFormedRun(c, e, ops, key) && Same(RunOn(c, d, ops, key), RunOn(c, e, ops, key))
  {
    hide Same, Merge.Apply, WellFormed;
    if ops != [] {
      var most := ops[..|ops| - 1];
      RunSame(c, d, e, most, key);
      if ops[|ops| - 1].key == key {
        ApplySame(c, RunOn(c, d, most, key), RunOn(c, e, most, key), ops[|ops| - 1]);
      }
    }
  }

  lemma {:induction false} RunSplit(c: Config, d: Option<Doc>, a: seq<Op>, b: seq<Op>, key: u64)
    ensures RunOn(c, d, a + b, key) == RunOn(c, RunOn(c, d, a, key), b, key)
    ensures WellFormedRun(c, d, a + b, key) <==>
            WellFormedRun(c, d, a, key) && WellFormedRun(c, RunOn(c, d, a, key), b, key)
    decreases |b|
  {
    hide Merge.Apply, WellFormed;
    if b == [] {
      assert a + b == a;
    } else {
      assert (a + b)[..|a + b| - 1] == a + b[..|b| - 1];
      RunSplit(c, d, a, b[..|b| - 1], key);
    }
  }

  /** The reference machine over a whole history, one key at a time. */
  function Reference(c: Config, ops: seq<Op>, key: u64): Option<Doc> { RunOn(c, None, ops, key) }

  ghost predicate WellFormedHistory(c: Config, ops: seq<Op>) {
    forall k: u64 :: WellFormedRun(c, None, ops, k)
  }

  /** A base renders a history: every key reads from it as the reference machine says. */
  ghost predicate Renders(c: Config, base: Base, ops: seq<Op>) {
    && EdgesAscend(base)
    && forall k: u64 :: Same(ReadAt(c, base, map[], k), Reference(c, ops, k))
  }

  ghost predicate OverlayOf(overlay: Overlay, ops: seq<Op>) {
    forall k: u64 :: At(overlay, k) == PatchOf(ops, k)
  }

  /** Reading a base that renders the first ops through an overlay of the later ones is
      running the reference machine over them all. */
  lemma ReadsRefine(c: Config, base: Base, before: seq<Op>, overlay: Overlay, after: seq<Op>, k: u64)
    requires Renders(c, base, before) && OverlayOf(overlay, after)
    requires WellFormedHistory(c, before + after)
    ensures Same(ReadAt(c, base, overlay, k), Reference(c, before + after, k))
    ensures WellFormedRun(c, Read(c, At(base, k), None), after, k)
  {
    hide Read, Same, RunOn, WellFormedRun, EdgesAscend, PatchOf;
    RunSplit(c, None, before, after, k);
    assert Same(ReadAt(c, base, map[], k), Reference(c, before, k));
    SameCommutes(ReadAt(c, base, map[], k), Reference(c, before, k));
    RunSame(c, Reference(c, before, k), ReadAt(c, base, map[], k), after, k);
    SnapshotRefines(c, At(base, k), after, k);
    SameCommutes(RunOn(c, Reference(c, before, k), after, k), RunOn(c, ReadAt(c, base, map[], k), after, k));
  }

  lemma SameCommutes(d: Option<Doc>, e: Option<Doc>)
    ensures Same(d, e) <==> Same(e, d)
  {
  }

  /** The reference machine never makes a stub. */
  lemma {:induction false} NeverStub(c: Config, ops: seq<Op>, key: u64)
    requires WellFormedRun(c, None, ops, key)
    ensures !StubDoc(RunOn(c, None, ops, key))
  {
    if ops != [] {
      NeverStub(c, ops[..|ops| - 1], key);
      hide IsStub, IsPinned, IsTombstone, RunOn, WellFormedRun;
    }
  }

  lemma {:induction false} FoldEdgesAscend(c: Config, d: Option<Doc>, ops: seq<Op>, key: u64)
    requires WellFormedRun(c, d, ops, key)
    ensures var e := Fold(ops, key).edges; e.Some? && e.value.Edges? ==> Ascending(e.value.edges)
  {
    hide Ascending, Merge.Apply;
    if ops != [] { FoldEdgesAscend(c, d, ops[..|ops| - 1], key); }
  }

  /** What one key reads after a compaction, given that it read as the reference says. */
  lemma CompactKeepsSame(before: Option<Doc>, after: Option<Doc>, ref: Option<Doc>)
    requires Same(before, ref) && !StubDoc(ref)
    requires before.Some? && !StubDoc(before) ==> after == before
    requires StubDoc(before) ==> after == before || after == None
    requires before.None? ==> after == None || after == Some(BLANK_DOC)
    ensures Same(after, ref)
  {
    hide IsStub;
    BlankReads(Config(0, (k, h) => 0));
  }

  /** The edge sets of a well-formed overlay ascend. */
  lemma HistoryOverlayAscends(c: Config, base: Base, before: seq<Op>, overlay: Overlay, after: seq<Op>)
    requires Renders(c, base, before) && OverlayOf(overlay, after)
    requires WellFormedHistory(c, before + after)
    ensures OverlayAscends(overlay)
  {
    hide ReadAt, Same, Reference, WellFormedRun, EdgesAscend, Ascending;
    forall k | k in overlay && overlay[k].edges.Some? && overlay[k].edges.value.Edges?
      ensures Ascending(overlay[k].edges.value.edges)
    {
      ReadsRefine(c, base, before, overlay, after, k);
      assert At(overlay, k) == PatchOf(after, k);
      FoldEdgesAscend(c, Read(c, At(base, k), None), after, k);
    }
  }

  /** Compacting renders the later ops into the base: reads stay those of the reference. */
  lemma CompactRenders(c: Config, base: Base, before: seq<Op>, overlay: Overlay, after: seq<Op>)
    requires Renders(c, base, before) && OverlayOf(overlay, after)
    requires WellFormedHistory(c, before + after)
    ensures Renders(c, Compact(c, base, overlay), before + after)
  {
    hide Compact, ReadAt, NodeAt, Same, IsStub, Reference, WellFormedRun, EdgesAscend, Referenced, Ascending;
    HistoryOverlayAscends(c, base, before, overlay, after);
    CompactResolvesEdges(c, base, overlay);
    forall k: u64 ensures Same(ReadAt(c, Compact(c, base, overlay), map[], k), Reference(c, before + after, k)) {
      ReadsRefine(c, base, before, overlay, after, k);
      CompactPreservesReads(c, base, overlay, k);
      ReferenceNeverStub(c, before + after, k);
      CompactKeepsSame(ReadAt(c, base, overlay, k), ReadAt(c, Compact(c, base, overlay), map[], k),
                       Reference(c, before + after, k));
    }
  }

  lemma ReferenceNeverStub(c: Config, ops: seq<Op>, key: u64)
    requires WellFormedHistory(c, ops)
    ensures !StubDoc(Reference(c, ops, key))
  {
    NeverStub(c, ops, key);
  }

  // ---- a store that commits and compacts ---------------------------------------------------

  datatype Step = Do(op: Op) | CompactNow

  /** A store: a base and the ops committed since it was compacted. */
  datatype Store = Store(base: Base, pending: seq<Op>)

  function OverlayFold(ops: seq<Op>): Overlay {
    if ops == [] then map[]
    else
      var most, last := OverlayFold(ops[..|ops| - 1]), ops[|ops| - 1];
      most[last.key := FoldOne(if last.key in most then most[last.key] else NO_PATCH, last)]
  }

  lemma {:induction false} OverlayFolds(ops: seq<Op>, k: u64)
    ensures At(OverlayFold(ops), k) == PatchOf(ops, k)
  {
    if ops != [] {
      var most, last := ops[..|ops| - 1], ops[|ops| - 1];
      OverlayFolds(most, k);
      assert Touched(ops, k) <==> Touched(most, k) || last.key == k by {
        if Touched(most, k) {
          var i :| 0 <= i < |most| && most[i].key == k;
          assert ops[i].key == k;
        }
      }
      if !Touched(most, k) { UntouchedFold(most, k); }
      hide Touched, FoldOne;
    }
  }

  function RunSteps(c: Config, steps: seq<Step>): Store {
    if steps == [] then Store(map[], [])
    else
      var s := RunSteps(c, steps[..|steps| - 1]);
      match steps[|steps| - 1]
      case Do(op) => s.(pending := s.pending + [op])
      case CompactNow => Store(Compact(c, s.base, OverlayFold(s.pending)), [])
  }

  function OpsIn(steps: seq<Step>): seq<Op> {
    if steps == [] then []
    else
      var most := OpsIn(steps[..|steps| - 1]);
      if steps[|steps| - 1].Do? then most + [steps[|steps| - 1].op] else most
  }

  function ReadStore(c: Config, s: Store, k: u64): Option<Doc> {
    ReadAt(c, s.base, OverlayFold(s.pending), k)
  }

  lemma EmptyRenders(c: Config)
    ensures Renders(c, map[], [])
  {
  }

  lemma HistoryPrefix(c: Config, a: seq<Op>, b: seq<Op>)
    requires WellFormedHistory(c, a + b)
    ensures WellFormedHistory(c, a)
  {
    forall k: u64 ensures WellFormedRun(c, None, a, k) { RunSplit(c, None, a, b, k); }
  }

  /** At every moment of a run the base renders exactly the ops before the pending ones. */
  lemma {:induction false} RunRenders(c: Config, steps: seq<Step>) returns (folded: seq<Op>)
    requires WellFormedHistory(c, OpsIn(steps))
    ensures var s := RunSteps(c, steps);
            Renders(c, s.base, folded) && folded + s.pending == OpsIn(steps)
  {
    hide Renders, WellFormedHistory, Compact, OverlayFold;
    if steps == [] {
      folded := [];
      EmptyRenders(c);
    } else {
      var most, last := steps[..|steps| - 1], steps[|steps| - 1];
      var s := RunSteps(c, most);
      if last.Do? { HistoryPrefix(c, OpsIn(most), [last.op]); }
      folded := RunRenders(c, most);
      if last.CompactNow? {
        forall k: u64 ensures At(OverlayFold(s.pending), k) == PatchOf(s.pending, k) { OverlayFolds(s.pending, k); }
        CompactRenders(c, s.base, folded, OverlayFold(s.pending), s.pending);
        folded := folded + s.pending;
        assert folded + [] == folded;
      } else {
        assert folded + (s.pending + [last.op]) == folded + s.pending + [last.op];
      }
    }
  }

  /** Compact whenever and as often as you like: every key reads as the reference machine
      over the ops alone. */
  lemma CompactionIsInvisible(c: Config, steps: seq<Step>, k: u64)
    requires WellFormedHistory(c, OpsIn(steps))
    ensures Same(ReadStore(c, RunSteps(c, steps), k), Reference(c, OpsIn(steps), k))
  {
    hide Renders, WellFormedHistory, Same, ReadAt, Reference;
    var s := RunSteps(c, steps);
    var folded := RunRenders(c, steps);
    forall x: u64 ensures At(OverlayFold(s.pending), x) == PatchOf(s.pending, x) { OverlayFolds(s.pending, x); }
    ReadsRefine(c, s.base, folded, OverlayFold(s.pending), s.pending, k);
  }

  /** In a store with a well-formed history every stub is blank, so no dropped one points
      anywhere. */
  lemma HistoryStubsAreBlank(c: Config, base: Base, before: seq<Op>, overlay: Overlay, after: seq<Op>)
    requires Renders(c, base, before) && OverlayOf(overlay, after) && OverlayAscends(overlay)
    requires WellFormedHistory(c, before + after)
    ensures DroppedStubsAddNothing(Models(c, base, overlay))
  {
    hide Models, Same, ReadAt, NodeAt, Reference, WellFormedHistory, Referenced, IsStub, EdgesAscend;
    var m := Models(c, base, overlay);
    forall k, t | PointsAt(m, k, t) && Dropped(m, k) ensures false {
      assert EdgesAscend(base);
      CollectedReads(c, base, overlay, k);
      ReadsRefine(c, base, before, overlay, after, k);
      ReferenceNeverStub(c, before + after, k);
      StubIsBlank(c, m, k, Reference(c, before + after, k));
    }
  }

  lemma StubIsBlank(c: Config, m: Base, k: u64, ref: Option<Doc>)
    requires k in m && IsStub(m[k].rec.flags) && Same(ReadAt(c, m, map[], k), ref) && !StubDoc(ref)
    ensures m[k].edges == []
  {
    hide IsStub;
    PlainReads(c, m[k]);
  }

  /** So however a store got where it is, compacting it again with nothing written since
      changes nothing. */
  lemma CompactAgainChangesNothing(c: Config, steps: seq<Step>)
    requires WellFormedHistory(c, OpsIn(steps))
    ensures RunSteps(c, steps + [CompactNow] + [CompactNow]) == RunSteps(c, steps + [CompactNow])
  {
    hide Renders, WellFormedHistory, Compact, OverlayFold, DroppedStubsAddNothing, Models;
    var s := RunSteps(c, steps);
    var folded := RunRenders(c, steps);
    var overlay := OverlayFold(s.pending);
    assert (steps + [CompactNow])[..|steps|] == steps;
    assert (steps + [CompactNow] + [CompactNow])[..|steps| + 1] == steps + [CompactNow];
    forall k: u64 ensures At(overlay, k) == PatchOf(s.pending, k) { OverlayFolds(s.pending, k); }
    HistoryOverlayAscends(c, s.base, folded, overlay, s.pending);
    HistoryStubsAreBlank(c, s.base, folded, overlay, s.pending);
    RendersAscend(c, s.base, folded);
    CompactIsIdempotent(c, s.base, overlay);
    NothingPending();
  }

  lemma NothingPending()
    ensures OverlayFold([]) == map[]
  {
  }

  lemma RendersAscend(c: Config, base: Base, ops: seq<Op>)
    requires Renders(c, base, ops)
    ensures EdgesAscend(base)
  {
  }
}
