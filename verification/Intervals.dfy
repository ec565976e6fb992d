/** The revalidation interval a snapshot returns for a node: the one field that is no function
    of the ops alone. */
module Intervals {
  import opened Ops
  import opened Merge
  import C = Compaction
  import opened Touching

  // ---- which op decides ------------------------------------------------------------------------

  /** The last touch or upsert of a key. */
  predicate Newest(ops: seq<Op>, key: u64, i: int) {
    && 0 <= i < |ops| && ops[i].key == key && (ops[i].Touch? || ops[i].Upsert?)
    && forall j :: i < j < |ops| && ops[j].key == key ==> !ops[j].Touch? && !ops[j].Upsert?
  }

  predicate Severed(ops: seq<Op>, key: u64) { exists i :: 0 <= i < |ops| && ops[i].key == key && ops[i].Remove? }

  /** What the base record teaches an upsert: its interval, if it has the upsert's hash. */
  function Learned(c: Config, b: Option<BaseDoc>, hash: u64): u32 {
    if b.None? || b.value.rec.hash != hash then c.baseInterval
    else if b.value.rec.interval < 1 then 1
    else b.value.rec.interval
  }

  /** The base record as an upsert may still use it: not after a removal. */
  function Known(b: Option<BaseDoc>, ops: seq<Op>, key: u64): Option<BaseDoc> { if Severed(ops, key) then None else b }

  /** The patch remembers the newest op as it is, and whether a removal severed the base. */
  ghost predicate Remembers(ops: seq<Op>, key: u64, p: Patch) {
    && (p.severed <==> Severed(ops, key))
    && (p.removed || (p.touch.Some? ==> exists i :: Newest(ops, key, i) && p.touch == Some(ops[i]) && ops[i].Touch?))
    && (p.removed || (p.touch.None? && p.core.Some? ==> exists i :: Newest(ops, key, i) && p.core == Some(ops[i]) && ops[i].Upsert?))
    && (p.removed || (p.touch.None? && p.core.None? ==> forall i :: !Newest(ops, key, i)))
    && (p.core.Some? ==> p.core.value.Upsert?) && (p.touch.Some? ==> p.touch.value.Touch?)
  }

  lemma NewestSnoc(most: seq<Op>, op: Op, key: u64, i: int)
    ensures Newest(most + [op], key, i) <==>
      if op.key == key && (op.Touch? || op.Upsert?) then i == |most| else Newest(most, key, i)
  {
    var ops := most + [op];
    assert ops[|most|] == op && forall j :: 0 <= j < |most| ==> ops[j] == most[j];
    if op.key == key && (op.Touch? || op.Upsert?) {
      if Newest(ops, key, i) { assert !(i < |most|); }
    } else if Newest(ops, key, i) {
      assert i != |most|;
      assert forall j :: i < j < |most| ==> ops[j] == most[j] && j < |ops|;
    }
  }

  lemma SeveredSnoc(most: seq<Op>, op: Op, key: u64)
    ensures Severed(most + [op], key) <==> Severed(most, key) || (op.key == key && op.Remove?)
  {
    var ops := most + [op];
    if i :| 0 <= i < |most| && most[i].key == key && most[i].Remove? { assert ops[i] == most[i]; }
    if op.key == key && op.Remove? { assert ops[|most|] == op; }
  }

  lemma {:induction false} FoldRemembers(ops: seq<Op>, key: u64)
    ensures Remembers(ops, key, Fold(ops, key))
  {
    if ops != [] {
      var most, op := ops[..|ops| - 1], ops[|ops| - 1];
      assert ops == most + [op];
      FoldRemembers(most, key);
      SeveredSnoc(most, op, key);
      forall i ensures Newest(ops, key, i) <==>
        if op.key == key && (op.Touch? || op.Upsert?) then i == |most| else Newest(most, key, i)
      {
        NewestSnoc(most, op, key, i);
      }
      hide Newest, Severed;
    }
  }

  // ---- the law -------------------------------------------------------------------------------------

  /** Whatever the ops and the base: a node shows the interval of the last touch; if an upsert
      came later, what the base record teaches it, unless a removal severed the base; with
      neither, the base record's own. */
  lemma IntervalIs(c: Config, b: Option<BaseDoc>, ops: seq<Op>, key: u64)
    requires Node(c, b, PatchOf(ops, key)).Some?
    ensures var shown := Node(c, b, PatchOf(ops, key)).value.interval;
            && (forall i :: Newest(ops, key, i) && ops[i].Touch? ==> shown == ops[i].interval)
            && (forall i :: Newest(ops, key, i) && ops[i].Upsert? ==> shown == Learned(c, Known(b, ops, key), ops[i].hash))
            && ((forall i :: !Newest(ops, key, i)) ==> b.Some? && shown == b.value.rec.interval)
  {
    hide Newest, Severed;
    FoldRemembers(ops, key);
    OnlyOneNewest(ops, key);
    if !Touched(ops, key) { UntouchedFold(ops, key); }
  }

  lemma OnlyOneNewest(ops: seq<Op>, key: u64)
    ensures forall i, j :: Newest(ops, key, i) && Newest(ops, key, j) ==> i == j
  {
    forall i, j | Newest(ops, key, i) && Newest(ops, key, j) ensures i == j {
      assert !(i < j) && !(j < i);
    }
  }

  // ---- a compaction in between ------------------------------------------------------------------------

  lemma {:induction false} SeveredJoins(a: seq<Op>, b: seq<Op>, key: u64)
    ensures Severed(a + b, key) <==> Severed(a, key) || Severed(b, key)
    decreases |b|
  {
    hide Severed;
    if b == [] {
      assert a + b == a;
      assert !Severed([], key) by { NeverSevered(key); }
    } else {
      var most, op := b[..|b| - 1], b[|b| - 1];
      assert a + b == a + most + [op] && b == most + [op];
      SeveredJoins(a, most, key);
      SeveredSnoc(a + most, op, key);
      SeveredSnoc(most, op, key);
    }
  }

  lemma NeverSevered(key: u64)
    ensures !Severed([], key)
  {
  }

  /** The newest op of a run after another is the run's own. */
  lemma NewestLater(a: seq<Op>, b: seq<Op>, key: u64, i: int)
    requires Newest(b, key, i)
    ensures 0 <= i < |b| && Newest(a + b, key, |a| + i) && (a + b)[|a| + i] == b[i]
  {
    assert forall j :: |a| <= j < |a + b| ==> (a + b)[j] == b[j - |a|];
  }

  /** Ops without a touch or an upsert of a key leave what its node's interval depends on, or
      remove it. */
  lemma {:induction false} FoldSame(a: seq<Op>, b: seq<Op>, key: u64)
    requires forall i :: !Newest(b, key, i)
    ensures var p, q := Fold(a, key), Fold(a + b, key);
            if Severed(b, key) then q.removed
            else q.removed == p.removed && q.core == p.core && q.touch == p.touch && q.severed == p.severed
                 && q.carried == p.carried
    decreases |b|
  {
    if b == [] {
      assert a + b == a;
    } else {
      var most, op := b[..|b| - 1], b[|b| - 1];
      assert b == most + [op] && (a + b)[..|a + b| - 1] == a + most;
      SeveredSnoc(most, op, key);
      if op.key == key && (op.Touch? || op.Upsert?) {
        NewestSnoc(most, op, key, |most|);
      } else {
        forall i ensures !Newest(most, key, i) { NewestSnoc(most, op, key, i); }
        FoldSame(a, most, key);
      }
      hide Newest, Severed;
    }
  }

  /** Such ops leave the interval a node shows. */
  lemma IntervalStays(c: Config, base: Option<BaseDoc>, a: seq<Op>, b: seq<Op>, key: u64)
    requires forall i :: !Newest(b, key, i)
    requires Node(c, base, PatchOf(a + b, key)).Some?
    ensures Node(c, base, PatchOf(a, key)).Some?
    ensures Node(c, base, PatchOf(a + b, key)).value.interval == Node(c, base, PatchOf(a, key)).value.interval
  {
    hide Newest, Severed;
    FoldSame(a, b, key);
    if !Touched(a, key) { UntouchedFold(a, key); }
    if !Touched(a + b, key) { UntouchedFold(a + b, key); }
  }

  /** What a compaction stores for a node is what a snapshot showed of it. */
  lemma CompactedRecord(c: Config, base: C.Base, a: seq<Op>, k: u64)
    ensures var mid, n := C.At(C.Compact(c, base, C.OverlayFold(a)), k), Node(c, C.At(base, k), PatchOf(a, k));
            mid.Some? && n.Some? ==> mid.value.rec == n.value
  {
    hide Node, C.Models, C.ManageStubs;
    C.OverlayFolds(a, k);
    var overlay := C.OverlayFold(a);
    var m := C.Models(c, base, overlay);
    if Node(c, C.At(base, k), C.At(overlay, k)).Some? {
      ModelRecord(c, base, overlay, k);
      if k in C.ManageStubs(m) { ManagedKeeps(m, k); }
    }
  }

  lemma ManagedKeeps(m: C.Base, k: u64)
    requires k in m && k in C.ManageStubs(m)
    ensures C.ManageStubs(m)[k] == m[k]
  {
    hide C.Referenced, IsStub;
  }

  lemma ModelRecord(c: Config, base: C.Base, overlay: Overlay, k: u64)
    requires Node(c, C.At(base, k), C.At(overlay, k)).Some?
    ensures k in C.Models(c, base, overlay)
    ensures C.Models(c, base, overlay)[k].rec == Node(c, C.At(base, k), C.At(overlay, k)).value
  {
    hide CoreNode, BaseNode, Segments, Neighbors, Attributes, C.Dedup, C.SortByDst;
  }

  /** Ops, a compaction, more ops, against the same ops and no compaction: the interval comes
      out the same unless an upsert is the last touch or upsert since; then just when the
      document was removed since, or the record compacted teaches the upsert what the record
      before it did. */
  lemma CompactionInBetween(c: Config, base: C.Base, a: seq<Op>, b: seq<Op>, k: u64)
    requires Node(c, C.At(base, k), PatchOf(a + b, k)).Some?
    requires Node(c, C.At(C.Compact(c, base, C.OverlayFold(a)), k), PatchOf(b, k)).Some?
    ensures var record, compacted := C.At(base, k), C.At(C.Compact(c, base, C.OverlayFold(a)), k);
            var plain, cut := Node(c, record, PatchOf(a + b, k)).value, Node(c, compacted, PatchOf(b, k)).value;
            && ((forall i :: Newest(b, k, i) ==> b[i].Touch?) ==> cut.interval == plain.interval)
            && forall i :: Newest(b, k, i) && b[i].Upsert? ==>
                 (cut.interval == plain.interval <==>
                    Severed(b, k) || Learned(c, compacted, b[i].hash) == Learned(c, Known(record, a, k), b[i].hash))
  {
    hide Newest, Severed, Node, C.Compact, Learned;
    var record, compacted := C.At(base, k), C.At(C.Compact(c, base, C.OverlayFold(a)), k);
    IntervalIs(c, record, a + b, k);
    IntervalIs(c, compacted, b, k);
    SeveredJoins(a, b, k);
    if i :| Newest(b, k, i) {
      NewestLater(a, b, k, i);
      OnlyOneNewest(b, k);
    } else {
      IntervalStays(c, record, a, b, k);
      CompactedRecord(c, base, a, k);
      CompactedThere(c, compacted, b, k);
    }
  }

  /** With no upsert since, a node that shows was in the base, and shows the base's interval. */
  lemma CompactedThere(c: Config, b: Option<BaseDoc>, ops: seq<Op>, key: u64)
    requires (forall i :: !Newest(ops, key, i)) && Node(c, b, PatchOf(ops, key)).Some?
    ensures b.Some? && Node(c, b, PatchOf(ops, key)).value.interval == b.value.rec.interval
  {
    hide Newest, Severed, Node;
    IntervalIs(c, b, ops, key);
  }

  /** A document checked and then ingested again unchanged: compacting in between keeps the
      interval the check learned, not compacting forgets it. */
  lemma IntervalDependsOnCompaction(c: Config)
    ensures var base: C.Base := map[7 := BaseDoc(NodeRec([65], None, None, None, 1, 10, 0, 3600, 0, 0, 0), [], [], [])];
            var check := Touch(7, 20, 0, Some(1), None, 7200, 1, 0, 0, false);
            var again := Upsert(7, 1, 30, 0, [65], None, None, None);
            var plain := Node(c, C.At(base, 7), PatchOf([check] + [again], 7));
            var cut := Node(c, C.At(C.Compact(c, base, C.OverlayFold([check])), 7), PatchOf([again], 7));
            plain.Some? && cut.Some? && plain.value.interval == 3600 && cut.value.interval == 7200
  {
    var base: C.Base := map[7 := BaseDoc(NodeRec([65], None, None, None, 1, 10, 0, 3600, 0, 0, 0), [], [], [])];
    var check := Touch(7, 20, 0, Some(1), None, 7200, 1, 0, 0, false);
    var again := Upsert(7, 1, 30, 0, [65], None, None, None);
    OneOp(check);
    OneOp(again);
    TwoOps(check, again);
    C.OverlayFolds([check], 7);
    assert C.Collected(c, C.At(base, 7), PatchOf([check], 7)).Some?;
  }

  lemma OneOp(op: Op)
    ensures PatchOf([op], op.key) == Some(FoldOne(NO_PATCH, op))
  {
    assert [op][..0] == [];
    assert [op][0].key == op.key;
    assert Fold([], op.key) == NO_PATCH;
  }

  lemma TwoOps(a: Op, b: Op)
    requires a.key == b.key
    ensures PatchOf([a] + [b], a.key) == Some(FoldOne(FoldOne(NO_PATCH, a), b))
  {
    OneOp(a);
    assert ([a] + [b])[..1] == [a];
    assert ([a] + [b])[0].key == a.key;
  }

  // ---- a touch schedules the next check -----------------------------------------------------------------

  /** A touch computed from what its writer shows, and committed after whatever that writer had
      staged: the node shows the interval the policy answers for the one shown before, and the
      op tells the outcome. */
  lemma TouchSchedules(c: Config, b: Option<BaseDoc>, ops: seq<Op>, staged: seq<Op>, key: u64, o: Observation, next: Policy)
    requires var shown := Node(c, b, PatchOf(ops, key)); shown.Some?
    requires var was, doc := Node(c, b, PatchOf(ops, key)).value, Read(c, b, PatchOf(ops, key)).value;
             Node(c, b, PatchOf(ops + staged + [TouchOp(doc, was.interval, staged, key, o, next)], key)).Some?
    ensures var was, doc := Node(c, b, PatchOf(ops, key)).value, Read(c, b, PatchOf(ops, key)).value;
            var t := TouchOp(doc, was.interval, staged, key, o, next);
            && Node(c, b, PatchOf(ops + staged + [t], key)).value.interval ==
                 next(if was.interval == 0 then 1 else was.interval, o.outcome)
            && OutcomeOf(t.outcome) == o.outcome
  {
    hide Node, Newest;
    var was, doc := Node(c, b, PatchOf(ops, key)).value, Read(c, b, PatchOf(ops, key)).value;
    var t := TouchOp(doc, was.interval, staged, key, o, next);
    var all := ops + staged + [t];
    NewestSnoc(ops + staged, t, key, |ops + staged|);
    IntervalIs(c, b, all, key);
    assert all[|ops + staged|] == t;
  }
}
