/** Every step of the protocol keeps its invariant, apart from two: a lock holder whose
    stamp is an alias of the files', and an append that is cut back after another
    handle has read it. Both are characterised exactly in `ProtocolLimits`. */
module ProtocolSteps {
  import opened Ops
  import opened History
  import opened Protocol
  import opened ProtocolInvariant

  // ---- how each change of the files looks to a handle that did not make it ---------

  lemma FilesTorn(hist: seq<Txn>, cuts: map<nat, nat>, d: Disk, id: nat, torn: nat)
    requires FilesOk(hist, cuts, d, id) && d.log.Log?
    ensures FilesOk(hist, cuts, d.(log := d.log.(torn := torn)), id)
  {
  }

  lemma KeepTorn(hist: seq<Txn>, cuts: map<nat, nat>, d: Disk, id: nat, torn: nat, hd: Handle)
    requires FilesOk(hist, cuts, d, id) && d.log.Log?
    requires HandleOk(hist, cuts, d, id, hd) && !Holding(hd.phase)
    ensures FilesOk(hist, cuts, d.(log := d.log.(torn := torn)), id)
    ensures HandleOk(hist, cuts, d.(log := d.log.(torn := torn)), id, hd)
  {
    var d' := d.(log := d.log.(torn := torn));
    if hd.seen.stamp.Some? && SameFiles(hd.seen.stamp.value, d') {
      var c :| Consumed(hist, cuts, d, hd.seen.walPos, Shown(hd), c);
      assert Consumed(hist, cuts, d', hd.seen.walPos, Shown(hd), c);
    }
  }

  lemma BaseGrows(hist: seq<Txn>, cuts: map<nat, nat>, b: Base, txn: Txn)
    requires BaseOk(hist, cuts, b)
    ensures BaseOk(hist + [txn], cuts, b)
  {
    assert (hist + [txn])[..cuts[b.gen]] == hist[..cuts[b.gen]];
  }

  lemma ServedGrows(hist: seq<Txn>, cuts: map<nat, nat>, v: Served, txn: Txn)
    requires ServedOk(hist, cuts, v)
    ensures ServedOk(hist + [txn], cuts, v)
  {
    BaseGrows(hist, cuts, v.base, txn);
    AllOpsSnoc(hist, txn);
    RangeGrow(AllOps(hist), txn, v.base.applied, LastSeq(v));
    BoundaryGrows(hist, txn, LastSeq(v));
  }

  function AppendTo(d: Disk, hist: seq<Txn>, txn: Txn): Disk
    requires d.log.Log?
  {
    d.(log := d.log.(recs := d.log.recs + [Record(Count(hist) + 1, txn)], torn := 0))
  }

  lemma FilesAppend(hist: seq<Txn>, cuts: map<nat, nat>, d: Disk, id: nat, txn: Txn)
    requires FilesOk(hist, cuts, d, id) && LogIsCurrent(d) && txn != []
    ensures FilesOk(hist + [txn], cuts, AppendTo(d, hist, txn), id)
  {
    BaseGrows(hist, cuts, d.base, txn);
    RecsGrow(hist, cuts[d.log.gen], txn);
  }

  lemma ConsumedGrows(hist: seq<Txn>, cuts: map<nat, nat>, d: Disk, txn: Txn, walPos: nat, n: nat, c: nat)
    requires d.log.Log? && Consumed(hist, cuts, d, walPos, n, c)
    ensures Consumed(hist + [txn], cuts, AppendTo(d, hist, txn), walPos, n, c)
  {
    var d' := AppendTo(d, hist, txn);
    assert d'.log.recs[..c] == d.log.recs[..c];
    assert (hist + [txn])[..cuts[d.log.gen] + c] == hist[..cuts[d.log.gen] + c];
  }

  lemma KeepAppend(hist: seq<Txn>, cuts: map<nat, nat>, d: Disk, id: nat, txn: Txn, hd: Handle)
    requires FilesOk(hist, cuts, d, id) && LogIsCurrent(d) && txn != []
    requires HandleOk(hist, cuts, d, id, hd) && !Holding(hd.phase)
    ensures FilesOk(hist + [txn], cuts, AppendTo(d, hist, txn), id)
    ensures HandleOk(hist + [txn], cuts, AppendTo(d, hist, txn), id, hd)
  {
    FilesAppend(hist, cuts, d, id, txn);
    if hd.served.Some? { ServedGrows(hist, cuts, hd.served.value, txn); }
    var d' := AppendTo(d, hist, txn);
    if hd.seen.stamp.Some? && SameFiles(hd.seen.stamp.value, d') {
      var c :| Consumed(hist, cuts, d, hd.seen.walPos, Shown(hd), c);
      ConsumedGrows(hist, cuts, d, txn, hd.seen.walPos, Shown(hd), c);
      assert (hist + [txn])[..cuts[d.base.gen]] == hist[..cuts[d.base.gen]];
    }
    if hd.phase.Reading? && hd.phase.base.Some? { BaseGrows(hist, cuts, hd.phase.base.value, txn); }
  }

  /** The base replaced by a rendering of the whole history under a new generation. */
  ghost predicate Renders(hist: seq<Txn>, cuts: map<nat, nat>, d: Disk, b: Base) {
    && b.gen == d.base.gen + 1 && b.folded == AllOps(hist) && b.applied == |b.folded|
  }

  lemma FilesSwapBase(hist: seq<Txn>, cuts: map<nat, nat>, d: Disk, id: nat, b: Base)
    requires FilesOk(hist, cuts, d, id) && Renders(hist, cuts, d, b)
    ensures FilesOk(hist, cuts[b.gen := |hist|], d.(base := b), id)
  {
    assert hist[..|hist|] == hist;
  }

  lemma KeepSwapBase(hist: seq<Txn>, cuts: map<nat, nat>, d: Disk, id: nat, b: Base, hd: Handle)
    requires FilesOk(hist, cuts, d, id) && Renders(hist, cuts, d, b)
    requires HandleOk(hist, cuts, d, id, hd) && !Holding(hd.phase)
    ensures FilesOk(hist, cuts[b.gen := |hist|], d.(base := b), id)
    ensures HandleOk(hist, cuts[b.gen := |hist|], d.(base := b), id, hd)
  {
    FilesSwapBase(hist, cuts, d, id, b);
  }

  lemma FilesNewLog(hist: seq<Txn>, cuts: map<nat, nat>, d: Disk, id: nat)
    requires FilesOk(hist, cuts, d, id) && cuts[d.base.gen] == |hist|
    ensures FilesOk(hist, cuts, d.(log := Log(id, d.base.gen, [], 0)), id + 1)
  {
  }

  lemma KeepNewLog(hist: seq<Txn>, cuts: map<nat, nat>, d: Disk, id: nat, hd: Handle)
    requires FilesOk(hist, cuts, d, id) && cuts[d.base.gen] == |hist|
    requires HandleOk(hist, cuts, d, id, hd) && !Holding(hd.phase)
    ensures FilesOk(hist, cuts, d.(log := Log(id, d.base.gen, [], 0)), id + 1)
    ensures HandleOk(hist, cuts, d.(log := Log(id, d.base.gen, [], 0)), id + 1, hd)
  {
  }

  // ---- the last record withdrawn ----------------------------------------------------

  function WithoutLast(d: Disk): Disk
    requires d.log.Log? && d.log.recs != []
  {
    d.(log := d.log.(recs := d.log.recs[..|d.log.recs| - 1], torn := 0))
  }

  lemma BaseShrinks(hist: seq<Txn>, cuts: map<nat, nat>, b: Base)
    requires hist != [] && BaseOk(hist, cuts, b) && cuts[b.gen] < |hist|
    ensures BaseOk(hist[..|hist| - 1], cuts, b)
  {
    assert hist[..|hist| - 1][..cuts[b.gen]] == hist[..cuts[b.gen]];
  }

  lemma FilesWithdraw(hist: seq<Txn>, cuts: map<nat, nat>, d: Disk, id: nat)
    requires FilesOk(hist, cuts, d, id) && LogIsCurrent(d) && d.log.recs != []
    ensures hist != [] && FilesOk(hist[..|hist| - 1], cuts, WithoutLast(d), id)
  {
    BaseShrinks(hist, cuts, d.base);
    RecsShrink(hist, cuts[d.log.gen]);
  }

  lemma ServedShrinks(hist: seq<Txn>, cuts: map<nat, nat>, v: Served)
    requires hist != [] && NoEmpty(hist) && ServedOk(hist, cuts, v)
    requires cuts[v.base.gen] < |hist| && LastSeq(v) < Count(hist)
    ensures ServedOk(hist[..|hist| - 1], cuts, v)
  {
    var g := hist[..|hist| - 1];
    BaseShrinks(hist, cuts, v.base);
    BoundaryShrinks(hist, LastSeq(v));
    assert hist == g + [hist[|hist| - 1]];
    AllOpsSnoc(g, hist[|hist| - 1]);
    RangeGrow(AllOps(g), hist[|hist| - 1], v.base.applied, LastSeq(v));
  }

  lemma ConsumedShrinks(hist: seq<Txn>, cuts: map<nat, nat>, d: Disk, id: nat, walPos: nat, n: nat, c: nat)
    requires FilesOk(hist, cuts, d, id) && LogIsCurrent(d) && d.log.recs != [] && hist != []
    requires n < Count(hist) && Consumed(hist, cuts, d, walPos, n, c)
    ensures Consumed(hist[..|hist| - 1], cuts, WithoutLast(d), walPos, n, c)
  {
    assert hist[..|hist|] == hist;
    if c < |d.log.recs| {
      assert d.log.recs[..|d.log.recs| - 1][..c] == d.log.recs[..c];
      assert hist[..|hist| - 1][..cuts[d.log.gen] + c] == hist[..cuts[d.log.gen] + c];
    }
  }

  lemma KeepWithdraw(hist: seq<Txn>, cuts: map<nat, nat>, d: Disk, id: nat, hd: Handle)
    requires FilesOk(hist, cuts, d, id) && LogIsCurrent(d) && d.log.recs != [] && hist != []
    requires HandleOk(hist, cuts, d, id, hd) && !Holding(hd.phase)
    requires hd.served.Some? ==> LastSeq(hd.served.value) < Count(hist)
    ensures FilesOk(hist[..|hist| - 1], cuts, WithoutLast(d), id)
    ensures HandleOk(hist[..|hist| - 1], cuts, WithoutLast(d), id, hd)
  {
    FilesWithdraw(hist, cuts, d, id);
    var g, d' := hist[..|hist| - 1], WithoutLast(d);
    if hd.served.Some? { ServedShrinks(hist, cuts, hd.served.value); }
    if hd.seen.stamp.Some? && SameFiles(hd.seen.stamp.value, d') {
      var c :| Consumed(hist, cuts, d, hd.seen.walPos, Shown(hd), c);
      ConsumedShrinks(hist, cuts, d, id, hd.seen.walPos, Shown(hd), c);
      assert g[..cuts[d.base.gen]] == hist[..cuts[d.base.gen]];
    }
    if hd.phase.Reading? && hd.phase.base.Some? { BaseShrinks(hist, cuts, hd.phase.base.value); }
  }

  // ---- the steps ----------------------------------------------------------------------

  /** A step that changes one handle's memory only. */
  lemma PutKeepsInv(s: State, h: nat, hd: Handle)
    requires Inv(s) && h in s.handles
    requires HandleOk(s.hist, s.cuts, s.disk, s.nextId, hd)
    requires Holding(hd.phase) == Holding(s.handles[h].phase)
    ensures Inv(Put(s, h, hd))
  {
  }

  /** A catch-up found the whole history: what the handle is left with. */
  lemma AdoptOk(hist: seq<Txn>, cuts: map<nat, nat>, d: Disk, id: nat, hd: Handle, was: Handle)
    requires FilesOk(hist, cuts, d, id) && HandleOk(hist, cuts, d, id, was)
    requires hd.served.Some? && ServedOk(hist, cuts, hd.served.value)
    requires LastSeq(hd.served.value) == Count(hist)
    requires hd.nextSeq == was.nextSeq && hd.diskGen == was.diskGen && hd.seen.baseGen <= d.base.gen
    ensures Adopt(hd).nextSeq == Count(hist) + 1
    ensures Adopt(hd).diskGen <= d.base.gen
    ensures hd.seen.baseGen == d.base.gen ==> Adopt(hd).diskGen == d.base.gen
  {
  }

  lemma StatHandleOk(hist: seq<Txn>, cuts: map<nat, nat>, d: Disk, id: nat, hd: Handle)
    requires FilesOk(hist, cuts, d, id) && HandleOk(hist, cuts, d, id, hd) && hd.phase.Idle?
    ensures HandleOk(hist, cuts, d, id, StatStep(hd, d)) && !Holding(StatStep(hd, d).phase)
  {
    hide ServedOk, Recs, RecordsFrom, Entries, Above, Bytes, AllOps, PublishAbove, Rising;
    CompareIsSound(hist, cuts, d, id, hd);
    if Compare(hd, d).Tail? {
      var got := TakeTail(hd, StampOf(d), Compare(hd, d));
      AdoptOk(hist, cuts, d, id, got, hd);
      FoldedCount(hist, cuts, d.base);
      TailConsumed(hist, cuts, d, id);
      assert SeenOk(hist, cuts, d, id, got.seen, Count(hist));
    }
  }

  lemma StatKeepsInv(s: State, h: nat)
    requires Inv(s) && Enabled(s, Stat(h))
    ensures Inv(Apply(s, Stat(h)))
  {
    StatHandleOk(s.hist, s.cuts, s.disk, s.nextId, s.handles[h]);
    PutKeepsInv(s, h, StatStep(s.handles[h], s.disk));
  }

  /** Every record of the log is consumed at its end. */
  lemma TailConsumed(hist: seq<Txn>, cuts: map<nat, nat>, d: Disk, id: nat)
    requires FilesOk(hist, cuts, d, id) && d.log.Log?
    ensures Consumed(hist, cuts, d, LOG_HEADER_LEN + Bytes(d.log.recs), Count(hist), |d.log.recs|)
  {
    assert d.log.recs[..|d.log.recs|] == d.log.recs;
    assert hist[..|hist|] == hist;
  }

  lemma HeaderConsumed(hist: seq<Txn>, cuts: map<nat, nat>, d: Disk, id: nat)
    requires FilesOk(hist, cuts, d, id) && d.log.Log?
    ensures Consumed(hist, cuts, d, LOG_HEADER_LEN, Count(hist), 0)
  {
    assert d.log.recs[..0] == [];
    CountMonotone(hist, cuts[d.log.gen], |hist|);
  }

  /** A full load remembers the files as they were examined before it, which is safe
      even when they were replaced in between. */
  lemma FullSeenOk(hist: seq<Txn>, cuts: map<nat, nat>, d: Disk, id: nat, now: Stamp, b: Base, o: Outcome)
    requires FilesOk(hist, cuts, d, id) && BaseOk(hist, cuts, b)
    requires now.base <= b.gen <= d.base.gen && (now.wal.Some? ==> now.wal.value.id < id)
    requires CompleteLoad(hist, cuts, d, b, o)
    ensures SeenOk(hist, cuts, d, id, Seen(Some(now), o.pos, o.current, b.gen), Count(hist))
  {
    if SameFiles(now, d) {
      FoldedCount(hist, cuts, d.base);
      if d.log.Log? {
        TailConsumed(hist, cuts, d, id);
        HeaderConsumed(hist, cuts, d, id);
      }
    }
  }

  lemma ReadLogHandleOk(hist: seq<Txn>, cuts: map<nat, nat>, d: Disk, id: nat, hd: Handle, free: bool)
    requires FilesOk(hist, cuts, d, id) && HandleOk(hist, cuts, d, id, hd)
    requires hd.phase.Reading? && hd.phase.base.Some?
    ensures HandleOk(hist, cuts, d, id, ReadLogStep(hd, d.log, free))
    ensures !Holding(ReadLogStep(hd, d.log, free).phase)
  {
    var b, now := hd.phase.base.value, hd.phase.now;
    LoadIsComplete(hist, cuts, d, id, hd.served, b, free);
    var o := InstallOrApply(hd.served, b, d.log, free);
    if o.Applied? {
      FullSeenOk(hist, cuts, d, id, now, b, o);
      AdoptOk(hist, cuts, d, id, TakeFull(hd, now, b, o), hd);
    }
  }

  lemma ReadLogKeepsInv(s: State, h: nat, free: bool)
    requires Inv(s) && Enabled(s, ReadLog(h, free))
    ensures Inv(Apply(s, ReadLog(h, free)))
  {
    ReadLogHandleOk(s.hist, s.cuts, s.disk, s.nextId, s.handles[h], free);
    PutKeepsInv(s, h, ReadLogStep(s.handles[h], s.disk.log, free));
  }

  lemma OpenKeepsInv(s: State, h: nat)
    requires Inv(s) && Enabled(s, Open(h))
    ensures Inv(Apply(s, Open(h)))
  {
  }

  lemma ReadBaseKeepsInv(s: State, h: nat)
    requires Inv(s) && Enabled(s, ReadBase(h))
    ensures Inv(Apply(s, ReadBase(h)))
  {
  }

  lemma AcquireKeepsInv(s: State, h: nat)
    requires Inv(s) && Enabled(s, Acquire(h))
    ensures Inv(Apply(s, Acquire(h)))
  {
    var hd := s.handles[h].(phase := Held);
    assert HandleOk(s.hist, s.cuts, s.disk, s.nextId, hd);
  }

  lemma ReleaseKeepsInv(s: State, h: nat)
    requires Inv(s) && Enabled(s, Release(h))
    ensures Inv(Apply(s, Release(h)))
  {
    var hd := s.handles[h].(phase := Idle);
    assert HandleOk(s.hist, s.cuts, s.disk, s.nextId, hd);
  }

  lemma CrashKeepsInv(s: State, h: nat)
    requires Inv(s) && Enabled(s, Crash(h))
    ensures Inv(Apply(s, Crash(h)))
  {
    var s' := Apply(s, Crash(h));
    forall k | k in s'.handles
      ensures HandleOk(s'.hist, s'.cuts, s'.disk, s'.nextId, s'.handles[k])
    {
      assert s'.handles[k] == s.handles[k];
    }
  }
}
