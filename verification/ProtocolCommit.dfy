/** The steps a lock holder takes: catch up and repair, append, publish, compact. */
module ProtocolCommit {
  import opened Ops
  import opened History
  import opened Protocol
  import opened ProtocolInvariant
  import opened ProtocolSteps

  /** The handle's stamp equals the files' although the log holds whole records it has
      not consumed: a torn tail it remembers was cut off and the log has since grown
      back to the very same length. */
  predicate Aliased(hd: Handle, d: Disk) {
    && hd.seen.stamp == Some(StampOf(d)) && LogIsCurrent(d)
    && hd.seen.walPos != LOG_HEADER_LEN + Bytes(d.log.recs)
  }

  // ---- catch up and repair -------------------------------------------------------------

  /** A handle a locked catch-up left holding the whole history. */
  ghost predicate Synced(hist: seq<Txn>, cuts: map<nat, nat>, d: Disk, hd: Handle) {
    && hd.served.Some? && ServedOk(hist, cuts, hd.served.value)
    && LastSeq(hd.served.value) == Count(hist)
    && hd.seen.stamp == Some(StampOf(d))
    && hd.seen.logCurrent == LogIsCurrent(d) && hd.seen.baseGen == d.base.gen
    && (LogIsCurrent(d) ==> hd.seen.walPos == LOG_HEADER_LEN + Bytes(d.log.recs))
  }

  /** A byte position names one boundary only. */
  lemma BoundaryUnique(recs: seq<Record>, c: nat)
    requires c <= |recs| && Bytes(recs[..c]) == Bytes(recs)
    ensures c == |recs|
  {
    BytesPrefix(recs, c);
  }

  lemma UnchangedIsSynced(hist: seq<Txn>, cuts: map<nat, nat>, d: Disk, id: nat, hd: Handle)
    requires FilesOk(hist, cuts, d, id) && HandleOk(hist, cuts, d, id, hd)
    requires hd.seen.stamp == Some(StampOf(d)) && !Aliased(hd, d)
    ensures Synced(hist, cuts, d, hd)
  {
    assert hist[..|hist|] == hist;
    if LogIsCurrent(d) {
      var c :| Consumed(hist, cuts, d, hd.seen.walPos, Shown(hd), c);
      BoundaryUnique(d.log.recs, c);
    }
  }

  lemma CatchUpIsSynced(hist: seq<Txn>, cuts: map<nat, nat>, d: Disk, id: nat, hd: Handle, free: bool)
    requires FilesOk(hist, cuts, d, id) && HandleOk(hist, cuts, d, id, hd) && !Aliased(hd, d)
    ensures var c := CatchUpLocked(hd, d, free);
            c.Some? ==>
              && Synced(hist, cuts, d, c.value)
              && c.value.nextSeq == hd.nextSeq && c.value.diskGen == hd.diskGen
  {
    CompareIsSound(hist, cuts, d, id, hd);
    if Compare(hd, d).Unchanged? {
      UnchangedIsSynced(hist, cuts, d, id, hd);
    } else if Compare(hd, d).Full? {
      LoadIsComplete(hist, cuts, d, id, hd.served, d.base, free);
    }
  }

  /** The files a repair leaves: a fresh header, or the torn bytes gone. */
  function Repaired(d: Disk, id: nat): Disk {
    if LogIsCurrent(d) then d.(log := d.log.(torn := 0)) else d.(log := Log(id, d.base.gen, [], 0))
  }

  lemma CutTorn(log: LogFile)
    requires log.Log?
    ensures Truncate(log, LOG_HEADER_LEN + Bytes(log.recs)) == log.(torn := 0)
  {
    FromBoundary(log.recs, |log.recs|);
    assert log.recs[..|log.recs|] == log.recs;
  }

  /** A repair by a synced holder removes no record and leaves it ready to append. */
  lemma RepairIsReady(hist: seq<Txn>, cuts: map<nat, nat>, d: Disk, id: nat, hd: Handle, was: Handle)
    requires FilesOk(hist, cuts, d, id) && HandleOk(hist, cuts, d, id, was)
    requires Synced(hist, cuts, d, hd) && hd.nextSeq == was.nextSeq && hd.diskGen == was.diskGen
    ensures var (hd', d') := Repair(hd, d, id);
            && d' == Repaired(d, id)
            && hd'.served == hd.served && hd'.nextSeq == hd.nextSeq && hd'.diskGen == hd.diskGen
            && Adopt(hd').nextSeq == Count(hist) + 1 && Adopt(hd').diskGen == d.base.gen
            && CaughtUp(hist, d', Adopt(hd'), LogRecs(d'.log))
            && d'.log.torn == 0
  {
    if LogIsCurrent(d) { CutTorn(d.log); }
    var (hd', d') := Repair(hd, d, id);
    assert d' == Repaired(d, id);
    AdoptOk(hist, cuts, d, id, hd', was);
  }

  lemma KeepId(hist: seq<Txn>, cuts: map<nat, nat>, d: Disk, id: nat, hd: Handle)
    requires FilesOk(hist, cuts, d, id) && HandleOk(hist, cuts, d, id, hd)
    ensures FilesOk(hist, cuts, d, id + 1) && HandleOk(hist, cuts, d, id + 1, hd)
  {
  }

  lemma FilesRepaired(hist: seq<Txn>, cuts: map<nat, nat>, d: Disk, id: nat)
    requires FilesOk(hist, cuts, d, id)
    ensures FilesOk(hist, cuts, Repaired(d, id), id + 1)
  {
    if LogIsCurrent(d) {
      FilesTorn(hist, cuts, d, id, 0);
    } else {
      FilesNewLog(hist, cuts, d, id);
    }
  }

  lemma KeepRepaired(hist: seq<Txn>, cuts: map<nat, nat>, d: Disk, id: nat, hd: Handle)
    requires FilesOk(hist, cuts, d, id) && HandleOk(hist, cuts, d, id, hd) && !Holding(hd.phase)
    ensures FilesOk(hist, cuts, Repaired(d, id), id + 1)
    ensures HandleOk(hist, cuts, Repaired(d, id), id + 1, hd)
  {
    if LogIsCurrent(d) {
      KeepTorn(hist, cuts, d, id, 0, hd);
      KeepId(hist, cuts, Repaired(d, id), id, hd);
    } else {
      KeepNewLog(hist, cuts, d, id, hd);
    }
  }

  lemma ReadyHandleOk(hist: seq<Txn>, cuts: map<nat, nat>, d: Disk, id: nat, hd: Handle)
    requires FilesOk(hist, cuts, d, id)
    requires hd.served.Some? && ServedOk(hist, cuts, hd.served.value) && LastSeq(hd.served.value) == Count(hist)
    requires CaughtUp(hist, d, hd, LogRecs(d.log)) && d.log.torn == 0
    ensures HandleOk(hist, cuts, d, id, hd.(phase := Ready))
  {
    TailConsumed(hist, cuts, d, id);
    FoldedCount(hist, cuts, d.base);
  }

  lemma SyncKeepsInv(s: State, h: nat, free: bool)
    requires Inv(s) && Enabled(s, Sync(h, free)) && !Aliased(s.handles[h], s.disk)
    ensures Inv(Apply(s, Sync(h, free)))
  {
    hide HandleOk, FilesOk, ServedOk, CaughtUp, Repair, CatchUpLocked, Repaired;
    var s', was := Apply(s, Sync(h, free)), s.handles[h];
    var c := CatchUpLocked(was, s.disk, free);
    CatchUpIsSynced(s.hist, s.cuts, s.disk, s.nextId, was, free);
    if c.Some? {
      RepairIsReady(s.hist, s.cuts, s.disk, s.nextId, c.value, was);
      FilesRepaired(s.hist, s.cuts, s.disk, s.nextId);
      var (hd, d) := Repair(c.value, s.disk, s.nextId);
      ReadyHandleOk(s.hist, s.cuts, d, s.nextId + 1, Adopt(hd));
      forall k | k in s'.handles
        ensures HandleOk(s'.hist, s'.cuts, s'.disk, s'.nextId, s'.handles[k])
      {
        if k != h { KeepRepaired(s.hist, s.cuts, s.disk, s.nextId, s.handles[k]); }
      }
    }
  }

  // ---- append --------------------------------------------------------------------------

  lemma BeginKeepsInv(s: State, h: nat, txn: Txn)
    requires Inv(s) && Enabled(s, BeginAppend(h, txn))
    ensures Inv(Apply(s, BeginAppend(h, txn)))
  {
    var hd := s.handles[h].(phase := Appending(txn));
    assert HandleOk(s.hist, s.cuts, s.disk, s.nextId, hd);
    PutKeepsInv(s, h, hd);
  }

  lemma LandKeepsInv(s: State, h: nat, k: nat)
    requires Inv(s) && Enabled(s, Land(h, k))
    ensures Inv(Apply(s, Land(h, k)))
  {
    var s' := Apply(s, Land(h, k));
    FilesTorn(s.hist, s.cuts, s.disk, s.nextId, k);
    forall x | x in s'.handles
      ensures HandleOk(s'.hist, s'.cuts, s'.disk, s'.nextId, s'.handles[x])
    {
      if x != h {
        KeepTorn(s.hist, s.cuts, s.disk, s.nextId, k, s.handles[x]);
      } else {
        HolderTorn(s.hist, s.cuts, s.disk, s.nextId, k, s.handles[h]);
      }
    }
  }

  lemma HolderTorn(hist: seq<Txn>, cuts: map<nat, nat>, d: Disk, id: nat, torn: nat, hd: Handle)
    requires FilesOk(hist, cuts, d, id) && HandleOk(hist, cuts, d, id, hd) && hd.phase.Appending?
    ensures FilesOk(hist, cuts, d.(log := d.log.(torn := torn)), id)
    ensures HandleOk(hist, cuts, d.(log := d.log.(torn := torn)), id, hd)
  {
    var d' := d.(log := d.log.(torn := torn));
    TailConsumed(hist, cuts, d', id);
    FoldedCount(hist, cuts, d.base);
  }

  lemma AppendedHandleOk(hist: seq<Txn>, cuts: map<nat, nat>, d: Disk, id: nat, hd: Handle)
    requires FilesOk(hist, cuts, d, id) && HandleOk(hist, cuts, d, id, hd) && hd.phase.Appending?
    ensures AppendTo(d, hist, hd.phase.txn).log.recs == d.log.recs + [Pending(hd)]
    ensures FilesOk(hist + [hd.phase.txn], cuts, AppendTo(d, hist, hd.phase.txn), id)
    ensures HandleOk(hist + [hd.phase.txn], cuts, AppendTo(d, hist, hd.phase.txn), id,
                     hd.(phase := Appended(hd.phase.txn)))
  {
    hide ServedOk, SeenOk, Recs, AllOps;
    var txn := hd.phase.txn;
    KeepAppend(hist, cuts, d, id, txn, hd.(phase := Idle));
    var d', hist' := AppendTo(d, hist, txn), hist + [txn];
    assert d'.log.recs[..|d'.log.recs| - 1] == d.log.recs;
    assert hist'[..|hist'| - 1] == hist;
  }

  lemma LandAllKeepsInv(s: State, h: nat)
    requires Inv(s) && Enabled(s, LandAll(h))
    ensures Inv(Apply(s, LandAll(h)))
  {
    var s', hd := Apply(s, LandAll(h)), s.handles[h];
    AppendedHandleOk(s.hist, s.cuts, s.disk, s.nextId, hd);
    assert s'.disk == AppendTo(s.disk, s.hist, hd.phase.txn);
    forall k | k in s'.handles
      ensures HandleOk(s'.hist, s'.cuts, s'.disk, s'.nextId, s'.handles[k])
    {
      if k != h { KeepAppend(s.hist, s.cuts, s.disk, s.nextId, hd.phase.txn, s.handles[k]); }
    }
  }

  /** Publishing the appended record shows exactly the transaction just committed. */
  lemma PublishHandleOk(hist: seq<Txn>, cuts: map<nat, nat>, d: Disk, id: nat, hd: Handle)
    requires FilesOk(hist, cuts, d, id) && HandleOk(hist, cuts, d, id, hd) && hd.phase.Appended?
    ensures HandleOk(hist, cuts, d, id, PublishStep(hd))
    ensures PublishStep(hd).phase.Ready?
  {
    hide ServedOk, SeenOk, Recs, AllOps, Entries, Above, Bytes;
    var r, v, n := Pending(hd), hd.served.value, |hist| - 1;
    var recs := d.log.recs;
    assert recs == recs[..|recs| - 1] + [r];
    BytesSplit(recs[..|recs| - 1], [r]);
    OneRecord(r);
    var hd' := PublishStep(hd);
    assert hist == hist[..n] + [hd.phase.txn];
    AllOpsSnoc(hist[..n], hd.phase.txn);
    PublishRecord(hist, cuts, v, n, r);
    ReadyHandleOk(hist, cuts, d, id, hd');
  }

  lemma PublishRecord(hist: seq<Txn>, cuts: map<nat, nat>, v: Served, n: nat, r: Record)
    requires n + 1 == |hist| && NoEmpty(hist) && ServedOk(hist, cuts, v)
    requires LastSeq(v) == Count(hist[..n]) && r == Record(LastSeq(v) + 1, hist[n])
    ensures var v' := v.(overlay := v.overlay + Above(Entries([r]), r.first - 1));
            ServedOk(hist, cuts, v') && LastSeq(v') == Count(hist)
  {
    assert Recs(hist, n) == [r];
    PublishCatchesUp(hist, cuts, v, n);
  }

  lemma PublishKeepsInv(s: State, h: nat)
    requires Inv(s) && Enabled(s, Publish(h))
    ensures Inv(Apply(s, Publish(h)))
  {
    PublishHandleOk(s.hist, s.cuts, s.disk, s.nextId, s.handles[h]);
    PutKeepsInv(s, h, PublishStep(s.handles[h]));
  }

  // ---- a failed append -----------------------------------------------------------------

  lemma ForgetOk(hist: seq<Txn>, cuts: map<nat, nat>, d: Disk, id: nat, hd: Handle)
    requires FilesOk(hist, cuts, d, id) && HandleOk(hist, cuts, d, id, hd) && hd.served.Some?
    ensures HandleOk(hist, cuts, d, id, hd.(seen := hd.seen.(stamp := None), phase := Done))
  {
  }

  /** The bytes of a failed append that never became a whole record, cut off or not. */
  lemma FailTornKeepsInv(s: State, h: nat, cut: bool)
    requires Inv(s) && Enabled(s, FailAppend(h, cut)) && (s.handles[h].phase.Appending? || !cut)
    ensures Inv(Apply(s, FailAppend(h, cut)))
  {
    hide ServedOk, SeenOk, Recs, AllOps, Bytes;
    var s', hd := Apply(s, FailAppend(h, cut)), s.handles[h];
    ForgetOk(s.hist, s.cuts, s.disk, s.nextId, hd);
    if cut {
      CutTorn(s.disk.log);
      FilesTorn(s.hist, s.cuts, s.disk, s.nextId, 0);
      assert s'.disk == s.disk.(log := s.disk.log.(torn := 0));
      HolderTorn(s.hist, s.cuts, s.disk, s.nextId, 0, hd);
      ForgetOk(s.hist, s.cuts, s'.disk, s.nextId, hd);
      forall k | k in s'.handles
        ensures HandleOk(s'.hist, s'.cuts, s'.disk, s'.nextId, s'.handles[k])
      {
        if k != h { KeepTorn(s.hist, s.cuts, s.disk, s.nextId, 0, s.handles[k]); }
      }
    }
  }

  /** No handle serves the last transaction of the history. */
  ghost predicate Unobserved(s: State) {
    forall h :: h in s.handles && s.handles[h].served.Some? ==>
      LastSeq(s.handles[h].served.value) < Count(s.hist)
  }

  lemma WithdrawnFiles(hist: seq<Txn>, cuts: map<nat, nat>, d: Disk, id: nat, hd: Handle)
    requires FilesOk(hist, cuts, d, id) && HandleOk(hist, cuts, d, id, hd) && hd.phase.Appended?
    ensures LogIsCurrent(d) && d.log.recs != [] && hist != []
    ensures Truncate(d.log, hd.seen.walPos) == WithoutLast(d).log
    ensures LastSeq(hd.served.value) < Count(hist)
  {
    hide ServedOk, SeenOk, Recs;
    var recs := d.log.recs;
    FromBoundary(recs, |recs| - 1);
    assert hist[..|hist|] == hist;
    CountMonotone(hist, |hist| - 1, |hist|);
  }

  /** A whole record cut back before anyone read it: as if never written. */
  lemma WithdrawKeepsInv(s: State, h: nat)
    requires Inv(s) && Enabled(s, FailAppend(h, true)) && s.handles[h].phase.Appended? && Unobserved(s)
    ensures Inv(Apply(s, FailAppend(h, true)))
  {
    hide FilesOk, ServedOk, SeenOk, CaughtUp, Truncate;
    var s', hd := Apply(s, FailAppend(h, true)), s.handles[h];
    WithdrawnFiles(s.hist, s.cuts, s.disk, s.nextId, hd);
    FilesWithdraw(s.hist, s.cuts, s.disk, s.nextId);
    assert s'.disk == WithoutLast(s.disk) && s'.hist == s.hist[..|s.hist| - 1];
    KeepWithdraw(s.hist, s.cuts, s.disk, s.nextId, hd.(seen := hd.seen.(stamp := None), phase := Idle));
    forall k | k in s'.handles
      ensures HandleOk(s'.hist, s'.cuts, s'.disk, s'.nextId, s'.handles[k])
    {
      if k != h { KeepWithdraw(s.hist, s.cuts, s.disk, s.nextId, s.handles[k]); }
    }
  }

  // ---- compaction ----------------------------------------------------------------------

  /** What the first rename puts on disk renders the whole history, under the next
      generation number. */
  lemma CompactionRenders(hist: seq<Txn>, cuts: map<nat, nat>, d: Disk, id: nat, hd: Handle)
    requires FilesOk(hist, cuts, d, id) && HandleOk(hist, cuts, d, id, hd) && hd.phase.Ready?
    ensures var v := hd.served.value;
            && Max(v.base.gen, hd.diskGen) + 1 == d.base.gen + 1
            && Renders(hist, cuts, d, Base(d.base.gen + 1, hd.nextSeq - 1, ViewOps(v)))
  {
    hide SeenOk, Recs;
    ViewIsPrefix(hist, cuts, hd.served.value);
    assert AllOps(hist)[..|AllOps(hist)|] == AllOps(hist);
  }

  /** A served view is the effect of a prefix of the history. */
  lemma ViewIsPrefix(hist: seq<Txn>, cuts: map<nat, nat>, v: Served)
    requires ServedOk(hist, cuts, v)
    ensures ViewOps(v) == AllOps(hist)[..LastSeq(v)]
  {
    var ops := AllOps(hist);
    FoldedCount(hist, cuts, v.base);
    AllOpsPrefix(hist, cuts[v.base.gen]);
    OpsOfRange(ops, v.base.applied, LastSeq(v));
  }

  lemma SwapBaseKeepsInv(s: State, h: nat)
    requires Inv(s) && Enabled(s, SwapBase(h))
    ensures Inv(Apply(s, SwapBase(h)))
  {
    hide ServedOk, SeenOk, Recs, AllOps, BaseOk, ViewOps;
    var s', hd := Apply(s, SwapBase(h)), s.handles[h];
    CompactionRenders(s.hist, s.cuts, s.disk, s.nextId, hd);
    var b := Base(s.disk.base.gen + 1, hd.nextSeq - 1, ViewOps(hd.served.value));
    FilesSwapBase(s.hist, s.cuts, s.disk, s.nextId, b);
    KeepSwapBase(s.hist, s.cuts, s.disk, s.nextId, b, hd.(phase := Idle));
    forall k | k in s'.handles
      ensures HandleOk(s'.hist, s'.cuts, s'.disk, s'.nextId, s'.handles[k])
    {
      if k != h { KeepSwapBase(s.hist, s.cuts, s.disk, s.nextId, b, s.handles[k]); }
    }
  }

  lemma SwapLogKeepsInv(s: State, h: nat)
    requires Inv(s) && Enabled(s, SwapLog(h))
    ensures Inv(Apply(s, SwapLog(h)))
  {
    hide ServedOk, SeenOk, Recs, AllOps, BaseOk;
    var s', hd := Apply(s, SwapLog(h)), s.handles[h];
    FilesNewLog(s.hist, s.cuts, s.disk, s.nextId);
    KeepNewLog(s.hist, s.cuts, s.disk, s.nextId, hd.(phase := Idle, seen := NOTHING_SEEN));
    forall k | k in s'.handles
      ensures HandleOk(s'.hist, s'.cuts, s'.disk, s'.nextId, s'.handles[k])
    {
      if k != h { KeepNewLog(s.hist, s.cuts, s.disk, s.nextId, s.handles[k]); }
    }
  }

  lemma SwapLogFailsKeepsInv(s: State, h: nat)
    requires Inv(s) && Enabled(s, SwapLogFails(h))
    ensures Inv(Apply(s, SwapLogFails(h)))
  {
    hide ServedOk, SeenOk, Recs, AllOps, BaseOk;
    PutKeepsInv(s, h, s.handles[h].(phase := Done));
  }

  lemma InstallKeepsInv(s: State, h: nat, free: bool)
    requires Inv(s) && Enabled(s, Install(h, free))
    ensures Inv(Apply(s, Install(h, free)))
  {
    hide Recs, AllOps;
    var hd := s.handles[h];
    EmptyOverlayOk(s.hist, s.cuts, s.disk.base);
    FoldedCount(s.hist, s.cuts, s.disk.base);
    TailConsumed(s.hist, s.cuts, s.disk, s.nextId);
    assert Bytes([]) == 0;
    PutKeepsInv(s, h, InstallStep(hd, s.disk, free));
  }
}
