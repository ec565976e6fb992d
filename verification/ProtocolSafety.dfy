/** Safety of whole runs: what a fresh load finds, what every handle serves, what an
    acknowledged transaction is promised, and exactly where the protocol gives it up. */
module ProtocolSafety {
  import opened Ops
  import opened History
  import opened Protocol
  import opened ProtocolInvariant
  import opened ProtocolSteps
  import opened ProtocolCommit

  /** The two circumstances the protocol does not survive, ruled out for one step. */
  ghost predicate Safe(s: State, e: Event)
    requires Enabled(s, e)
  {
    && (e.Sync? ==> !Aliased(s.handles[e.h], s.disk))
    && (e.FailAppend? && e.cut && s.handles[e.h].phase.Appended? ==> Unobserved(s))
  }

  lemma StepKeepsInv(s: State, e: Event)
    requires Inv(s) && Enabled(s, e) && Safe(s, e)
    ensures Inv(Apply(s, e))
  {
    hide Inv, Apply, Unobserved, Aliased;
    match e
    case Open(h) => OpenKeepsInv(s, h);
    case Stat(h) => StatKeepsInv(s, h);
    case ReadBase(h) => ReadBaseKeepsInv(s, h);
    case ReadLog(h, free) => ReadLogKeepsInv(s, h, free);
    case Acquire(h) => AcquireKeepsInv(s, h);
    case Sync(h, free) => SyncKeepsInv(s, h, free);
    case BeginAppend(h, txn) => BeginKeepsInv(s, h, txn);
    case Land(h, k) => LandKeepsInv(s, h, k);
    case LandAll(h) => LandAllKeepsInv(s, h);
    case Publish(h) => PublishKeepsInv(s, h);
    case FailAppend(h, cut) =>
      if cut && s.handles[h].phase.Appended? {
        WithdrawKeepsInv(s, h);
      } else {
        FailTornKeepsInv(s, h, cut);
      }
    case SwapBase(h) => SwapBaseKeepsInv(s, h);
    case SwapLog(h) => SwapLogKeepsInv(s, h);
    case SwapLogFails(h) => SwapLogFailsKeepsInv(s, h);
    case Install(h, free) => InstallKeepsInv(s, h, free);
    case Release(h) => ReleaseKeepsInv(s, h);
    case Crash(h) => CrashKeepsInv(s, h);
  }

  /** A run none of whose steps meets either circumstance. */
  ghost predicate SafeRun(s: State, es: seq<Event>)
    decreases |es|
  {
    es == [] ||
    var before := Run(s, es[..|es| - 1]);
    && SafeRun(s, es[..|es| - 1])
    && before.Some? && Enabled(before.value, es[|es| - 1])
    && Safe(before.value, es[|es| - 1])
  }

  lemma {:induction false} SafeRunKeepsInv(s: State, es: seq<Event>)
    requires Inv(s) && SafeRun(s, es)
    ensures Run(s, es).Some? && Inv(Run(s, es).value)
    decreases |es|
  {
    hide Inv, Apply, Safe, Enabled;
    if es != [] {
      var most := es[..|es| - 1];
      SafeRunKeepsInv(s, most);
      StepKeepsInv(Run(s, most).value, es[|es| - 1]);
    }
  }

  lemma InitiallyInv()
    ensures Inv(INITIAL)
  {
    assert AllOps([]) == [];
  }

  // ---- what the files hold, and what handles serve -------------------------------------

  /** A fresh load of the files shows exactly the history. */
  predicate Durable(s: State) {
    var o := Build(s.disk.base, s.disk.log);
    o.Applied? && ViewOps(o.served) == AllOps(s.hist)
  }

  ghost predicate ServesPrefix(hist: seq<Txn>, v: Served) {
    exists j :: 0 <= j <= |hist| && ViewOps(v) == AllOps(hist[..j])
  }

  ghost predicate AllServePrefixes(s: State) {
    forall h :: h in s.handles && s.handles[h].served.Some? ==>
      ServesPrefix(s.hist, s.handles[h].served.value)
  }

  lemma FilesAreDurable(hist: seq<Txn>, cuts: map<nat, nat>, d: Disk, id: nat)
    requires FilesOk(hist, cuts, d, id)
    ensures Build(d.base, d.log).Applied? && ViewOps(Build(d.base, d.log).served) == AllOps(hist)
  {
    BuildIsComplete(hist, cuts, d, id, d.base);
    ViewIsPrefix(hist, cuts, Build(d.base, d.log).served);
  }

  lemma ServedIsPrefix(hist: seq<Txn>, cuts: map<nat, nat>, v: Served)
    requires ServedOk(hist, cuts, v)
    ensures ServesPrefix(hist, v)
  {
    ViewIsPrefix(hist, cuts, v);
    var j :| 0 <= j <= |hist| && Count(hist[..j]) == LastSeq(v);
    AllOpsPrefix(hist, j);
    assert ViewOps(v) == AllOps(hist[..j]);
  }

  /** After every safe run from a fresh store: a fresh load yields the whole committed
      history; every handle serves whole transactions, a prefix of it; the log's
      sequence numbers rise; and a log newer than its base does not exist. */
  lemma RunsAreSafe(es: seq<Event>)
    requires SafeRun(INITIAL, es)
    ensures var s := Run(INITIAL, es).value;
            && Durable(s) && AllServePrefixes(s)
            && Rising(LogRecs(s.disk.log))
            && LogGen(s.disk.log) <= s.disk.base.gen
  {
    InitiallyInv();
    SafeRunKeepsInv(INITIAL, es);
    var s := Run(INITIAL, es).value;
    InvIsSafe(s);
  }

  lemma InvIsSafe(s: State)
    requires Inv(s)
    ensures Durable(s) && AllServePrefixes(s)
    ensures Rising(LogRecs(s.disk.log)) && LogGen(s.disk.log) <= s.disk.base.gen
  {
    hide ServedOk, SeenOk, PhaseOk, ServesPrefix, ViewOps, Recs, AllOps;
    FilesAreDurable(s.hist, s.cuts, s.disk, s.nextId);
    forall h | h in s.handles && s.handles[h].served.Some?
      ensures ServesPrefix(s.hist, s.handles[h].served.value)
    {
      assert HandleOk(s.hist, s.cuts, s.disk, s.nextId, s.handles[h]);
      ServedIsPrefix(s.hist, s.cuts, s.handles[h].served.value);
    }
    if s.disk.log.Log? {
      RecsRising(s.hist, s.cuts[s.disk.log.gen]);
    }
  }

  // ---- acknowledged transactions -----------------------------------------------------

  /** The history without the transaction a lock holder has written but not yet
      acknowledged or given up. */
  function Settled(s: State): seq<Txn> {
    if
      && s.lock.Some? && s.lock.value in s.handles && s.handles[s.lock.value].phase.Appended?
      && s.hist != []
    then s.hist[..|s.hist| - 1] else s.hist
  }

  /** No step takes anything out of the settled history. */
  lemma StepKeepsSettled(s: State, e: Event)
    requires Inv(s) && Enabled(s, e) && Safe(s, e)
    ensures Settled(s) <= Settled(Apply(s, e)) <= Apply(s, e).hist
  {
    if e.FailAppend? {
      FailKeepsSettled(s, e.h, e.cut);
    } else if e.Sync? || e.Stat? || e.ReadLog? {
      CatchUpKeepsSettled(s, e);
    } else if e.BeginAppend? || e.Land? || e.LandAll? || e.Publish? {
      AppendKeepsSettled(s, e);
    } else {
      OtherStepsKeepSettled(s, e);
    }
  }

  lemma AppendKeepsSettled(s: State, e: Event)
    requires Inv(s) && Enabled(s, e) && (e.BeginAppend? || e.Land? || e.LandAll? || e.Publish?)
    ensures Settled(s) <= Settled(Apply(s, e)) <= Apply(s, e).hist
  {
    hide HandleOk, FilesOk, PublishStep;
    if e.Publish? { PublishedIsReady(s.handles[e.h]); }
  }

  lemma PublishedIsReady(hd: Handle)
    requires hd.phase.Appended? && hd.served.Some?
    ensures PublishStep(hd).phase.Ready?
  {
  }

  lemma OtherStepsKeepSettled(s: State, e: Event)
    requires Inv(s) && Enabled(s, e)
    requires !e.FailAppend? && !e.Sync? && !e.Stat? && !e.ReadLog? && !e.BeginAppend? && !e.Land? && !e.LandAll? && !e.Publish?
    ensures Settled(s) <= Settled(Apply(s, e)) <= Apply(s, e).hist
  {
    hide HandleOk, FilesOk, ViewOps, StampOf;
  }

  lemma FailKeepsSettled(s: State, h: nat, cut: bool)
    requires Inv(s) && Enabled(s, FailAppend(h, cut))
    ensures Settled(s) <= Settled(Apply(s, FailAppend(h, cut))) <= Apply(s, FailAppend(h, cut)).hist
  {
    hide ServedOk, SeenOk, FilesOk, Recs, AllOps, Truncate;
    if cut && s.handles[h].phase.Appended? {
      assert HandleOk(s.hist, s.cuts, s.disk, s.nextId, s.handles[h]);
      WithdrawnFiles(s.hist, s.cuts, s.disk, s.nextId, s.handles[h]);
    }
  }

  lemma CatchUpKeepsSettled(s: State, e: Event)
    requires Inv(s) && Enabled(s, e) && Safe(s, e) && (e.Sync? || e.Stat? || e.ReadLog?)
    ensures Settled(s) <= Settled(Apply(s, e)) <= Apply(s, e).hist
  {
    hide HandleOk, FilesOk, Compare, InstallOrApply, Repair, Safe;
    StepKeepsInv(s, e);
  }

  lemma {:induction false} RunKeepsSettled(s: State, es: seq<Event>)
    requires Inv(s) && SafeRun(s, es)
    ensures Run(s, es).Some? && Settled(s) <= Settled(Run(s, es).value) <= Run(s, es).value.hist
    decreases |es|
  {
    hide Inv, Apply, Safe, Enabled, Settled;
    if es == [] {
      SettledInHist(s);
    } else {
      var most := es[..|es| - 1];
      SafeRunKeepsInv(s, most);
      RunKeepsSettled(s, most);
      StepKeepsSettled(Run(s, most).value, es[|es| - 1]);
    }
  }

  lemma SettledInHist(s: State)
    ensures Settled(s) <= s.hist
  {
  }

  /** Once acknowledged, a transaction is in the settled history for good: after any safe
      continuation, crashes and compactions included, a fresh load shows the effect of
      everything settled before and of `txn` itself, each whole and in order. */
  lemma AcknowledgedIsDurable(s: State, h: nat, es: seq<Event>)
    requires Inv(s) && Enabled(s, Publish(h))
    requires SafeRun(Apply(s, Publish(h)), es)
    ensures var end := Run(Apply(s, Publish(h)), es).value;
            && Durable(end)
            && Settled(s) + [s.handles[h].phase.txn] <= end.hist
  {
    hide ServedOk, SeenOk, FilesOk, Recs, AllOps, SafeRun, Run, Durable, PublishStep;
    var s' := Apply(s, Publish(h));
    PublishKeepsInv(s, h);
    PublishHandleOk(s.hist, s.cuts, s.disk, s.nextId, s.handles[h]);
    assert HandleOk(s.hist, s.cuts, s.disk, s.nextId, s.handles[h]);
    assert Settled(s) + [s.handles[h].phase.txn] == s.hist == Settled(s');
    RunKeepsSettled(s', es);
    SafeRunKeepsInv(s', es);
    InvIsSafe(Run(s', es).value);
  }

  /** A failed append whose whole record landed and was not cut back has committed its
      transaction for good: staged and committed again, it is there twice. */
  lemma FailedAppendStaysCommitted(s: State, h: nat, s': State, es: seq<Event>, t: State)
    requires Inv(s) && Enabled(s, FailAppend(h, false)) && s.handles[h].phase.Appended?
    requires s' == Apply(s, FailAppend(h, false)) && SafeRun(s', es) && Run(s', es) == Some(t)
    ensures s.hist != [] && s.hist[|s.hist| - 1] == s.handles[h].phase.txn
    ensures s.hist <= t.hist && Durable(t)
  {
    hide ServedOk, SeenOk, FilesOk, Recs, AllOps, SafeRun, Run, Durable;
    assert HandleOk(s.hist, s.cuts, s.disk, s.nextId, s.handles[h]);
    FailTornKeepsInv(s, h, false);
    assert Settled(s') == s.hist;
    RunKeepsSettled(s', es);
    SafeRunKeepsInv(s', es);
    InvIsSafe(Run(s', es).value);
  }

  // ---- transactions, sequence numbers and generations ----------------------------------

  /** A transaction commits on exactly the history it read: from its catch-up to the
      moment its record lands, the holder's view is the whole history, and the record
      takes the next sequence numbers. */
  lemma CommitsAreSerial(s: State, h: nat)
    requires Inv(s) && Enabled(s, LandAll(h))
    ensures ViewOps(s.handles[h].served.value) == AllOps(s.hist)
    ensures Pending(s.handles[h]).first == Count(s.hist) + 1
    ensures Apply(s, LandAll(h)).hist == s.hist + [s.handles[h].phase.txn]
  {
    hide SeenOk, Recs;
    var hd := s.handles[h];
    assert HandleOk(s.hist, s.cuts, s.disk, s.nextId, hd);
    ViewIsPrefix(s.hist, s.cuts, hd.served.value);
    assert AllOps(s.hist)[..Count(s.hist)] == AllOps(s.hist);
  }

  /** Every sequence number in a log is above what its own base folded, and a log left
      over from an older base holds nothing its successor did not fold. */
  lemma LogNumbersAboveBase(s: State, i: nat)
    requires Inv(s) && s.disk.log.Log? && i < |s.disk.log.recs|
    ensures var r := s.disk.log.recs[i];
            && (s.disk.log.gen == s.disk.base.gen ==> s.disk.base.applied < r.first)
            && (s.disk.log.gen < s.disk.base.gen ==> LastOf(r) <= s.disk.base.applied)
  {
    hide SeenOk, PhaseOk, ServedOk, Recs;
    RecsRising(s.hist, s.cuts[s.disk.log.gen]);
    FoldedCount(s.hist, s.cuts, s.disk.base);
  }

  /** A compaction numbers its base above every base ever written, installed or not. */
  lemma GenerationsAreFresh(s: State, h: nat)
    requires Inv(s) && Enabled(s, SwapBase(h))
    ensures forall g :: g in s.cuts ==> g < Apply(s, SwapBase(h)).disk.base.gen
  {
    hide SeenOk, Recs, AllOps, ServedOk, ViewOps;
    CompactionRenders(s.hist, s.cuts, s.disk, s.nextId, s.handles[h]);
    forall g | g in s.cuts ensures g <= s.disk.base.gen {
      assert CutOk(s.hist, s.cuts, s.disk, g, s.cuts[g]);
    }
  }

  /** A load that takes no lock, whatever happened between its steps: it serves the whole
      history as of the moment it read the log, or re-reads because the log is newer
      than the base it read, or is refused because every ring slot is pinned and the new
      base holds ops this handle does not serve. Nothing else can happen. */
  lemma LockFreeLoad(s: State, h: nat, free: bool)
    requires Inv(s) && Enabled(s, ReadLog(h, free))
    ensures var hd := s.handles[h];
            var b := hd.phase.base.value;
            var hd' := Apply(s, ReadLog(h, free)).handles[h];
            if LogGen(s.disk.log) > b.gen then
              hd'.served == hd.served &&
              (hd'.phase.Idle? <==> hd.phase.tries <= 1)
            else if hd.served.Some? && hd.served.value.base.gen != b.gen && !free
                    && b.applied > LastSeq(hd.served.value) then hd'.served == hd.served && hd'.phase.Idle?
            else hd'.served.Some? && hd'.phase.Idle? && ViewOps(hd'.served.value) == AllOps(s.hist)
  {
    hide SeenOk, Recs;
    var hd := s.handles[h];
    assert HandleOk(s.hist, s.cuts, s.disk, s.nextId, hd);
    var b := hd.phase.base.value;
    LoadIsComplete(s.hist, s.cuts, s.disk, s.nextId, hd.served, b, free);
    var o := InstallOrApply(hd.served, b, s.disk.log, free);
    if o.Applied? {
      ViewIsPrefix(s.hist, s.cuts, o.served);
      assert AllOps(s.hist)[..Count(s.hist)] == AllOps(s.hist);
    }
  }
}
