/** Runs that reach what `ProtocolLimits` characterises: a transaction served and then taken
    back, and a transaction committed twice. */
module ProtocolRuns {
  import opened Ops
  import opened History
  import opened Protocol
  import opened ProtocolInvariant
  import opened ProtocolCommit
  import opened ProtocolSafety
  import opened ProtocolLimits

  /** One safe run after another. */
  lemma {:induction false} SafeJoins(s: State, a: seq<Event>, t: State, b: seq<Event>)
    requires SafeRun(s, a) && Run(s, a) == Some(t) && SafeRun(t, b)
    ensures SafeRun(s, a + b) && Run(s, a + b) == Run(t, b)
    decreases |b|
  {
    hide Apply, Enabled, Safe;
    if b == [] {
      assert a + b == a;
    } else {
      SafeJoins(s, a, t, b[..|b| - 1]);
      assert (a + b)[..|a + b| - 1] == a + b[..|b| - 1];
    }
  }

  // ---- up to an append ---------------------------------------------------------------------

  /** Three handles open; the first locks, catches up and starts to append. */
  const STARTS: seq<Event> := OPENS + [Acquire(1)] + [Sync(1, true)] + [BeginAppend(1, SHORT)]

  function Started(): State {
    Calm(map[1 := Opened(64, Appending(SHORT)), 2 := Opened(64, Idle), 3 := Opened(64, Idle)]).(lock := Some(1), nextId := 2)
  }

  lemma StartsSafely()
    ensures SafeRun(INITIAL, STARTS) && Run(INITIAL, STARTS) == Some(Started())
    ensures Inv(Started()) && Enabled(Started(), LandAll(1))
  {
    hide SafeRun, Run, Inv;
    ThreeOpen();
    LocksAfter(OPENS, Run(INITIAL, OPENS).value, 1, 0);
    var es := OPENS + [Acquire(1)] + [Sync(1, true)];
    var at := Run(INITIAL, es).value;
    Extend(INITIAL, es, at, BeginAppend(1, SHORT));
    assert Apply(at, BeginAppend(1, SHORT)).handles == Started().handles;
    SafeRunKeepsInv(INITIAL, STARTS) by { InitiallyInv(); }
  }

  // ---- served and taken back -----------------------------------------------------------------

  /** A look at a log one record longer reads the record. */
  lemma LookReadsTail(s: State)
    requires s == Apply(Started(), LandAll(1))
    ensures Enabled(s, Stat(2)) && Safe(s, Stat(2)) && ReadsLog(s, Stat(2))
  {
    Sizes();
    OneRecord(Record(1, SHORT));
    assert s.disk.log.recs == [Record(1, SHORT)];
  }

  /** Handle 1's record lands, handle 2 looks, the sync fails and handle 1 cuts the record back
      off: nothing is committed, and handle 2 serves a transaction that never was. */
  lemma PhantomIsReachable()
    ensures var es := STARTS + [LandAll(1)] + [Stat(2)];
            && SafeRun(INITIAL, es) && Run(INITIAL, es).Some?
            && var t := Run(INITIAL, es).value;
               && Enabled(t, FailAppend(1, true))
               && Apply(t, FailAppend(1, true)).hist == [] && !AllServePrefixes(Apply(t, FailAppend(1, true)))
  {
    hide SafeRun, Run, Inv, AllServePrefixes, Readers, ReadsLog, Compare;
    StartsSafely();
    var landed := Apply(Started(), LandAll(1));
    LookReadsTail(landed);
    Extend(INITIAL, STARTS, Started(), LandAll(1));
    Extend(INITIAL, STARTS + [LandAll(1)], landed, Stat(2));
    OneLook(landed);
    WithdrawIsCleanExactly(Started(), 1, [Stat(2)]);
    ReadersServe(Started(), 1, [Stat(2)], 2);
    var t := Apply(landed, Stat(2));
    TakenBack(t, 1);
  }

  lemma OneLook(s: State)
    requires Enabled(s, Stat(2)) && Safe(s, Stat(2)) && ReadsLog(s, Stat(2))
    ensures SafeRun(s, [Stat(2)]) && Run(s, [Stat(2)]) == Some(Apply(s, Stat(2)))
    ensures Readers(s, [Stat(2)]) == {2}
  {
    hide Apply, Enabled, Safe, ReadsLog;
    assert [Stat(2)][..0] == [];
    assert SafeRun(s, []) && Run(s, []) == Some(s) && Readers(s, []) == {};
  }

  lemma TakenBack(s: State, h: nat)
    requires Inv(s) && Enabled(s, FailAppend(h, true)) && s.handles[h].phase.Appended?
    ensures s.hist != [] && Apply(s, FailAppend(h, true)).hist == s.hist[..|s.hist| - 1]
  {
    hide SeenOk, ServedOk, Recs, Truncate, CaughtUp;
    assert HandleOk(s.hist, s.cuts, s.disk, s.nextId, s.handles[h]);
    WithdrawnFiles(s.hist, s.cuts, s.disk, s.nextId, s.handles[h]);
  }

  // ---- committed twice -------------------------------------------------------------------------

  /** A record lands whole, is given up without being cut back, and is committed again. */
  function Twice(h: nat, txn: Txn): seq<Event> {
    [LandAll(h)] + [FailAppend(h, false)] + [Release(h)] + [Acquire(h)] + [Sync(h, true)]
    + [BeginAppend(h, txn)] + [LandAll(h)] + [Publish(h)]
  }

  /** The part of the events that ends with the lock free again. */
  lemma GivenUp(s: State, h: nat)
    requires Inv(s) && Enabled(s, LandAll(h))
    ensures var es := [LandAll(h)] + [FailAppend(h, false)] + [Release(h)];
            && SafeRun(s, es) && Run(s, es).Some?
            && var t := Run(s, es).value;
               && Inv(t) && t.lock.None? && t.hist == s.hist + [s.handles[h].phase.txn]
               && h in t.handles && t.handles[h].phase.Idle? && t.handles[h].served.Some? && t.handles[h].seen.stamp.None?
  {
    hide SafeRun, Run, ServedOk, SeenOk, FilesOk, Recs, AllOps;
    assert HandleOk(s.hist, s.cuts, s.disk, s.nextId, s.handles[h]);
    assert SafeRun(s, []) && Run(s, []) == Some(s) by { NoSteps(s); }
    assert [] + [LandAll(h)] == [LandAll(h)];
    var s1 := Apply(s, LandAll(h));
    Extend(s, [], s, LandAll(h));
    var s2 := Apply(s1, FailAppend(h, false));
    Extend(s, [LandAll(h)], s1, FailAppend(h, false));
    Extend(s, [LandAll(h)] + [FailAppend(h, false)], s2, Release(h));
    hide Inv, HandleOk;
    SafeRunKeepsInv(s, [LandAll(h)] + [FailAppend(h, false)] + [Release(h)]);
  }

  lemma NoSteps(s: State)
    ensures SafeRun(s, []) && Run(s, []) == Some(s)
  {
  }

  /** A lock holder that remembers no stamp reads both files, and is ready whatever they hold. */
  lemma ForgetfulSyncReadies(s: State, h: nat)
    requires Inv(s) && Enabled(s, Sync(h, true)) && s.handles[h].seen.stamp.None? && s.handles[h].served.Some?
    ensures Safe(s, Sync(h, true))
    ensures var t := Apply(s, Sync(h, true)); t.hist == s.hist && h in t.handles && t.handles[h].phase.Ready?
  {
    hide ServedOk, SeenOk, Recs, AllOps, InstallOrApply, Repair;
    var hd := s.handles[h];
    assert HandleOk(s.hist, s.cuts, s.disk, s.nextId, hd);
    LoadIsComplete(s.hist, s.cuts, s.disk, s.nextId, hd.served, s.disk.base, true);
  }

  /** From a free lock to an append under way. */
  lemma StartsAgain(s: State, h: nat, txn: Txn)
    requires Inv(s) && s.lock.None? && txn != []
    requires h in s.handles && s.handles[h].phase.Idle? && s.handles[h].served.Some? && s.handles[h].seen.stamp.None?
    ensures var es := [Acquire(h)] + [Sync(h, true)] + [BeginAppend(h, txn)];
            && SafeRun(s, es) && Run(s, es).Some?
            && var t := Run(s, es).value;
               Inv(t) && t.hist == s.hist && Enabled(t, LandAll(h)) && t.handles[h].phase == Appending(txn)
  {
    hide SafeRun, Run, SyncStep, Inv;
    NoSteps(s);
    assert [] + [Acquire(h)] == [Acquire(h)];
    var s1 := Apply(s, Acquire(h));
    Extend(s, [], s, Acquire(h));
    StepKeepsInv(s, Acquire(h));
    ForgetfulSyncReadies(s1, h);
    var s2 := Apply(s1, Sync(h, true));
    Extend(s, [Acquire(h)], s1, Sync(h, true));
    Extend(s, [Acquire(h)] + [Sync(h, true)], s2, BeginAppend(h, txn));
    StepKeepsInv(s1, Sync(h, true));
    StepKeepsInv(s2, BeginAppend(h, txn));
    var s3 := Apply(s2, BeginAppend(h, txn));
    AppendingHasLog(s3, h);
  }

  lemma AppendingHasLog(s: State, h: nat)
    requires Inv(s) && h in s.handles && s.handles[h].phase.Appending?
    ensures s.disk.log.Log? && s.handles[h].served.Some? && s.handles[h].phase.txn != []
  {
    hide ServedOk, SeenOk, FilesOk;
    assert HandleOk(s.hist, s.cuts, s.disk, s.nextId, s.handles[h]);
  }

  /** Landing and publishing. */
  lemma Commits(s: State, h: nat)
    requires Inv(s) && Enabled(s, LandAll(h))
    ensures var es := [LandAll(h)] + [Publish(h)];
            SafeRun(s, es) && Run(s, es).Some? && Run(s, es).value.hist == s.hist + [s.handles[h].phase.txn]
  {
    hide SafeRun, Run, PublishStep, Inv;
    NoSteps(s);
    AppendingHasLog(s, h);
    assert [] + [LandAll(h)] == [LandAll(h)];
    var s1 := Apply(s, LandAll(h));
    Extend(s, [], s, LandAll(h));
    Extend(s, [LandAll(h)], s1, Publish(h));
  }

  /** Wherever an append is under way, it can land whole, fail without being cut back and be
      committed again: then the history holds its transaction twice. */
  lemma CanCommitTwice(s: State, h: nat)
    requires Inv(s) && Enabled(s, LandAll(h))
    ensures var txn := s.handles[h].phase.txn;
            && SafeRun(s, Twice(h, txn)) && Run(s, Twice(h, txn)).Some?
            && Run(s, Twice(h, txn)).value.hist == s.hist + [txn, txn]
  {
    hide SafeRun, Run, Inv, Enabled;
    LandsAppending(s, h);
    var txn := s.handles[h].phase.txn;
    var a, b, c := [LandAll(h)] + [FailAppend(h, false)] + [Release(h)],
                   [Acquire(h)] + [Sync(h, true)] + [BeginAppend(h, txn)], [LandAll(h)] + [Publish(h)];
    AppendingHasLog(s, h);
    GivenUp(s, h);
    var t := Run(s, a).value;
    StartsAgain(t, h, txn);
    var u := Run(t, b).value;
    Commits(u, h);
    SafeJoins(s, a, t, b);
    SafeJoins(s, a + b, u, c);
    assert a + b + c == Twice(h, txn);
    assert s.hist + [txn] + [txn] == s.hist + [txn, txn];
  }

  lemma LandsAppending(s: State, h: nat)
    requires Enabled(s, LandAll(h))
    ensures h in s.handles && s.handles[h].phase.Appending?
  {
  }

  /** So does a run from a fresh store. */
  lemma TwiceIsReachable()
    ensures var es := STARTS + Twice(1, SHORT);
            SafeRun(INITIAL, es) && Run(INITIAL, es).Some? && Run(INITIAL, es).value.hist == [SHORT, SHORT]
  {
    hide SafeRun, Run, Inv, Twice, Apply;
    StartsSafely();
    CanCommitTwice(Started(), 1);
    SafeJoins(INITIAL, STARTS, Started(), Twice(1, SHORT));
  }
}
