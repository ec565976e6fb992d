/** Where the protocol stops being safe, exactly, with a run that gets there, and a
    discipline under which it never does. */
module ProtocolLimits {
  import opened Ops
  import opened History
  import opened Protocol
  import opened ProtocolInvariant
  import opened ProtocolSteps
  import opened ProtocolCommit
  import opened ProtocolSafety

  // ---- an alias makes the next committer cut committed records ---------------------------

  /** A prefix of the records is a prefix of the history. */
  lemma RecsOfPrefix(hist: seq<Txn>, lo: nat, c: nat)
    requires lo + c <= |hist|
    ensures Recs(hist[..lo + c], lo) == Recs(hist, lo)[..c]
  {
    forall i | 0 <= i < c ensures Recs(hist[..lo + c], lo)[i] == Recs(hist, lo)[i] {
      assert hist[..lo + c][..lo + i] == hist[..lo + i];
    }
  }

  /** What an aliased lock holder does: it trusts its stamp, takes the records it has not
      read for a torn tail, and cuts the log at the last record it knows. */
  lemma AliasedRepairCuts(hist: seq<Txn>, cuts: map<nat, nat>, d: Disk, id: nat, hd: Handle, free: bool) returns (c: nat)
    requires FilesOk(hist, cuts, d, id) && HandleOk(hist, cuts, d, id, hd) && Aliased(hd, d)
    ensures c < |d.log.recs|
    ensures CatchUpLocked(hd, d, free) == Some(hd) && hd.served.Some?
    ensures Repair(hd, d, id).1.base == d.base
    ensures Repair(hd, d, id).1.log == d.log.(recs := d.log.recs[..c], torn := 0)
  {
    hide ServedOk, PhaseOk, Recs, AllOps;
    c :| Consumed(hist, cuts, d, hd.seen.walPos, Shown(hd), c);
    assert d.log.recs[..|d.log.recs|] == d.log.recs;
    FromBoundary(d.log.recs, c);
    BytesPrefix(d.log.recs, c);
  }

  lemma CutFilesLoseRecords(hist: seq<Txn>, cuts: map<nat, nat>, d: Disk, id: nat, c: nat)
    requires FilesOk(hist, cuts, d, id) && LogIsCurrent(d) && c < |d.log.recs|
    ensures var d' := d.(log := d.log.(recs := d.log.recs[..c], torn := 0));
            var o := Build(d'.base, d'.log);
            o.Applied? && |ViewOps(o.served)| < Count(hist)
  {
    var lo := cuts[d.log.gen];
    var short := hist[..lo + c];
    var d' := d.(log := d.log.(recs := d.log.recs[..c], torn := 0));
    RecsOfPrefix(hist, lo, c);
    assert short[..lo] == hist[..lo];
    var only := map[d.log.gen := lo];
    assert FilesOk(short, only, d', id);
    FilesAreDurable(short, only, d', id);
    assert hist[..|hist|] == hist;
    CountMonotone(hist, lo + c, |hist|);
  }

  /** A lock holder's catch-up keeps every committed transaction on disk if and only if
      its stamp is not an alias. */
  lemma SyncIsDurableExactly(s: State, h: nat, free: bool)
    requires Inv(s) && Enabled(s, Sync(h, free))
    ensures Durable(Apply(s, Sync(h, free))) <==> !Aliased(s.handles[h], s.disk)
  {
    hide ServedOk, SeenOk, PhaseOk, Recs, AllOps, ViewOps, FilesOk, Repair, CatchUpLocked, Build;
    if !Aliased(s.handles[h], s.disk) {
      SyncKeepsInv(s, h, free);
      InvIsSafe(Apply(s, Sync(h, free)));
    } else {
      var c := AliasedRepairCuts(s.hist, s.cuts, s.disk, s.nextId, s.handles[h], free);
      CutFilesLoseRecords(s.hist, s.cuts, s.disk, s.nextId, c);
    }
  }

  /** Cutting back a whole record leaves every handle on a prefix of what is committed just
      when nobody serves the record. */
  lemma WithdrawIsCleanUnread(s: State, h: nat)
    requires Inv(s) && Enabled(s, FailAppend(h, true)) && s.handles[h].phase.Appended?
    ensures AllServePrefixes(Apply(s, FailAppend(h, true))) <==> Unobserved(s)
  {
    hide ServedOk, SeenOk, Recs, AllOps, ViewOps, ServesPrefix, Truncate;
    var s' := Apply(s, FailAppend(h, true));
    if Unobserved(s) {
      WithdrawKeepsInv(s, h);
      InvIsSafe(s');
    } else {
      var k :| k in s.handles && s.handles[k].served.Some? && LastSeq(s.handles[k].served.value) >= Count(s.hist);
      assert HandleOk(s.hist, s.cuts, s.disk, s.nextId, s.handles[k]);
      WithdrawnFiles(s.hist, s.cuts, s.disk, s.nextId, s.handles[h]);
      assert s'.hist == s.hist[..|s.hist| - 1];
      PhantomIsNoPrefix(s.hist, s.cuts, s.handles[k].served.value);
      assert k != h;
      assert s'.handles[k] == s.handles[k];
    }
  }

  lemma PhantomIsNoPrefix(hist: seq<Txn>, cuts: map<nat, nat>, v: Served)
    requires hist != [] && NoEmpty(hist) && ServedOk(hist, cuts, v) && LastSeq(v) >= Count(hist)
    ensures !ServesPrefix(hist[..|hist| - 1], v)
  {
    ViewIsPrefix(hist, cuts, v);
    var g := hist[..|hist| - 1];
    assert hist[..|hist|] == hist;
    CountMonotone(hist, |g|, |hist|);
    forall j | 0 <= j <= |g| ensures ViewOps(v) != AllOps(g[..j]) {
      CountMonotone(g, j, |g|);
    }
  }

  // ---- who has read a record not yet acknowledged ------------------------------------------

  /** The step takes what the log holds into a handle that does not hold the lock: a tail
      was read, or a load was served. */
  predicate ReadsLog(s: State, e: Event)
    requires Enabled(s, e) && !e.Open?
  {
    var hd := s.handles[e.h];
    || (e.Stat? && Compare(hd, s.disk).Tail?)
    || (e.ReadLog? && InstallOrApply(hd.served, hd.phase.base.value, s.disk.log, e.free).Applied?)
  }

  /** The handles still open that have read the log in a run. */
  function Readers(s: State, es: seq<Event>): (r: set<nat>)
    requires Run(s, es).Some?
    decreases |es|
  {
    if es == [] then {}
    else
      var before, e := es[..|es| - 1], es[|es| - 1];
      var r := Readers(s, before);
      if e.Crash? then r - {e.h}
      else if !e.Open? && ReadsLog(Run(s, before).value, e) then r + {e.h}
      else r
  }

  predicate ServesAll(s: State, k: nat) {
    k in s.handles && s.handles[k].served.Some? && LastSeq(s.handles[k].served.value) >= Count(s.hist)
  }

  /** A lock-free look that reads the tail serves everything. */
  lemma StatServes(s: State, k: nat)
    requires Inv(s) && Enabled(s, Stat(k))
    ensures ServesAll(Apply(s, Stat(k)), k) <==> ReadsLog(s, Stat(k)) || ServesAll(s, k)
  {
    hide ServedOk, SeenOk, FilesOk, Recs, AllOps, Compare, Entries, Above, PhaseOk;
    assert HandleOk(s.hist, s.cuts, s.disk, s.nextId, s.handles[k]);
    CompareIsSound(s.hist, s.cuts, s.disk, s.nextId, s.handles[k]);
  }

  /** So does a load that is served. */
  lemma ReadLogServes(s: State, k: nat, free: bool)
    requires Inv(s) && Enabled(s, ReadLog(k, free))
    ensures ServesAll(Apply(s, ReadLog(k, free)), k) <==> ReadsLog(s, ReadLog(k, free)) || ServesAll(s, k)
  {
    hide ServedOk, SeenOk, FilesOk, Recs, AllOps, InstallOrApply, Entries, Above;
    var hd := s.handles[k];
    assert HandleOk(s.hist, s.cuts, s.disk, s.nextId, hd);
    LoadIsComplete(s.hist, s.cuts, s.disk, s.nextId, hd.served, hd.phase.base.value, free);
  }

  /** While a handle holds the lock with its record written, the others can only open, look,
      load and crash. */
  lemma OthersOnlyLook(s: State, e: Event, h: nat)
    requires Inv(s) && h in s.handles && s.handles[h].phase.Appended?
    requires Enabled(s, e) && e.h != h
    ensures e.Open? || e.Stat? || e.ReadBase? || e.ReadLog? || e.Crash?
  {
    hide HandleOk, FilesOk;
    assert s.lock == Some(h);
  }

  /** While a handle's record waits for its fsync, another comes to serve it by reading the
      log and in no other way. */
  lemma ServesAllByReading(s: State, e: Event, h: nat, k: nat)
    requires Inv(s) && h in s.handles && s.handles[h].phase.Appended?
    requires Enabled(s, e) && e.h != h
    ensures h in Apply(s, e).handles && Apply(s, e).handles[h] == s.handles[h]
    ensures Apply(s, e).hist == s.hist && Apply(s, e).disk == s.disk
    ensures ServesAll(Apply(s, e), k) <==>
      if k == e.h && e.Crash? then false
      else if k == e.h && !e.Open? && ReadsLog(s, e) then true
      else ServesAll(s, k)
  {
    hide HandleOk, FilesOk, Recs, AllOps, Compare, InstallOrApply, StatStep, ReadLogStep, Inv;
    OthersOnlyLook(s, e, h);
    if e.Stat? {
      StatServes(s, e.h);
    } else if e.ReadLog? {
      ReadLogServes(s, e.h, e.free);
    }
  }

  lemma NobodyServesYet(s: State, h: nat)
    requires Inv(s) && Enabled(s, LandAll(h))
    ensures forall k :: !ServesAll(Apply(s, LandAll(h)), k)
  {
    hide SeenOk, Recs, AllOps;
    assert HandleOk(s.hist, s.cuts, s.disk, s.nextId, s.handles[h]);
    AllOpsSnoc(s.hist, s.handles[h].phase.txn);
    forall k | k in s.handles && s.handles[k].served.Some?
      ensures LastSeq(s.handles[k].served.value) <= Count(s.hist)
    {
      assert HandleOk(s.hist, s.cuts, s.disk, s.nextId, s.handles[k]);
    }
  }

  lemma {:induction false} ReadersServe(s: State, h: nat, es: seq<Event>, k: nat)
    requires Inv(s) && Enabled(s, LandAll(h))
    requires SafeRun(Apply(s, LandAll(h)), es) && forall i :: 0 <= i < |es| ==> es[i].h != h
    ensures var landed := Apply(s, LandAll(h));
            && Run(landed, es).Some? && Inv(Run(landed, es).value)
            && var end := Run(landed, es).value;
               && h in end.handles && end.handles[h] == landed.handles[h]
               && end.hist == landed.hist && end.disk == landed.disk
               && (ServesAll(end, k) <==> k in Readers(landed, es))
    decreases |es|
  {
    hide Inv, Apply, Safe, ServesAll, ReadsLog;
    var landed := Apply(s, LandAll(h));
    LandAllKeepsInv(s, h);
    LandedIsAppended(s, h);
    SafeRunKeepsInv(landed, es);
    if es == [] {
      NobodyServesYet(s, h);
    } else {
      var most := es[..|es| - 1];
      ReadersServe(s, h, most, k);
      ServesAllByReading(Run(landed, most).value, es[|es| - 1], h, k);
    }
  }

  lemma LandedIsAppended(s: State, h: nat)
    requires Enabled(s, LandAll(h))
    ensures h in Apply(s, LandAll(h)).handles && Apply(s, LandAll(h)).handles[h].phase.Appended?
    ensures Apply(s, LandAll(h)).disk.log.Log?
  {
  }

  /** A record lands whole, the others go on, and then its writer gives it up and cuts it
      back off: every handle still serves a prefix of what is committed if and only if no
      handle still open has read the log since the record landed. */
  lemma WithdrawIsCleanExactly(s: State, h: nat, es: seq<Event>)
    requires Inv(s) && Enabled(s, LandAll(h))
    requires SafeRun(Apply(s, LandAll(h)), es) && forall i :: 0 <= i < |es| ==> es[i].h != h
    ensures var landed := Apply(s, LandAll(h));
            && Run(landed, es).Some? && Enabled(Run(landed, es).value, FailAppend(h, true))
            && (AllServePrefixes(Apply(Run(landed, es).value, FailAppend(h, true))) <==> Readers(landed, es) == {})
  {
    hide Inv, Apply, Safe, SafeRun, Run, Readers, AllServePrefixes;
    var landed := Apply(s, LandAll(h));
    ReadersServe(s, h, es, h);
    LandedIsAppended(s, h);
    var end := Run(landed, es).value;
    WithdrawIsCleanUnread(end, h);
    forall k ensures ServesAll(end, k) <==> k in Readers(landed, es) { ReadersServe(s, h, es, k); }
    if Unobserved(end) {
      forall k ensures k !in Readers(landed, es) { assert !ServesAll(end, k); }
    } else {
      var k :| k in end.handles && end.handles[k].served.Some? && LastSeq(end.handles[k].served.value) >= Count(end.hist);
      assert ServesAll(end, k);
    }
  }

  // ---- a run that reaches an alias ---------------------------------------------------------

  const LONG: Txn := [Remove(1), Remove(2)]
  const SHORT: Txn := [Remove(3)]

  /** Three handles open a clean log. Handle 1 crashes with 48 bytes of a record down;
      handle 2 looks at the files without the lock and remembers them; handle 3 cuts them
      off and commits a record of exactly 48 bytes; handle 2 takes the lock. */
  const OPENS: seq<Event> := [
    Open(1), Stat(1), ReadBase(1), ReadLog(1, true), Open(2), Stat(2), ReadBase(2), ReadLog(2, true),
    Open(3), Stat(3), ReadBase(3), ReadLog(3, true)]
  const CRASHES: seq<Event> := [Acquire(1), Sync(1, true), BeginAppend(1, LONG), Land(1, 48), Crash(1)]
  const LOOKS: seq<Event> := [Stat(2), Acquire(3), Sync(3, true)]
  const COMMITS: seq<Event> := [BeginAppend(3, SHORT), LandAll(3), Publish(3), Release(3), Acquire(2)]

  const EMPTY := Base(1, 0, [])

  /** A handle that serves the empty store and last saw its log `len` bytes long. */
  function Opened(len: nat, phase: Phase): Handle {
    Handle(Some(Served(EMPTY, [])), Seen(Some(Stamp(1, Some(WalStamp(0, len)))), 64, true, 1), 1, 1, phase)
  }

  lemma Sizes()
    ensures SizeOf(Record(1, LONG)) == 64 && SizeOf(Record(1, SHORT)) == 48
    ensures Bytes([]) == 0 && AllOps([]) == []
  {
    assert LONG[1..] == [Remove(2)] && LONG[1..][1..] == [] && SHORT[1..] == [];
    assert OpsSize(LONG[1..][1..]) == 0 && OpsSize(LONG[1..]) == 16;
  }

  /** One event more at the end of a safe run. */
  lemma Extend(s: State, es: seq<Event>, at: State, e: Event)
    requires SafeRun(s, es) && Run(s, es) == Some(at) && Enabled(at, e) && Safe(at, e)
    ensures SafeRun(s, es + [e]) && Run(s, es + [e]) == Some(Apply(at, e))
  {
    assert (es + [e])[..|es + [e]| - 1] == es;
  }

  /** Opening a clean log takes four events: create, examine, read the base, read the log. */
  lemma OpensAfter(es: seq<Event>, at: State, h: nat)
    requires SafeRun(INITIAL, es) && Run(INITIAL, es) == Some(at)
    requires at.disk == INITIAL.disk && h !in at.handles
    ensures var opening := [Open(h), Stat(h), ReadBase(h), ReadLog(h, true)];
            && SafeRun(INITIAL, es + opening)
            && Run(INITIAL, es + opening) == Some(Put(at, h, Opened(64, Idle)))
  {
    hide SafeRun, Run, ReadLogStep, Entries, Above;
    Sizes();
    Extend(INITIAL, es, at, Open(h));
    var s1 := Apply(at, Open(h));
    Extend(INITIAL, es + [Open(h)], s1, Stat(h));
    var s2 := Apply(s1, Stat(h));
    assert s2.handles[h].phase == Reading(Stamp(1, Some(WalStamp(0, 64))), None, RACE_RETRIES);
    Extend(INITIAL, es + [Open(h)] + [Stat(h)], s2, ReadBase(h));
    var s3 := Apply(s2, ReadBase(h));
    Extend(INITIAL, es + [Open(h)] + [Stat(h)] + [ReadBase(h)], s3, ReadLog(h, true));
    var s4 := Apply(s3, ReadLog(h, true));
    OpeningReads(s3.handles[h]);
    assert s4 == Put(at, h, Opened(64, Idle));
    assert es + [Open(h)] + [Stat(h)] + [ReadBase(h)] + [ReadLog(h, true)]
        == es + [Open(h), Stat(h), ReadBase(h), ReadLog(h, true)];
  }

  lemma OpeningReads(hd: Handle)
    requires hd == Handle(None, NOTHING_SEEN, 1, 0, Reading(Stamp(1, Some(WalStamp(0, 64))), Some(EMPTY), RACE_RETRIES))
    ensures ReadLogStep(hd, Log(0, 1, [], 0), true) == Opened(64, Idle)
  {
    Sizes();
    assert Entries([]) == [];
  }

  /** Looking again at a log that has grown by torn bytes reads no record but remembers the length. */
  lemma LookRemembers(phase: Phase, torn: nat)
    ensures var hd, d := Opened(64, phase), Disk(EMPTY, Log(0, 1, [], torn));
            if torn == 0 then Compare(hd, d) == Unchanged
            else Compare(hd, d).Tail? && TakeTail(hd, StampOf(d), Compare(hd, d)) == Opened(64 + torn, phase)
  {
    Sizes();
    assert Entries([]) == [] && Above([], 0) == [];
    assert PublishAbove(Served(EMPTY, []), []) == Served(EMPTY, []);
    assert Entries(RecordsFrom([], 0)) == [];
  }

  lemma SyncOfOpened(torn: nat, id: nat)
    ensures var d := Disk(EMPTY, Log(0, 1, [], torn));
            && CatchUpLocked(Opened(64, Held), d, true) == Some(Opened(64 + torn, Held))
            && Repair(Opened(64 + torn, Held), d, id) == (Opened(64, Held), INITIAL.disk)
            && Adopt(Opened(64, Held)) == Opened(64, Held)
  {
    Sizes();
    LookRemembers(Held, torn);
  }

  /** Locking and catching up an idle handle: torn bytes are cut off. */
  lemma LocksAfter(es: seq<Event>, at: State, h: nat, torn: nat)
    requires SafeRun(INITIAL, es) && Run(INITIAL, es) == Some(at)
    requires at.disk == Disk(EMPTY, Log(0, 1, [], torn)) && at.lock.None?
    requires h in at.handles && at.handles[h] == Opened(64, Idle)
    ensures var s := Put(at, h, Opened(64, Ready)).(
                       disk := INITIAL.disk, lock := Some(h), nextId := at.nextId + 1);
            && SafeRun(INITIAL, es + [Acquire(h)] + [Sync(h, true)])
            && Run(INITIAL, es + [Acquire(h)] + [Sync(h, true)]) == Some(s)
  {
    hide SafeRun, Run, CatchUpLocked, Repair, Adopt;
    Sizes();
    Extend(INITIAL, es, at, Acquire(h));
    var s1 := Apply(at, Acquire(h));
    assert s1.handles[h] == Opened(64, Held);
    Extend(INITIAL, es + [Acquire(h)], s1, Sync(h, true));
    SyncOfOpened(torn, at.nextId);
    var s2 := Apply(s1, Sync(h, true));
    assert s2.handles == at.handles[h := Opened(64, Ready)];
  }

  lemma StartRun()
    ensures SafeRun(INITIAL, []) && Run(INITIAL, []) == Some(INITIAL)
  {
  }

  function Calm(handles: map<nat, Handle>): State {
    INITIAL.(handles := handles)
  }

  lemma ThreeOpen()
    ensures SafeRun(INITIAL, OPENS)
    ensures Run(INITIAL, OPENS)
         == Some(Calm(map[1 := Opened(64, Idle), 2 := Opened(64, Idle), 3 := Opened(64, Idle)]))
  {
    hide SafeRun, Run;
    StartRun();
    OpensAfter([], INITIAL, 1);
    var e1 := [] + [Open(1), Stat(1), ReadBase(1), ReadLog(1, true)];
    var s1 := Put(INITIAL, 1, Opened(64, Idle));
    OpensAfter(e1, s1, 2);
    var e2 := e1 + [Open(2), Stat(2), ReadBase(2), ReadLog(2, true)];
    OpensAfter(e2, Put(s1, 2, Opened(64, Idle)), 3);
    assert e2 + [Open(3), Stat(3), ReadBase(3), ReadLog(3, true)] == OPENS;
  }

  /** The state handle 1 leaves when it dies with 48 bytes of a 64-byte record down. */
  function Torn48(): State {
    Calm(map[2 := Opened(64, Idle), 3 := Opened(64, Idle)]).(disk := Disk(EMPTY, Log(0, 1, [], 48)), nextId := 2)
  }

  lemma DiesAfter(es: seq<Event>, at: State)
    requires SafeRun(INITIAL, es) && Run(INITIAL, es) == Some(at)
    requires at == Calm(map[1 := Opened(64, Ready), 2 := Opened(64, Idle), 3 := Opened(64, Idle)]).(lock := Some(1), nextId := 2)
    ensures var e := es + [BeginAppend(1, LONG)] + [Land(1, 48)] + [Crash(1)];
            SafeRun(INITIAL, e) && Run(INITIAL, e) == Some(Torn48())
  {
    hide SafeRun, Run, SizeOf;
    Sizes();
    Extend(INITIAL, es, at, BeginAppend(1, LONG));
    var s3 := Apply(at, BeginAppend(1, LONG));
    Extend(INITIAL, es + [BeginAppend(1, LONG)], s3, Land(1, 48));
    var s4 := Apply(s3, Land(1, 48));
    Extend(INITIAL, es + [BeginAppend(1, LONG)] + [Land(1, 48)], s4, Crash(1));
    assert Apply(s4, Crash(1)).handles == map[2 := Opened(64, Idle), 3 := Opened(64, Idle)];
  }

  /** Handle 1 locks, catches up, writes 48 bytes of a 64-byte record and dies. */
  lemma CrashLeavesTorn()
    ensures SafeRun(INITIAL, OPENS + CRASHES) && Run(INITIAL, OPENS + CRASHES) == Some(Torn48())
  {
    hide SafeRun, Run, Torn48;
    ThreeOpen();
    LocksAfter(OPENS, Run(INITIAL, OPENS).value, 1, 0);
    var es := OPENS + [Acquire(1)] + [Sync(1, true)];
    var at := Run(INITIAL, es).value;
    assert at.handles == map[1 := Opened(64, Ready), 2 := Opened(64, Idle), 3 := Opened(64, Idle)];
    DiesAfter(es, at);
    assert es + [BeginAppend(1, LONG)] + [Land(1, 48)] + [Crash(1)] == OPENS + CRASHES;
  }

  /** From there, a safe run reaches an aliased lock holder, although `SHORT` is committed
      and acknowledged: the holder's next catch-up destroys it. */
  lemma AliasIsReachable()
    ensures var es := OPENS + CRASHES + LOOKS + COMMITS;
            && SafeRun(INITIAL, es)
            && var s := Run(INITIAL, es).value;
               && Enabled(s, Sync(2, true)) && Aliased(s.handles[2], s.disk)
               && s.hist == [SHORT] && s.lock == Some(2)
               && Inv(s) && !Durable(Apply(s, Sync(2, true)))
  {
    hide SafeRun, Run, Inv, Durable, Compare;
    Sizes();
    CrashLeavesTorn();
    var e1 := OPENS + CRASHES;
    var s1 := Run(INITIAL, e1).value;
    Extend(INITIAL, e1, s1, Stat(2));
    LookRemembers(Idle, 48);
    var s2 := Apply(s1, Stat(2));
    assert s2.handles == map[2 := Opened(112, Idle), 3 := Opened(64, Idle)];
    LocksAfter(e1 + [Stat(2)], s2, 3, 48);
    var e3 := e1 + LOOKS;
    assert e3 == e1 + [Stat(2)] + [Acquire(3)] + [Sync(3, true)];
    CommitsAfter(e3, Run(INITIAL, e3).value);
    var es := e3 + COMMITS;
    SafeRunKeepsInv(INITIAL, es) by { InitiallyInv(); }
    SyncIsDurableExactly(Run(INITIAL, es).value, 2, true);
  }

  /** Handle 3 commits its 48-byte record. */
  lemma AppendsAfter(es: seq<Event>, at: State)
    requires SafeRun(INITIAL, es) && Run(INITIAL, es) == Some(at)
    requires at.disk == Disk(EMPTY, Log(0, 1, [], 0)) && at.lock == Some(3) && at.hist == []
    requires at.handles == map[2 := Opened(112, Idle), 3 := Opened(64, Ready)]
    ensures var e := es + [BeginAppend(3, SHORT)] + [LandAll(3)] + [Publish(3)];
            && SafeRun(INITIAL, e) && Run(INITIAL, e).Some?
            && var s := Run(INITIAL, e).value;
               && s.disk == Disk(EMPTY, Log(0, 1, [Record(1, SHORT)], 0)) && s.hist == [SHORT]
               && s.lock == Some(3) && s.handles.Keys == {2, 3}
               && s.handles[2] == Opened(112, Idle) && s.handles[3].phase.Ready?
  {
    hide SafeRun, Run, PublishStep, SizeOf;
    Extend(INITIAL, es, at, BeginAppend(3, SHORT));
    var s1 := Apply(at, BeginAppend(3, SHORT));
    var e1 := es + [BeginAppend(3, SHORT)];
    Extend(INITIAL, e1, s1, LandAll(3));
    var s2 := Apply(s1, LandAll(3));
    assert s2.disk.log.recs == [Record(1, SHORT)];
    Extend(INITIAL, e1 + [LandAll(3)], s2, Publish(3));
    PublishedIsReady(s2.handles[3]);
  }

  /** Handle 3 commits and unlocks; handle 2 locks, aliased. */
  lemma CommitsAfter(es: seq<Event>, at: State)
    requires SafeRun(INITIAL, es) && Run(INITIAL, es) == Some(at)
    requires at.disk == Disk(EMPTY, Log(0, 1, [], 0)) && at.lock == Some(3) && at.hist == []
    requires at.handles == map[2 := Opened(112, Idle), 3 := Opened(64, Ready)]
    ensures SafeRun(INITIAL, es + COMMITS) && Run(INITIAL, es + COMMITS).Some?
    ensures var s := Run(INITIAL, es + COMMITS).value;
            && s.hist == [SHORT] && s.lock == Some(2) && 2 in s.handles
            && Enabled(s, Sync(2, true)) && Aliased(s.handles[2], s.disk)
  {
    hide SafeRun, Run;
    Sizes();
    OneRecord(Record(1, SHORT));
    AppendsAfter(es, at);
    var e := es + [BeginAppend(3, SHORT)] + [LandAll(3)] + [Publish(3)];
    var s := Run(INITIAL, e).value;
    Extend(INITIAL, e, s, Release(3));
    var s4 := Apply(s, Release(3));
    Extend(INITIAL, e + [Release(3)], s4, Acquire(2));
    assert Apply(s4, Acquire(2)).handles[2] == Opened(112, Held);
    assert es + COMMITS == e + [Release(3)] + [Acquire(2)];
  }

  // ---- a discipline under which no alias arises --------------------------------------------

  /** The records of the log without one a holder has written but not acknowledged. */
  function SettledBytes(s: State): nat {
    var recs := LogRecs(s.disk.log);
    LOG_HEADER_LEN + Bytes(
      if s.lock.Some? && s.lock.value in s.handles && s.handles[s.lock.value].phase.Appended? && recs != []
      then recs[..|recs| - 1] else recs)
  }

  /** Readers that take no lock examine the files only when no torn bytes follow the log,
      and neither examine nor read them while an append is waiting for its fsync. */
  ghost predicate Cautious(s: State, e: Event)
    requires Enabled(s, e)
  {
    && (e.Stat? ==> s.disk.log.Log? ==> s.disk.log.torn == 0)
    && (e.Stat? || e.ReadLog? ==> forall h :: h in s.handles ==> !s.handles[h].phase.Appended?)
  }

  /** No record waiting for its fsync has been read. */
  ghost predicate NothingReadEarly(s: State) {
    forall h :: h in s.handles && s.handles[h].phase.Appended? ==> Unobserved(s)
  }

  lemma StepKeepsNothingReadEarly(s: State, e: Event)
    requires Inv(s) && Enabled(s, e) && Cautious(s, e) && NothingReadEarly(s)
    ensures NothingReadEarly(Apply(s, e))
  {
    hide Inv, Apply;
    var s' := Apply(s, e);
    forall h | h in s'.handles && s'.handles[h].phase.Appended? ensures Unobserved(s') {
      OnlyLandingAppends(s, e, h);
      if e.LandAll? && e.h == h {
        NobodyServesYet(s, h);
        forall k ensures !ServesAll(s', k) {}
      } else {
        forall k ensures !ServesAll(s', k) {
          ServesAllByReading(s, e, h, k);
        }
      }
      forall k | k in s'.handles && s'.handles[k].served.Some?
        ensures LastSeq(s'.handles[k].served.value) < Count(s'.hist)
      {
        assert !ServesAll(s', k);
      }
    }
  }

  /** A handle with a record written and not acknowledged has just written it, or had
      before and did not move. */
  lemma OnlyLandingAppends(s: State, e: Event, h: nat)
    requires Inv(s) && Enabled(s, e) && h in Apply(s, e).handles && Apply(s, e).handles[h].phase.Appended?
    ensures (e.LandAll? && e.h == h) || (e.h != h && h in s.handles && s.handles[h].phase.Appended?)
  {
    hide HandleOk, FilesOk, Compare, InstallOrApply, Repair, Truncate, ViewOps;
  }

  /** Nobody remembers a log longer than the records it consumed. */
  ghost predicate NoTornMemory(s: State) {
    forall h :: h in s.handles ==> RemembersWhole(s.disk, SettledBytes(s), s.handles[h])
  }

  ghost predicate RemembersWhole(d: Disk, settled: nat, hd: Handle) {
    && (hd.seen.stamp.Some? && SameFiles(hd.seen.stamp.value, d) && LogIsCurrent(d) ==>
          hd.seen.stamp.value.wal.value.len <= hd.seen.walPos)
    && (hd.phase.Reading? && SameFiles(hd.phase.now, d) && d.log.Log? ==>
          hd.phase.now.wal.value.len <= settled)
  }

  lemma NoAlias(s: State, h: nat)
    requires Inv(s) && h in s.handles && RemembersWhole(s.disk, SettledBytes(s), s.handles[h])
    ensures !Aliased(s.handles[h], s.disk)
  {
    hide ServedOk, PhaseOk, Recs, AllOps;
    var hd, d := s.handles[h], s.disk;
    if hd.seen.stamp == Some(StampOf(d)) && LogIsCurrent(d) {
      assert HandleOk(s.hist, s.cuts, d, s.nextId, hd);
      var c :| Consumed(s.hist, s.cuts, d, hd.seen.walPos, Shown(hd), c);
      BytesPrefix(d.log.recs, c);
    }
  }

  /** The same two files, the log perhaps with other records. */
  predicate SameIdentity(d: Disk, d': Disk) {
    && d'.base == d.base && d.log.Log? && d'.log.Log?
    && d'.log.id == d.log.id && d'.log.gen == d.log.gen
  }

  /** A file was replaced by one nobody can have examined yet. */
  ghost predicate Replaced(d: Disk, id: nat, d': Disk) {
    d'.base.gen > d.base.gen || (d'.log.Log? && d'.log.id >= id)
  }

  lemma KeepRemembers(s: State, d': Disk, settled': nat, hd: Handle)
    requires Inv(s) && HandleOk(s.hist, s.cuts, s.disk, s.nextId, hd)
    requires RemembersWhole(s.disk, SettledBytes(s), hd)
    requires
      || (d' == s.disk && settled' >= SettledBytes(s))
      || (SameIdentity(s.disk, d') && settled' >= SettledBytes(s))
      || Replaced(s.disk, s.nextId, d')
    ensures RemembersWhole(d', settled', hd)
  {
    hide ServedOk, FilesOk, Consumed, SettledBytes, CaughtUp;
  }

  lemma ShorterByOne(recs: seq<Record>)
    requires recs != []
    ensures Bytes(recs[..|recs| - 1]) <= Bytes(recs)
  {
    BytesPrefix(recs, |recs| - 1);
  }

  lemma AppendSettles(s: State, e: Event)
    requires Inv(s) && Enabled(s, e) && (e.Land? || e.LandAll? || e.FailAppend?) && Safe(s, e)
    ensures SettledBytes(Apply(s, e)) >= SettledBytes(s)
    ensures SameIdentity(s.disk, Apply(s, e).disk)
  {
    hide ServedOk, SeenOk, FilesOk, AllOps, Recs, Truncate, Bytes, Unobserved;
    assert HandleOk(s.hist, s.cuts, s.disk, s.nextId, s.handles[e.h]);
    if LogRecs(s.disk.log) != [] { ShorterByOne(LogRecs(s.disk.log)); }
    if e.LandAll? {
      var recs' := Apply(s, e).disk.log.recs;
      assert recs'[..|recs'| - 1] == s.disk.log.recs;
    } else if e.FailAppend? && e.cut {
      if s.handles[e.h].phase.Appended? {
        WithdrawnFiles(s.hist, s.cuts, s.disk, s.nextId, s.handles[e.h]);
      } else {
        CutTorn(s.disk.log);
      }
    }
  }

  lemma SettledNeverShrinks(s: State, e: Event)
    requires Inv(s) && Enabled(s, e) && Safe(s, e) && !e.SwapBase? && !e.SwapLog? && !e.Sync?
    ensures SettledBytes(Apply(s, e)) >= SettledBytes(s)
    ensures Apply(s, e).disk == s.disk || SameIdentity(s.disk, Apply(s, e).disk)
  {
    hide ServedOk, SeenOk, FilesOk, PhaseOk, AllOps, Recs, Truncate, StatStep, ReadLogStep, PublishStep, Bytes,
      Unobserved, Aliased;
    if LogRecs(s.disk.log) != [] { ShorterByOne(LogRecs(s.disk.log)); }
    if e.Land? || e.LandAll? || e.FailAppend? {
      AppendSettles(s, e);
    } else if e.Stat? {
      StatHandleOk(s.hist, s.cuts, s.disk, s.nextId, s.handles[e.h]);
    } else if e.ReadLog? {
      ReadLogHandleOk(s.hist, s.cuts, s.disk, s.nextId, s.handles[e.h], e.free);
    } else if e.Publish? {
      PublishHandleOk(s.hist, s.cuts, s.disk, s.nextId, s.handles[e.h]);
    }
  }

  lemma StatRemembers(s: State, h: nat)
    requires Inv(s) && Enabled(s, Stat(h)) && Cautious(s, Stat(h))
    requires RemembersWhole(s.disk, SettledBytes(s), s.handles[h])
    ensures RemembersWhole(s.disk, SettledBytes(s), StatStep(s.handles[h], s.disk))
  {
    hide ServedOk, PhaseOk, Recs, AllOps, Bytes;
    assert HandleOk(s.hist, s.cuts, s.disk, s.nextId, s.handles[h]);
    CompareIsSound(s.hist, s.cuts, s.disk, s.nextId, s.handles[h]);
  }

  lemma ReadLogRemembers(s: State, h: nat, free: bool)
    requires Inv(s) && Enabled(s, ReadLog(h, free))
    requires RemembersWhole(s.disk, SettledBytes(s), s.handles[h])
    ensures RemembersWhole(s.disk, SettledBytes(s), ReadLogStep(s.handles[h], s.disk.log, free))
  {
    hide ServedOk, Recs, AllOps, Bytes;
    var hd := s.handles[h];
    assert HandleOk(s.hist, s.cuts, s.disk, s.nextId, hd);
    LoadIsComplete(s.hist, s.cuts, s.disk, s.nextId, hd.served, hd.phase.base.value, free);
    if LogRecs(s.disk.log) != [] { ShorterByOne(LogRecs(s.disk.log)); }
  }

  lemma RemembersMore(d: Disk, settled: nat, more: nat, hd: Handle)
    requires RemembersWhole(d, settled, hd) && settled <= more
    ensures RemembersWhole(d, more, hd)
  {
  }

  /** A lock holder remembers exactly what it consumed. */
  lemma ReadyRemembers(hist: seq<Txn>, d: Disk, hd: Handle, settled: nat)
    requires CaughtUp(hist, d, hd, LogRecs(d.log)) && !hd.phase.Reading?
    ensures RemembersWhole(d, settled, hd)
  {
  }

  lemma OwnRemembers(s: State, e: Event)
    requires Inv(s) && Enabled(s, e) && Cautious(s, e) && Safe(s, e) && NoTornMemory(s)
    requires e.h in Apply(s, e).handles
    ensures var s' := Apply(s, e); RemembersWhole(s'.disk, SettledBytes(s'), s'.handles[e.h])
  {
    hide ServedOk, FilesOk, SeenOk, Recs, AllOps, Bytes, SettledBytes, Truncate, StatStep, ReadLogStep, PublishStep,
      CatchUpLocked, Repair, RemembersWhole;
    var s' := Apply(s, e);
    if !e.Open? {
      assert HandleOk(s.hist, s.cuts, s.disk, s.nextId, s.handles[e.h]);
      assert RemembersWhole(s.disk, SettledBytes(s), s.handles[e.h]);
    }
    match e
    case Stat(h) =>
      StatRemembers(s, h);
      SettledNeverShrinks(s, e);
      RemembersMore(s.disk, SettledBytes(s), SettledBytes(s'), s'.handles[h]);
    case ReadLog(h, free) =>
      ReadLogRemembers(s, h, free);
      SettledNeverShrinks(s, e);
      RemembersMore(s.disk, SettledBytes(s), SettledBytes(s'), s'.handles[h]);
    case Sync(h, free) =>
      SyncKeepsInv(s, h, free);
      assert HandleOk(s'.hist, s'.cuts, s'.disk, s'.nextId, s'.handles[h]);
      SyncRemembers(s, h, free);
    case Publish(h) =>
      PublishHandleOk(s.hist, s.cuts, s.disk, s.nextId, s.handles[h]);
      ReadyRemembers(s'.hist, s'.disk, s'.handles[h], SettledBytes(s'));
    case Install(h, free) =>
      InstallRemembers(s, h, free);
    case _ => OtherRemembers(s, e);
  }

  lemma SyncRemembers(s: State, h: nat, free: bool)
    requires Inv(s) && Enabled(s, Sync(h, free)) && Inv(Apply(s, Sync(h, free)))
    requires RemembersWhole(s.disk, SettledBytes(s), s.handles[h])
    ensures var s' := Apply(s, Sync(h, free));
            RemembersWhole(s'.disk, SettledBytes(s'), s'.handles[h])
  {
    hide ServedOk, FilesOk, SeenOk, Recs, AllOps, Bytes, SettledBytes, CatchUpLocked, Repair, RemembersWhole, CaughtUp;
    var s' := Apply(s, Sync(h, free));
    assert HandleOk(s'.hist, s'.cuts, s'.disk, s'.nextId, s'.handles[h]);
    if s'.handles[h].phase.Ready? {
      ReadyRemembers(s'.hist, s'.disk, s'.handles[h], SettledBytes(s'));
    }
  }

  lemma InstallRemembers(s: State, h: nat, free: bool)
    requires Inv(s) && Enabled(s, Install(h, free))
    requires RemembersWhole(s.disk, SettledBytes(s), s.handles[h])
    ensures RemembersWhole(s.disk, SettledBytes(Apply(s, Install(h, free))), InstallStep(s.handles[h], s.disk, free))
  {
    hide ServedOk, FilesOk, SeenOk, Recs, AllOps, SettledBytes;
    assert HandleOk(s.hist, s.cuts, s.disk, s.nextId, s.handles[h]);
    assert Bytes([]) == 0;
  }

  /** The steps that leave what their handle remembers alone, or make it forget. */
  lemma OtherRemembers(s: State, e: Event)
    requires Inv(s) && Enabled(s, e) && Safe(s, e)
    requires !e.Stat? && !e.ReadLog? && !e.Sync? && !e.Publish? && !e.Install?
    requires !e.Open? ==> RemembersWhole(s.disk, SettledBytes(s), s.handles[e.h])
    requires e.h in Apply(s, e).handles
    ensures var s' := Apply(s, e); RemembersWhole(s'.disk, SettledBytes(s'), s'.handles[e.h])
  {
    hide ServedOk, Recs, AllOps, Bytes, SettledBytes, Truncate, Consumed, CaughtUp;
    var s' := Apply(s, e);
    if !e.Open? && !e.SwapLog? {
      var hd := s.handles[e.h];
      assert HandleOk(s.hist, s.cuts, s.disk, s.nextId, hd);
      if e.SwapBase? {
        CompactionRenders(s.hist, s.cuts, s.disk, s.nextId, hd);
      } else {
        SettledNeverShrinks(s, e);
      }
      KeepRemembers(s, s'.disk, SettledBytes(s'), hd);
    }
  }

  lemma StepKeepsNoTornMemory(s: State, e: Event)
    requires Inv(s) && Enabled(s, e) && Cautious(s, e) && NoTornMemory(s) && NothingReadEarly(s)
    ensures Safe(s, e) && Inv(Apply(s, e)) && NoTornMemory(Apply(s, e))
  {
    hide ServedOk, FilesOk, SeenOk, PhaseOk, Recs, AllOps, Bytes, SettledBytes, Truncate, StatStep, ReadLogStep,
      PublishStep, InstallStep, CatchUpLocked, Repair, RemembersWhole, Unobserved, Aliased;
    var s' := Apply(s, e);
    if e.Sync? { NoAlias(s, e.h); }
    StepKeepsInv(s, e);
    if e.h in s'.handles { OwnRemembers(s, e); }
    StepChangesFiles(s, e);
    forall k | k in s'.handles
      ensures RemembersWhole(s'.disk, SettledBytes(s'), s'.handles[k])
    {
      if k != e.h {
        OthersUntouched(s, e, k);
        KeepRemembers(s, s'.disk, SettledBytes(s'), s.handles[k]);
      }
    }
  }

  lemma OthersUntouched(s: State, e: Event, k: nat)
    requires Enabled(s, e) && k != e.h && k in Apply(s, e).handles
    ensures k in s.handles && Apply(s, e).handles[k] == s.handles[k]
  {
    hide StatStep, ReadLogStep, PublishStep, InstallStep, CatchUpLocked, Repair, Truncate, ViewOps;
  }

  /** Every step leaves the files as they were, or the same files with no settled byte
      lost, or replaces one by a file nobody has seen. */
  lemma StepChangesFiles(s: State, e: Event)
    requires Inv(s) && Enabled(s, e) && Safe(s, e)
    ensures var s' := Apply(s, e);
            || (s'.disk == s.disk && SettledBytes(s') >= SettledBytes(s))
            || (SameIdentity(s.disk, s'.disk) && SettledBytes(s') >= SettledBytes(s))
            || Replaced(s.disk, s.nextId, s'.disk)
  {
    hide ServedOk, Recs, AllOps, Bytes, SettledBytes, Truncate, StatStep, ReadLogStep, PublishStep,
      InstallStep, CatchUpLocked, Repair, Consumed;
    if e.SwapBase? {
      CompactionRenders(s.hist, s.cuts, s.disk, s.nextId, s.handles[e.h]);
    } else if e.Sync? {
      SyncChangesFiles(s, e.h, e.free);
    } else if !e.SwapLog? {
      SettledNeverShrinks(s, e);
    }
  }

  lemma SyncChangesFiles(s: State, h: nat, free: bool)
    requires Inv(s) && Enabled(s, Sync(h, free)) && !Aliased(s.handles[h], s.disk)
    ensures var s' := Apply(s, Sync(h, free));
            || (s'.disk == s.disk && SettledBytes(s') >= SettledBytes(s))
            || (SameIdentity(s.disk, s'.disk) && SettledBytes(s') >= SettledBytes(s))
            || Replaced(s.disk, s.nextId, s'.disk)
  {
    hide ServedOk, SeenOk, FilesOk, Recs, AllOps, CatchUpLocked, Repair, Bytes, CaughtUp;
    var was := s.handles[h];
    CatchUpIsSynced(s.hist, s.cuts, s.disk, s.nextId, was, free);
    var c := CatchUpLocked(was, s.disk, free);
    if c.Some? { RepairIsReady(s.hist, s.cuts, s.disk, s.nextId, c.value, was); }
  }

  ghost predicate CautiousRun(s: State, es: seq<Event>)
    decreases |es|
  {
    es == [] ||
    var before := Run(s, es[..|es| - 1]);
    && CautiousRun(s, es[..|es| - 1])
    && before.Some? && Enabled(before.value, es[|es| - 1])
    && Cautious(before.value, es[|es| - 1])
  }

  /** A run whose lock-free readers look at the files only in quiet moments is safe: no
      alias arises, and no record is cut back that anyone has read. */
  lemma {:induction false} CautiousRunsAreSafe(es: seq<Event>)
    requires CautiousRun(INITIAL, es)
    ensures SafeRun(INITIAL, es)
    ensures Run(INITIAL, es).Some? && Durable(Run(INITIAL, es).value)
    ensures NoTornMemory(Run(INITIAL, es).value) && NothingReadEarly(Run(INITIAL, es).value)
    decreases |es|
  {
    hide Inv, Apply, Safe, Enabled, Cautious, NoTornMemory, NothingReadEarly, Durable;
    if es == [] {
      InitiallyInv();
      NobodyRemembers();
      InvIsSafe(INITIAL);
    } else {
      var most := es[..|es| - 1];
      CautiousRunsAreSafe(most);
      InitiallyInv();
      SafeRunKeepsInv(INITIAL, most);
      StepKeepsNoTornMemory(Run(INITIAL, most).value, es[|es| - 1]);
      StepKeepsNothingReadEarly(Run(INITIAL, most).value, es[|es| - 1]);
      InvIsSafe(Run(INITIAL, es).value);
    }
  }

  lemma NobodyRemembers()
    ensures NoTornMemory(INITIAL) && NothingReadEarly(INITIAL)
  {
  }
}
