/** A handle on a store, as its methods update it: the ring of served generations, what it
    last saw of the files, and its write counters. Each method is proved against the step
    functions of `Protocol`. */
module StoreHandle {
  import opened Ops
  import opened History
  import P = Protocol
  import I = ProtocolInvariant
  import Commits = ProtocolCommit
  import Safety = ProtocolSafety
  import W = WalRecord
  import Limits = ProtocolLimits

  const GEN_SLOTS := 4

  datatype Error = Corrupt | Busy | Io | TooLarge | Aborted
  datatype Result<+T> = Ok(value: T) | Err(error: Error)

  /** What one full read found: the base, then the log. */
  datatype Read = Read(base: P.Base, log: P.LogFile)

  /** What a full read came to: whether anything new became visible, the log position consumed,
      whether the log is the base's own. */
  datatype Applied = Applied(changed: bool, pos: nat, current: bool)

  datatype Caught = Nothing | Tail | Full

  /** The store's directory. Other handles change it between one call and the next. */
  class Directory {
    var disk: P.Disk
    /** The inode number the next created file gets. */
    var nextId: nat

    constructor (d: P.Disk, id: nat)
      ensures disk == d && nextId == id
    {
      disk, nextId := d, id;
    }
  }

  // ---- what a load makes of a series of reads ----------------------------------------------

  /** Whether a full read puts ops into an arena: the served one's, or a rebuilt one's. */
  predicate Publishes(v: Option<P.Served>, b: P.Base, log: P.LogFile) {
    && log.Log? && log.gen == b.gen
    && Above(Entries(log.recs), if v.Some? && v.value.base.gen == b.gen then P.LastSeq(v.value) else b.applied) != []
  }

  /** What a full read comes to: the protocol's outcome, or a refusal when the arena it
      needs has no room. */
  function LoadOne(v: Option<P.Served>, b: P.Base, log: P.LogFile, free: bool, room: bool): P.Outcome {
    var o := P.InstallOrApply(v, b, log, free);
    if o.Applied? && !room && Publishes(v, b, log) then P.Refused else o
  }

  /** The outcome of re-reading until the log is not newer than the base, and the base
      generation it came from. */
  function Loads(v: Option<P.Served>, looks: seq<Read>, free: bool, room: bool): (P.Outcome, nat) {
    if looks == [] then (P.ReRead, 0)
    else
      var o := LoadOne(v, looks[0].base, looks[0].log, free, room);
      if o.ReRead? then Loads(v, looks[1..], free, room) else (o, looks[0].base.gen)
  }

  /** Room or not, what is applied is what the protocol applies. */
  lemma {:induction false} LoadsWithRoom(v: Option<P.Served>, looks: seq<Read>, free: bool, room: bool)
    ensures Loads(v, looks, free, room).0.Applied? ==> Loads(v, looks, free, room) == Loads(v, looks, free, true)
  {
    hide P.InstallOrApply, Publishes;
    if looks != [] { LoadsWithRoom(v, looks[1..], free, room); }
  }

  lemma PublishesOps(v: P.Served, recs: seq<Record>)
    ensures P.PublishAbove(v, recs) == v <==> Above(Entries(recs), P.LastSeq(v)) == []
  {
    hide Above, Entries;
    assert v.overlay + [] == v.overlay;
  }

  lemma BuildPublishes(b: P.Base, log: P.LogFile)
    ensures P.InstallOrApply(None, b, log, true) == P.Build(b, log)
    ensures var o := P.Build(b, log); o.Applied? ==> (o.served.overlay != [] <==> Publishes(None, b, log))
  {
    hide Above, Entries;
  }

  /** A catch-up that finds ops to publish and no room for them. */
  predicate Blocked(hd: P.Handle, d: P.Disk, room: bool) {
    !room &&
    match P.Compare(hd, d)
    case Tail(v, _) => hd.served != Some(v)
    case Full => Publishes(hd.served, d.base, d.log)
    case _ => false
  }

  /** The same through the protocol's steps: read the base, then the log, again and again. */
  function LoadSteps(hd: P.Handle, looks: seq<Read>, free: bool): P.Handle
    decreases |looks|
  {
    if looks == [] || !hd.phase.Reading? then hd
    else
      var based := hd.(phase := hd.phase.(base := Some(looks[0].base)));
      LoadSteps(P.ReadLogStep(based, looks[0].log, free), looks[1..], free)
  }

  /** Whether a lock-free catch-up goes through: what it reads can be served. */
  predicate Observes(hd: P.Handle, d: P.Disk, looks: seq<Read>, free: bool, room: bool) {
    match P.Compare(hd, d)
    case Unchanged => true
    case Tail(v, _) => room || hd.served == Some(v)
    case Bad => false
    case Full => Loads(hd.served, looks, free, room).0.Applied?
  }

  /** A whole lock-free catch-up: examine the files, then load if they are others. */
  function Observe(hd: P.Handle, d: P.Disk, looks: seq<Read>, free: bool): P.Handle {
    LoadSteps(P.StatStep(hd, d), looks, free)
  }

  lemma IdleStays(hd: P.Handle, looks: seq<Read>, free: bool)
    requires !hd.phase.Reading?
    ensures LoadSteps(hd, looks, free) == hd
  {
  }

  /** The retry loop is the protocol's: both stop at the first read that is not torn
      between a compaction's renames. */
  lemma {:induction false} StepsAreLoads(hd: P.Handle, now: P.Stamp, looks: seq<Read>, free: bool)
    requires hd.phase == P.Reading(now, None, |looks|) && looks != []
    ensures var (o, gen) := Loads(hd.served, looks, free, true);
            LoadSteps(hd, looks, free) ==
              if o.Applied? then
                P.Adopt(hd.(served := Some(o.served), seen := P.Seen(Some(now), o.pos, o.current, gen))).(phase := P.Idle)
              else hd.(phase := P.Idle)
    decreases |looks|
  {
    hide P.InstallOrApply;
    var based := hd.(phase := P.Reading(now, Some(looks[0].base), |looks|));
    var next := P.ReadLogStep(based, looks[0].log, free);
    var o := P.InstallOrApply(hd.served, looks[0].base, looks[0].log, free);
    assert LoadSteps(hd, looks, free) == LoadSteps(next, looks[1..], free);
    if o.ReRead? && |looks| > 1 {
      StepsAreLoads(next, now, looks[1..], free);
    } else {
      IdleStays(next, looks[1..], free);
    }
  }

  /** Reads that all find the same files settle at once. */
  lemma LoadsOnce(v: Option<P.Served>, looks: seq<Read>, free: bool, room: bool, d: P.Disk)
    requires looks != [] && forall i :: 0 <= i < |looks| ==> looks[i] == Read(d.base, d.log)
    ensures var o := LoadOne(v, d.base, d.log, free, room);
            Loads(v, looks, free, room) == if o.ReRead? then (P.ReRead, 0) else (o, d.base.gen)
  {
    hide LoadOne;
    if |looks| > 1 {
      LoadsOnce(v, looks[1..], free, room, d);
    }
  }

  /** What is served moved on: another generation, or more ops over the same base. */
  predicate Moved(was: P.Served, now: P.Served) {
    now.base.gen != was.base.gen || (now.base == was.base && was.overlay < now.overlay)
  }

  lemma MovedShows(was: P.Served, now: P.Served)
    requires Moved(was, now)
    ensures now != was && (now.base.gen != was.base.gen || P.ViewOps(now) != P.ViewOps(was))
  {
    if now.base.gen == was.base.gen {
      var more := now.overlay[|was.overlay|..];
      assert now.overlay == was.overlay + more;
      OpsOfSplit(was.overlay, more);
    }
  }

  /** Nobody touches the files between the reads. */
  predicate Quiet(looks: seq<Read>, d: P.Disk) { forall i :: 0 <= i < |looks| ==> looks[i] == Read(d.base, d.log) }

  /** Every ring slot is taken, and the base on disk holds ops the served one cannot show. */
  predicate OutOfSlots(v: P.Served, b: P.Base, free: bool) {
    v.base.gen != b.gen && !free && b.applied > P.LastSeq(v)
  }

  /** Examining and reading quiet files brings a handle to the whole history. */
  lemma QuietCatchUp(s: P.State, h: nat, looks: seq<Read>, free: bool)
    requires I.Inv(s) && h in s.handles && s.handles[h].phase == P.Idle && s.handles[h].served.Some?
    requires Quiet(looks, s.disk) && |looks| == P.RACE_RETRIES && !Commits.Aliased(s.handles[h], s.disk)
    ensures var hd := s.handles[h];
            if OutOfSlots(hd.served.value, s.disk.base, free) then
              P.Compare(hd, s.disk).Full? && Loads(hd.served, looks, free, true).0.Refused?
            else
              var v := Observe(hd, s.disk, looks, free).served;
              && Observes(hd, s.disk, looks, free, true)
              && v.Some? && P.ViewOps(v.value) == AllOps(s.hist)
  {
    hide I.ServedOk, I.SeenOk, I.FilesOk, Recs, AllOps, P.ViewOps, P.InstallOrApply, P.StampOf, P.Compare, LoadSteps, Loads,
      Quiet, Commits.Aliased, P.LastSeq;
    var hd, d := s.handles[h], s.disk;
    assert I.HandleOk(s.hist, s.cuts, d, s.nextId, hd);
    if P.Compare(hd, d).Full? {
      QuietLoad(s, hd, looks, free);
      StepsAreLoads(hd.(phase := P.Reading(P.StampOf(d), None, P.RACE_RETRIES)), P.StampOf(d), looks, free);
    } else {
      QuietLook(s, hd);
      IdleStays(P.StatStep(hd, d), looks, free);
    }
  }

  /** Files whose base holds unserved ops are never taken for the ones last seen. */
  lemma LookIsFresh(s: P.State, hd: P.Handle)
    requires I.Inv(s) && I.HandleOk(s.hist, s.cuts, s.disk, s.nextId, hd) && hd.served.Some?
    ensures !P.Compare(hd, s.disk).Bad?
    ensures !P.Compare(hd, s.disk).Full? <==> hd.seen.stamp.Some? && I.SameFiles(hd.seen.stamp.value, s.disk)
    ensures !P.Compare(hd, s.disk).Full? ==> s.disk.base.applied <= P.LastSeq(hd.served.value)
  {
    hide I.ServedOk, Recs, AllOps, P.ViewOps, RecordsFrom, Rising, Entries, Above, P.LastSeq;
    I.CompareIsSound(s.hist, s.cuts, s.disk, s.nextId, hd);
    I.FoldedCount(s.hist, s.cuts, s.disk.base);
    if hd.seen.stamp.Some? && I.SameFiles(hd.seen.stamp.value, s.disk) && s.disk.log.Log? {
      var c :| I.Consumed(s.hist, s.cuts, s.disk, hd.seen.walPos, I.Shown(hd), c);
      BytesPrefix(s.disk.log.recs, c);
    }
  }

  /** An alias is never looked behind. */
  lemma AliasHides(hd: P.Handle, d: P.Disk, looks: seq<Read>, free: bool, room: bool)
    requires hd.phase == P.Idle && hd.served.Some?
    ensures Commits.Aliased(hd, d) ==> Observes(hd, d, looks, free, room) && Observe(hd, d, looks, free) == hd
  {
    if Commits.Aliased(hd, d) { IdleStays(hd, looks, free); }
  }

  /** A look that reads no more than the tail. */
  lemma QuietLook(s: P.State, hd: P.Handle)
    requires I.Inv(s) && I.HandleOk(s.hist, s.cuts, s.disk, s.nextId, hd) && hd.phase == P.Idle && hd.served.Some?
    requires !P.Compare(hd, s.disk).Full? && !Commits.Aliased(hd, s.disk)
    ensures !P.Compare(hd, s.disk).Bad? && s.disk.base.applied <= P.LastSeq(hd.served.value)
    ensures P.Compare(hd, s.disk).Tail? ==> P.ViewOps(P.Compare(hd, s.disk).served) == AllOps(s.hist)
    ensures P.Compare(hd, s.disk).Unchanged? ==> P.ViewOps(hd.served.value) == AllOps(s.hist)
  {
    hide I.ServedOk, Recs, AllOps, P.ViewOps, Bytes, RecordsFrom, Rising, Entries, Above, P.LastSeq, I.Consumed;
    I.CompareIsSound(s.hist, s.cuts, s.disk, s.nextId, hd);
    LookIsFresh(s, hd);
    if P.Compare(hd, s.disk).Unchanged? {
      Commits.UnchangedIsSynced(s.hist, s.cuts, s.disk, s.nextId, hd);
      ShowsAll(s.hist, s.cuts, hd.served.value);
    } else {
      ShowsAll(s.hist, s.cuts, P.Compare(hd, s.disk).served);
    }
  }

  lemma ShowsAll(hist: seq<Txn>, cuts: map<nat, nat>, v: P.Served)
    requires I.ServedOk(hist, cuts, v) && P.LastSeq(v) == Count(hist)
    ensures P.ViewOps(v) == AllOps(hist)
  {
    Commits.ViewIsPrefix(hist, cuts, v);
    assert AllOps(hist)[..Count(hist)] == AllOps(hist);
  }

  /** A store opened on quiet files serves the whole history. */
  lemma QuietOpen(s: P.State, looks: seq<Read>)
    requires I.Inv(s) && Quiet(looks, s.disk) && looks != []
    ensures var (o, gen) := Loads(None, looks, true, true);
            o.Applied? && gen == s.disk.base.gen && P.ViewOps(o.served) == AllOps(s.hist)
  {
    hide I.ServedOk, I.SeenOk, Recs, AllOps, P.ViewOps, P.InstallOrApply, Loads, P.LastSeq;
    LoadsOnce(None, looks, true, true, s.disk);
    I.LoadIsComplete(s.hist, s.cuts, s.disk, s.nextId, None, s.disk.base, true);
    ShowsAll(s.hist, s.cuts, P.InstallOrApply(None, s.disk.base, s.disk.log, true).served);
  }

  /** Under the commit lock a handle can serve what is there just when it has a slot for it. */
  lemma CatchesUpExactly(s: P.State, hd: P.Handle, free: bool)
    requires I.Inv(s) && I.HandleOk(s.hist, s.cuts, s.disk, s.nextId, hd) && hd.served.Some?
    ensures P.CatchUpLocked(hd, s.disk, free).Some? <==> !OutOfSlots(hd.served.value, s.disk.base, free)
  {
    hide I.ServedOk, I.SeenOk, I.PhaseOk, Recs, AllOps, P.InstallOrApply, P.Compare, P.LastSeq;
    LookIsFresh(s, hd);
    I.LoadIsComplete(s.hist, s.cuts, s.disk, s.nextId, hd.served, s.disk.base, free);
  }

  /** What a handle does not show, or a generation it would have to build, needs room that the
      arena does not have. */
  predicate Cramped(hd: P.Handle, d: P.Disk, hist: seq<Txn>, room: bool)
    requires hd.served.Some?
  {
    && !room && !Commits.Aliased(hd, d)
    && if hd.served.value.base.gen != d.base.gen && !(hd.seen.stamp.Some? && I.SameFiles(hd.seen.stamp.value, d))
       then I.LogIsCurrent(d) && d.log.recs != []
       else P.ViewOps(hd.served.value) != AllOps(hist)
  }

  lemma PublishShowsMore(hist: seq<Txn>, cuts: map<nat, nat>, v: P.Served, recs: seq<Record>)
    requires I.ServedOk(hist, cuts, P.PublishAbove(v, recs)) && P.LastSeq(P.PublishAbove(v, recs)) == Count(hist)
    ensures P.ViewOps(v) == AllOps(hist) <==> P.PublishAbove(v, recs) == v
  {
    hide I.ServedOk, Above, Entries, AllOps, P.LastSeq;
    ShowsAll(hist, cuts, P.PublishAbove(v, recs));
    OpsOfSplit(v.overlay, Above(Entries(recs), P.LastSeq(v)));
  }

  lemma BlockedByTail(s: P.State, hd: P.Handle, room: bool)
    requires I.Inv(s) && I.HandleOk(s.hist, s.cuts, s.disk, s.nextId, hd) && hd.served.Some?
    requires !P.Compare(hd, s.disk).Full?
    ensures Blocked(hd, s.disk, room) <==> Cramped(hd, s.disk, s.hist, room)
  {
    hide I.ServedOk, Recs, AllOps, P.ViewOps, Bytes, RecordsFrom, Rising, P.PublishAbove, P.LastSeq, I.Consumed;
    I.CompareIsSound(s.hist, s.cuts, s.disk, s.nextId, hd);
    LookIsFresh(s, hd);
    if P.Compare(hd, s.disk).Tail? {
      PublishShowsMore(s.hist, s.cuts, hd.served.value, RecordsFrom(s.disk.log.recs, hd.seen.walPos - LOG_HEADER_LEN));
    } else if !Commits.Aliased(hd, s.disk) {
      Commits.UnchangedIsSynced(s.hist, s.cuts, s.disk, s.nextId, hd);
      ShowsAll(s.hist, s.cuts, hd.served.value);
    }
  }

  lemma BlockedByLoad(s: P.State, hd: P.Handle, room: bool)
    requires I.Inv(s) && I.HandleOk(s.hist, s.cuts, s.disk, s.nextId, hd) && hd.served.Some?
    requires P.Compare(hd, s.disk).Full?
    ensures Blocked(hd, s.disk, room) <==> Cramped(hd, s.disk, s.hist, room)
  {
    hide I.ServedOk, I.SeenOk, AllOps, P.ViewOps, Rising, Above, Entries, P.LastSeq, P.Compare, Recs;
    LookIsFresh(s, hd);
    var v, d := hd.served.value, s.disk;
    if v.base.gen == d.base.gen {
      I.LoadSameBase(s.hist, s.cuts, d, s.nextId, v, d.base, true);
      if I.LogIsCurrent(d) {
        PublishesOps(v, d.log.recs);
        PublishShowsMore(s.hist, s.cuts, v, d.log.recs);
      } else {
        ShowsAll(s.hist, s.cuts, v);
      }
    } else if I.LogIsCurrent(d) {
      LogHasOps(s.hist, s.cuts, d, s.nextId);
    }
  }

  /** A base's own log holds nothing the base folded. */
  lemma LogHasOps(hist: seq<Txn>, cuts: map<nat, nat>, d: P.Disk, id: nat)
    requires I.FilesOk(hist, cuts, d, id) && I.LogIsCurrent(d)
    ensures Above(Entries(d.log.recs), d.base.applied) == [] <==> d.log.recs == []
  {
    var lo := cuts[d.base.gen];
    I.FoldedCount(hist, cuts, d.base);
    EntriesOfRecs(hist, lo);
    AboveRange(AllOps(hist), d.base.applied, Count(hist), d.base.applied);
    assert hist[..|hist|] == hist;
    if lo < |hist| { CountMonotone(hist, lo, |hist|); }
  }

  /** Exactly when a catch-up lacks room, in terms of what is committed and shown. */
  lemma BlockedExactly(s: P.State, hd: P.Handle, room: bool)
    requires I.Inv(s) && I.HandleOk(s.hist, s.cuts, s.disk, s.nextId, hd) && hd.served.Some?
    ensures Blocked(hd, s.disk, room) <==> Cramped(hd, s.disk, s.hist, room)
  {
    hide I.Inv, I.HandleOk, Blocked, Cramped, P.Compare;
    if P.Compare(hd, s.disk).Full? { BlockedByLoad(s, hd, room); } else { BlockedByTail(s, hd, room); }
  }

  /** Over quiet files a catch-up without the lock goes through for what it would under it. */
  lemma QuietObserves(s: P.State, hd: P.Handle, looks: seq<Read>, free: bool, room: bool)
    requires I.Inv(s) && I.HandleOk(s.hist, s.cuts, s.disk, s.nextId, hd) && hd.served.Some?
    requires Quiet(looks, s.disk) && looks != []
    ensures Observes(hd, s.disk, looks, free, room) <==>
      !OutOfSlots(hd.served.value, s.disk.base, free) && !Cramped(hd, s.disk, s.hist, room)
  {
    hide I.Inv, I.HandleOk, P.Compare, Cramped, OutOfSlots, Publishes, P.InstallOrApply, Loads, Quiet;
    LoadsOnce(hd.served, looks, free, room, s.disk) by { QuietAre(looks, s.disk); }
    CatchesUpExactly(s, hd, free);
    BlockedExactly(s, hd, room);
    LookIsFresh(s, hd);
  }

  lemma QuietAre(looks: seq<Read>, d: P.Disk)
    requires Quiet(looks, d)
    ensures forall i :: 0 <= i < |looks| ==> looks[i] == Read(d.base, d.log)
  {
  }

  /** A full read of quiet files. */
  lemma QuietLoad(s: P.State, hd: P.Handle, looks: seq<Read>, free: bool)
    requires I.Inv(s) && I.HandleOk(s.hist, s.cuts, s.disk, s.nextId, hd) && hd.served.Some?
    requires Quiet(looks, s.disk) && looks != []
    ensures var o := Loads(hd.served, looks, free, true).0;
            if OutOfSlots(hd.served.value, s.disk.base, free) then o.Refused?
            else o.Applied? && P.ViewOps(o.served) == AllOps(s.hist)
  {
    hide I.ServedOk, I.SeenOk, Recs, AllOps, P.ViewOps, P.InstallOrApply, Loads, P.LastSeq;
    LoadsOnce(hd.served, looks, free, true, s.disk);
    I.LoadIsComplete(s.hist, s.cuts, s.disk, s.nextId, hd.served, s.disk.base, free);
    var o := P.InstallOrApply(hd.served, s.disk.base, s.disk.log, free);
    if o.Applied? { ShowsAll(s.hist, s.cuts, o.served); }
  }

  // ---- publishing a log ---------------------------------------------------------------------

  lemma NothingAbove(served: nat)
    ensures Above([], served) == [] && Entries([]) == []
  {
  }

  lemma EntriesPrefix(r: Record, j: nat)
    requires j <= |r.ops|
    ensures |RecordEntries(r)| == |r.ops|
    ensures RecordEntries(r)[..0] == [] && RecordEntries(r)[..|r.ops|] == RecordEntries(r)
    ensures j < |r.ops| ==> RecordEntries(r)[..j + 1] == RecordEntries(r)[..j] + [Entry(r.first + j, r.ops[j])]
  {
  }

  lemma RecordsPrefix(recs: seq<Record>, i: nat)
    requires i < |recs|
    ensures Entries(recs[..i + 1]) == Entries(recs[..i]) + RecordEntries(recs[i])
  {
    assert recs[..i + 1][..i] == recs[..i];
  }

  /** The ops of one record above `served`. */
  method RecordAbove(r: Record, served: nat) returns (out: seq<Entry>)
    ensures out == Above(RecordEntries(r), served)
  {
    hide Above, RecordEntries;
    out := [];
    NothingAbove(served);
    EntriesPrefix(r, 0);
    for j := 0 to |r.ops|
      invariant out == Above(RecordEntries(r)[..j], served)
    {
      var e := Entry(r.first + j, r.ops[j]);
      EntriesPrefix(r, j);
      AboveSnoc(RecordEntries(r)[..j], e, served);
      if e.seqNo > served {
        out := out + [e];
      }
    }
  }

  /** The ops of a run of records above `served`, one by one. */
  method OpsAbove(recs: seq<Record>, served: nat) returns (out: seq<Entry>)
    ensures out == Above(Entries(recs), served)
  {
    hide Above, Entries, RecordEntries;
    out := [];
    NothingAbove(served);
    for i := 0 to |recs|
      invariant out == Above(Entries(recs[..i]), served)
    {
      var more := RecordAbove(recs[i], served);
      RecordsPrefix(recs, i);
      AboveSplit(Entries(recs[..i]), RecordEntries(recs[i]), served);
      out := out + more;
    }
    assert recs[..|recs|] == recs;
  }

  // ---- appends and compactions as protocol events --------------------------------------------

  /** The largest record. */
  const MAX_RECORD := W.MAX_RECORD

  /** What becomes of a write: it lands and syncs, or it fails after some of its bytes (all
      of them, perhaps) landed, and the log is then cut back or cannot be. */
  datatype Fate = Lands | Breaks(bytes: nat, cut: bool)

  /** How far a compaction's two renames get. */
  datatype Renames = NoBase | BaseOnly | Both

  predicate Refused(r: Record, room: bool) { SizeOf(r) > MAX_RECORD || !room }

  function AppendEvents(h: nat, r: Record, fate: Fate, room: bool): seq<P.Event> {
    if Refused(r, room) then []
    else
      match fate
      case Lands => [P.BeginAppend(h, r.ops), P.LandAll(h), P.Publish(h)]
      case Breaks(bytes, cut) =>
        [P.BeginAppend(h, r.ops), if bytes >= SizeOf(r) then P.LandAll(h) else P.Land(h, bytes), P.FailAppend(h, cut)]
  }

  function AfterAppend(r: Record, fate: Fate, room: bool): (p: P.Phase)
    ensures p in {P.Ready, P.Done}
  {
    if Refused(r, room) || fate.Lands? then P.Ready else P.Done
  }

  function CompactEvents(h: nat, renames: Renames, free: bool): seq<P.Event> {
    match renames
    case NoBase => []
    case BaseOnly => [P.SwapBase(h), P.SwapLogFails(h)]
    case Both => [P.SwapBase(h), P.SwapLog(h), P.Install(h, free)]
  }

  lemma RunOne(s: P.State, es: seq<P.Event>, e: P.Event)
    requires P.Run(s, es).Some? && P.Enabled(P.Run(s, es).value, e)
    ensures P.Run(s, es + [e]) == Some(P.Apply(P.Run(s, es).value, e))
  {
    assert (es + [e])[..|es + [e]| - 1] == es;
  }

  lemma RunTwo(s: P.State, a: P.Event, b: P.Event)
    requires P.Enabled(s, a) && P.Enabled(P.Apply(s, a), b)
    ensures P.Run(s, [a, b]) == Some(P.Apply(P.Apply(s, a), b))
  {
    hide P.Apply, P.Enabled;
    assert [] + [a] == [a] && [a] + [b] == [a, b];
    RunOne(s, [], a);
    RunOne(s, [a], b);
  }

  lemma RunThree(s: P.State, a: P.Event, b: P.Event, c: P.Event)
    requires P.Enabled(s, a) && P.Enabled(P.Apply(s, a), b) && P.Enabled(P.Apply(P.Apply(s, a), b), c)
    ensures P.Run(s, [a, b, c]) == Some(P.Apply(P.Apply(P.Apply(s, a), b), c))
  {
    hide P.Apply, P.Enabled, P.Run;
    RunTwo(s, a, b);
    assert [a, b] + [c] == [a, b, c];
    RunOne(s, [a, b], c);
  }

  lemma {:induction false} RunJoins(s: P.State, a: seq<P.Event>, b: seq<P.Event>)
    requires P.Run(s, a).Some?
    ensures P.Run(s, a + b) == P.Run(P.Run(s, a).value, b)
    decreases |b|
  {
    hide P.Apply, P.Enabled;
    if b == [] {
      assert a + b == a;
    } else {
      RunJoins(s, a, b[..|b| - 1]);
      assert (a + b)[..|a + b| - 1] == a + b[..|b| - 1];
    }
  }

  predicate CanAppend(s: P.State, h: nat) {
    && h in s.handles && s.handles[h].phase == P.Ready && s.handles[h].served.Some?
    && s.disk.log.Log? && s.disk.log.torn == 0
  }

  /** A holder that can append where the log ends, and knows it. */
  predicate ReadyToAppend(s: P.State, h: nat) {
    && CanAppend(s, h) && s.handles[h].nextSeq > 0
    && s.handles[h].seen.stamp == Some(P.StampOf(s.disk))
    && s.handles[h].seen.walPos == LOG_HEADER_LEN + Bytes(s.disk.log.recs)
  }

  /** The log file after `bytes` bytes of a record reached it. */
  function Written(log: P.LogFile, r: Record, bytes: nat): (l: P.LogFile)
    requires log.Log?
    ensures l.Log? && l.id == log.id && l.gen == log.gen
  {
    if bytes >= SizeOf(r) then log.(recs := log.recs + [r], torn := 0) else log.(torn := bytes)
  }

  /** An append that lands: the files gain its record, the handle publishes it. */
  lemma LandsRun(s: P.State, h: nat, txn: Txn)
    requires CanAppend(s, h) && txn != []
    ensures var hd := s.handles[h];
            var r := Record(hd.nextSeq, txn);
            var end := P.Run(s, AppendEvents(h, r, Lands, true));
            SizeOf(r) <= MAX_RECORD ==>
              && end.Some? && end.value.handles == s.handles[h := P.PublishStep(hd.(phase := P.Appended(txn)))]
              && end.value.disk == s.disk.(log := Written(s.disk.log, r, SizeOf(r)))
              && end.value.nextId == s.nextId && end.value.hist == s.hist + [txn] && end.value.cuts == s.cuts
              && end.value.lock == s.lock
  {
    hide P.Run, P.PublishStep;
    RunThree(s, P.BeginAppend(h, txn), P.LandAll(h), P.Publish(h));
  }

  /** An append that fails: its bytes stay or are cut back, and the handle forgets its stamp. */
  lemma BreaksRun(s: P.State, h: nat, txn: Txn, bytes: nat, cut: bool)
    requires CanAppend(s, h) && txn != []
    ensures var hd := s.handles[h];
            var r := Record(hd.nextSeq, txn);
            var end := P.Run(s, AppendEvents(h, r, Breaks(bytes, cut), true));
            var log := Written(s.disk.log, r, bytes);
            SizeOf(r) <= MAX_RECORD ==>
              && end.Some?
              && end.value.handles == s.handles[h := hd.(seen := hd.seen.(stamp := None), phase := P.Done)]
              && end.value.disk == s.disk.(log := if cut then P.Truncate(log, hd.seen.walPos) else log)
              && end.value.nextId == s.nextId && end.value.cuts == s.cuts && end.value.lock == s.lock
  {
    hide P.Run, P.Truncate, P.Apply, P.Enabled, SizeOf;
    var r := Record(s.handles[h].nextSeq, txn);
    BeginDoes(s, h, txn);
    var s1 := P.Apply(s, P.BeginAppend(h, txn));
    var write := if bytes >= SizeOf(r) then P.LandAll(h) else P.Land(h, bytes);
    WriteDoes(s1, h, txn, bytes);
    FailDoes(P.Apply(s1, write), h, cut);
    RunThree(s, P.BeginAppend(h, txn), write, P.FailAppend(h, cut));
  }

  lemma BeginDoes(s: P.State, h: nat, txn: Txn)
    requires CanAppend(s, h) && txn != []
    ensures P.Enabled(s, P.BeginAppend(h, txn))
    ensures P.Apply(s, P.BeginAppend(h, txn)) == P.Put(s, h, s.handles[h].(phase := P.Appending(txn)))
  {
  }

  lemma WriteDoes(s: P.State, h: nat, txn: Txn, bytes: nat)
    requires h in s.handles && s.handles[h].phase == P.Appending(txn) && s.disk.log.Log? && s.disk.log.torn == 0
    ensures var hd := s.handles[h];
            var r := Record(hd.nextSeq, txn);
            var e := if bytes >= SizeOf(r) then P.LandAll(h) else P.Land(h, bytes);
            && P.Enabled(s, e)
            && var t := P.Apply(s, e);
               && t.disk == s.disk.(log := Written(s.disk.log, r, bytes))
               && t.handles == s.handles[h := hd.(phase := if bytes >= SizeOf(r) then P.Appended(txn) else hd.phase)]
               && t.nextId == s.nextId && t.cuts == s.cuts && t.lock == s.lock
  {
    hide SizeOf;
  }

  lemma FailDoes(s: P.State, h: nat, cut: bool)
    requires h in s.handles && (s.handles[h].phase.Appending? || s.handles[h].phase.Appended?) && s.disk.log.Log?
    ensures P.Enabled(s, P.FailAppend(h, cut))
    ensures var hd, t := s.handles[h], P.Apply(s, P.FailAppend(h, cut));
            && t.handles == s.handles[h := hd.(seen := hd.seen.(stamp := None), phase := P.Done)]
            && t.disk == s.disk.(log := if cut then P.Truncate(s.disk.log, hd.seen.walPos) else s.disk.log)
            && t.nextId == s.nextId && t.cuts == s.cuts && t.lock == s.lock
  {
    hide P.Truncate;
  }

  /** A compaction's events change only this handle and the files, and what they read back is
      what the handle served. */
  lemma CompactRun(s: P.State, h: nat, renames: Renames, free: bool)
    requires h in s.handles && s.handles[h].phase == P.Ready && s.handles[h].served.Some? && s.handles[h].nextSeq > 0
    ensures var hd := s.handles[h];
            var g := P.Max(hd.served.value.base.gen, hd.diskGen) + 1;
            var b := P.Base(g, hd.nextSeq - 1, P.ViewOps(hd.served.value));
            var end := P.Run(s, CompactEvents(h, renames, free));
            && end.Some? && end.value.hist == s.hist && end.value.lock == s.lock
            && match renames
               case NoBase => end.value == s
               case BaseOnly =>
                 && end.value.handles == s.handles[h := hd.(diskGen := g, phase := P.Done)]
                 && end.value.disk == s.disk.(base := b) && end.value.nextId == s.nextId
               case Both =>
                 && end.value.disk == P.Disk(b, P.Log(s.nextId, g, [], 0)) && end.value.nextId == s.nextId + 1
                 && end.value.handles == s.handles[h :=
                      P.InstallStep(hd.(diskGen := g, seen := P.NOTHING_SEEN, nextSeq := b.applied + 1, phase := P.LogSwapped),
                                    end.value.disk, free)]
  {
    hide P.Run, P.ViewOps, P.InstallStep, P.Apply, P.Enabled;
    SwapBaseDoes(s, h);
    var s1 := P.Apply(s, P.SwapBase(h));
    match renames
    case NoBase => NoRun(s);
    case BaseOnly =>
      SwapLogFailsDoes(s1, h);
      RunTwo(s, P.SwapBase(h), P.SwapLogFails(h));
    case Both =>
      SwapLogDoes(s1, h, free);
      RunThree(s, P.SwapBase(h), P.SwapLog(h), P.Install(h, free));
  }

  lemma SwapBaseDoes(s: P.State, h: nat)
    requires h in s.handles && s.handles[h].phase == P.Ready && s.handles[h].served.Some? && s.handles[h].nextSeq > 0
    ensures P.Enabled(s, P.SwapBase(h))
    ensures var hd, s' := s.handles[h], P.Apply(s, P.SwapBase(h));
            var g := P.Max(hd.served.value.base.gen, hd.diskGen) + 1;
            && s'.handles == s.handles[h := hd.(diskGen := g, phase := P.BaseSwapped)]
            && s'.disk == s.disk.(base := P.Base(g, hd.nextSeq - 1, P.ViewOps(hd.served.value)))
            && s'.hist == s.hist && s'.lock == s.lock && s'.nextId == s.nextId
  {
    hide P.ViewOps;
  }

  lemma SwapLogFailsDoes(s: P.State, h: nat)
    requires h in s.handles && s.handles[h].phase == P.BaseSwapped
    ensures P.Enabled(s, P.SwapLogFails(h))
    ensures P.Apply(s, P.SwapLogFails(h)) == P.Put(s, h, s.handles[h].(phase := P.Done))
  {
  }

  lemma SwapLogDoes(s: P.State, h: nat, free: bool)
    requires h in s.handles && s.handles[h].phase == P.BaseSwapped
    ensures P.Enabled(s, P.SwapLog(h))
    ensures var hd, s' := s.handles[h], P.Apply(s, P.SwapLog(h));
            && P.Enabled(s', P.Install(h, free))
            && var hd' := hd.(seen := P.NOTHING_SEEN, nextSeq := s.disk.base.applied + 1, phase := P.LogSwapped);
               var d' := s.disk.(log := P.Log(s.nextId, hd.diskGen, [], 0));
               P.Apply(s', P.Install(h, free)) ==
                 s.(handles := s.handles[h := P.InstallStep(hd', d', free)], disk := d', nextId := s.nextId + 1)
  {
    hide P.InstallStep;
  }

  /** Taking the lock and catching up: refused, or ready to append. */
  lemma LockRun(s: P.State, h: nat, free: bool)
    requires h in s.handles && s.handles[h].phase == P.Idle && s.handles[h].served.Some? && s.lock.None?
    ensures var hd := s.handles[h];
            var c := P.CatchUpLocked(hd, s.disk, free);
            var end := P.Run(s, [P.Acquire(h), P.Sync(h, free)]);
            && end.Some? && end.value.hist == s.hist && end.value.lock == Some(h)
            && (c.None? ==>
                  && end.value.handles == s.handles[h := hd.(phase := P.Held)]
                  && end.value.disk == s.disk && end.value.nextId == s.nextId)
            && (c.Some? && c.value.served.Some? ==>
                  var (hd', d') := P.Repair(c.value, s.disk, s.nextId);
                  && hd'.served.Some? && end.value.handles == s.handles[h := P.Adopt(hd').(phase := P.Ready)]
                  && end.value.disk == d' && end.value.nextId == s.nextId + 1)
  {
    hide P.Run;
    RunTwo(s, P.Acquire(h), P.Sync(h, free));
    CatchUpIgnoresPhase(s.handles[h], s.disk, free, P.Held, s.nextId);
  }

  lemma CatchUpIgnoresPhase(hd: P.Handle, d: P.Disk, free: bool, phase: P.Phase, id: nat)
    ensures var c, c' := P.CatchUpLocked(hd, d, free), P.CatchUpLocked(hd.(phase := phase), d, free);
            && c'.Some? == c.Some?
            && (c.Some? ==>
                  && c'.value == c.value.(phase := phase)
                  && var (a, b) := P.Repair(c.value, d, id);
                     P.Repair(c'.value, d, id) == (a.(phase := phase), b))
  {
    hide P.InstallOrApply, P.PublishAbove, RecordsFrom, Rising, Bytes, P.Truncate, P.StampOf;
  }

  /** A holder that is ready serves the whole history and takes the next numbers. */
  lemma ReadyServesAll(s: P.State, h: nat)
    requires I.Inv(s) && h in s.handles && s.handles[h].phase == P.Ready
    ensures ReadyToAppend(s, h)
    ensures s.handles[h].nextSeq == Count(s.hist) + 1
    ensures P.ViewOps(s.handles[h].served.value) == AllOps(s.hist)
  {
    hide I.SeenOk, I.ServedOk, Recs;
    assert I.HandleOk(s.hist, s.cuts, s.disk, s.nextId, s.handles[h]);
    Commits.ViewIsPrefix(s.hist, s.cuts, s.handles[h].served.value);
    assert AllOps(s.hist)[..Count(s.hist)] == AllOps(s.hist);
  }

  /** What a published record adds to the view. */
  lemma PublishShows(hd: P.Handle)
    requires hd.phase.Appended? && hd.served.Some? && hd.nextSeq > 0
    ensures P.ViewOps(P.PublishStep(hd).served.value) == P.ViewOps(hd.served.value) + hd.phase.txn
  {
    hide Above, Entries;
    PublishedAll(P.Pending(hd));
    OpsOfSplit(hd.served.value.overlay, RecordEntries(P.Pending(hd)));
  }

  lemma OpsOfSplit(a: seq<Entry>, b: seq<Entry>)
    ensures OpsOf(a + b) == OpsOf(a) + OpsOf(b)
  {
  }

  lemma ReleaseRun(s: P.State, es: seq<P.Event>, h: nat)
    requires P.Run(s, es).Some?
    requires var t := P.Run(s, es).value; h in t.handles && t.handles[h].phase in {P.Held, P.Ready, P.Done}
    ensures var t := P.Run(s, es).value;
            P.Run(s, es + [P.Release(h)]) == Some(P.Put(t, h, t.handles[h].(phase := P.Idle)).(lock := None))
  {
    hide P.Run;
    RunOne(s, es, P.Release(h));
  }

  lemma NoRun(s: P.State)
    ensures P.Run(s, []) == Some(s)
  {
  }

  // ---- the handle ---------------------------------------------------------------------------

  predicate HasFree(current: nat, pinned: set<nat>) {
    exists i :: 0 <= i < GEN_SLOTS && i != current && i !in pinned
  }

  class Store {
    const dir: Directory
    /** The ring: one generation a slot. */
    const gens: array<Option<P.Served>>
    var current: nat
    var seen: P.Seen
    var nextSeq: nat
    var diskGeneration: nat
    /** The log file kept open for appending, by inode. */
    var walFile: Option<nat>
    var opsSinceCompact: nat
    var walBytes: nat
    var due: bool
    /** The pending transaction. */
    var staged: Txn

    ghost predicate Valid()
      reads this, gens
    {
      && gens.Length == GEN_SLOTS && current < GEN_SLOTS && gens[current].Some?
      && (walFile.Some? ==>
            seen.stamp.Some? && seen.stamp.value.wal.Some? && seen.stamp.value.wal.value.id == walFile.value)
    }

    ghost function Served(): P.Served
      reads this, gens
      requires Valid()
    {
      gens[current].value
    }

    /** The handle as the protocol sees it between calls. */
    ghost function View(): P.Handle
      reads this, gens
      requires Valid()
    {
      P.Handle(gens[current], seen, nextSeq, diskGeneration, P.Idle)
    }

    /** Open a store from a series of reads of its files; the files were examined first. */
    constructor (d: Directory, stamp: P.Stamp, built: P.Outcome, gen: nat)
      requires built.Applied?
      ensures Valid() && dir == d && fresh(gens) && Served() == built.served
      ensures View() == P.Adopt(P.Handle(Some(built.served), P.Seen(Some(stamp), built.pos, built.current, gen), 1, 0, P.Idle))
    {
      dir := d;
      gens := new Option<P.Served>[GEN_SLOTS](i => if i == 0 then Some(built.served) else None);
      current := 0;
      seen := P.Seen(Some(stamp), built.pos, built.current, gen);
      nextSeq := P.LastSeq(built.served) + 1;
      diskGeneration := gen;
      walFile := None;
      opsSinceCompact := |built.served.overlay|;
      walBytes := built.pos;
      due := false;
      staged := [];
    }

    /** Put a generation into a ring slot no snapshot pins, and serve it. */
    method Install(g: P.Served, pinned: set<nat>) returns (ok: bool)
      requires Valid()
      modifies this`current, gens
      ensures Valid() && ok == HasFree(old(current), pinned)
      ensures ok ==>
        && current != old(current) && current !in pinned && gens[current] == Some(g)
        && forall i :: 0 <= i < GEN_SLOTS && i != current ==> gens[i] == old(gens[i])
      ensures !ok ==> unchanged(this, gens)
    {
      var i := 0;
      while i < GEN_SLOTS
        invariant 0 <= i <= GEN_SLOTS && unchanged(this, gens)
        invariant forall j :: 0 <= j < i ==> j == current || j in pinned
      {
        if i != current && i !in pinned {
          gens[i] := Some(g);
          current := i;
          return true;
        }
        i := i + 1;
      }
      return false;
    }

    /** Publish the ops of a run of records the served generation has not seen, if the arena
        has room for them. */
    method PublishNew(recs: seq<Record>, room: bool) returns (r: Result<bool>)
      requires Valid()
      modifies gens
      ensures Valid()
      ensures var was, next := old(Served()), P.PublishAbove(old(Served()), recs);
              if room || next == was then r == Ok(next != was) && Served() == next
              else r == Err(Busy) && unchanged(gens)
      ensures forall i :: 0 <= i < GEN_SLOTS && i != current ==> gens[i] == old(gens[i])
      ensures Served() == old(Served()) || Moved(old(Served()), Served())
    {
      hide Above, Entries;
      var v := gens[current].value;
      var more := OpsAbove(recs, P.LastSeq(v));
      if more == [] {
        assert P.PublishAbove(v, recs) == v;
        return Ok(false);
      }
      if !room {
        return Err(Busy);
      }
      gens[current] := Some(v.(overlay := v.overlay + more));
      return Ok(true);
    }

    /** Same generation: publish new records. Else rebuild and install; with every slot
        pinned, publish the new base's log over the served one if that loses nothing. */
    method InstallOrApply(b: P.Base, log: P.LogFile, pinned: set<nat>, room: bool) returns (r: Result<Option<Applied>>)
      requires Valid()
      modifies this`current, gens
      ensures Valid()
      ensures var o := LoadOne(Some(old(Served())), b, log, HasFree(old(current), pinned), room);
              match o
              case Applied(v, pos, cur) => r == Ok(Some(Applied(v != old(Served()), pos, cur))) && Served() == v
              case ReRead => r == Ok(None) && unchanged(this, gens)
              case Refused => r == Err(Busy) && unchanged(this, gens)
              case Corrupt => r == Err(Corrupt) && unchanged(this, gens)
      ensures Served() == old(Served()) || Moved(old(Served()), Served())
    {
      hide P.PublishAbove, Above, Entries, P.LastSeq, HasFree, Rising;
      var v := gens[current].value;
      if v.base.gen == b.gen {
        if log.Missing? || log.gen < b.gen {
          return Ok(Some(Applied(false, LOG_HEADER_LEN, false)));
        } else if log.gen > b.gen {
          return Ok(None);
        } else if !Rising(log.recs) {
          return Err(Corrupt);
        }
        PublishesOps(v, log.recs);
        var published := PublishNew(log.recs, room);
        if published.Err? {
          return Err(published.error);
        }
        return Ok(Some(Applied(published.value, LOG_HEADER_LEN + Bytes(log.recs), true)));
      }
      if log.Log? && log.gen > b.gen {
        return Ok(None);
      }
      var current' := log.Log? && log.gen == b.gen;
      if current' && !Rising(log.recs) {
        return Err(Corrupt);
      }
      var overlay: seq<Entry> := [];
      if current' {
        overlay := OpsAbove(log.recs, b.applied);
        if overlay != [] && !room {
          return Err(Busy);
        }
      }
      var pos := if log.Missing? then 0 else if current' then LOG_HEADER_LEN + Bytes(log.recs) else LOG_HEADER_LEN;
      var changed := Install(P.Served(b, overlay), pinned);
      if !changed {
        if b.applied > P.LastSeq(v) {
          return Err(Busy);
        }
        if overlay != [] {
          var published := PublishNew(log.recs, room);
          changed := published.value;
        }
      }
      return Ok(Some(Applied(changed, pos, current')));
    }

    /** Read both files, again while a compaction shows between its renames. */
    method ReloadFull(locked: bool, looks: seq<Read>, pinned: set<nat>, room: bool) returns (r: Result<(Applied, nat)>)
      requires Valid() && |looks| == P.RACE_RETRIES
      requires locked ==> forall i :: 0 <= i < |looks| ==> looks[i] == looks[0]
      modifies this`current, gens
      ensures Valid()
      ensures var (o, gen) := Loads(Some(old(Served())), looks, HasFree(old(current), pinned), room);
              if o.Applied? then r == Ok((Applied(o.served != old(Served()), o.pos, o.current), gen)) && Served() == o.served
              else r.Err? && unchanged(this, gens) && (o.Refused? ==> r == Err(Busy))
      ensures Served() == old(Served()) || Moved(old(Served()), Served())
      ensures r.Err? ==> r.error == Corrupt || r.error == Busy
    {
      hide LoadOne, Moved;
      ghost var free := HasFree(current, pinned);
      var i := 0;
      while i < P.RACE_RETRIES
        invariant 0 <= i <= P.RACE_RETRIES && Valid() && unchanged(this, gens)
        invariant Loads(Some(Served()), looks, free, room) == Loads(Some(Served()), looks[i..], free, room)
      {
        assert looks[i..][0] == looks[i] && looks[i..][1..] == looks[i + 1..];
        var slot := current;
        var a := InstallOrApply(looks[i].base, looks[i].log, pinned, room);
        if a.Err? {
          return Err(a.error);
        } else if a.value.Some? {
          return Ok((a.value.value, looks[i].base.gen));
        } else if locked {
          LoadsOnce(Some(Served()), looks, free, room, P.Disk(looks[0].base, looks[0].log));
          return Err(Corrupt);
        }
        i := i + 1;
      }
      return Err(Busy);
    }

    /** Compare the files with what was last seen of them, and read only what changed. The
        directory is as it was examined; `looks` are what full reads find after that. */
    method CatchUp(locked: bool, looks: seq<Read>, pinned: set<nat>, room: bool) returns (r: Result<(bool, Caught)>)
      requires Valid() && |looks| == P.RACE_RETRIES
      requires locked ==> forall i :: 0 <= i < |looks| ==> looks[i] == Read(dir.disk.base, dir.disk.log)
      modifies this`current, this`seen, this`walFile, gens
      ensures Valid()
      ensures var hd, free := old(View()), HasFree(old(current), pinned);
              match P.Compare(hd, dir.disk)
              case Unchanged => r == Ok((false, Nothing)) && unchanged(this, gens)
              case Tail(v, _) =>
                if room || hd.served == Some(v) then
                  && r.Ok? && r.value.1 == Tail && walFile == old(walFile)
                  && View() == P.TakeTail(hd, P.StampOf(dir.disk), P.Compare(hd, dir.disk))
                else r == Err(Busy) && unchanged(this, gens)
              case Bad => r == Err(Corrupt) && unchanged(this, gens)
              case Full =>
                var (o, gen) := Loads(hd.served, looks, free, room);
                if o.Applied? then
                  && r.Ok? && r.value.1 == Full && walFile == None
                  && gens[current] == Some(o.served)
                  && View() == hd.(served := Some(o.served), seen := P.Seen(Some(P.StampOf(dir.disk)), o.pos, o.current, gen))
                else r.Err? && unchanged(this, gens) && (o.Refused? ==> r == Err(Busy))
      ensures Served() == old(Served()) || Moved(old(Served()), Served())
      ensures r.Ok? ==> (r.value.0 <==> Served() != old(Served()))
      ensures r.Err? ==> r.error == Corrupt || r.error == Busy
    {
      hide P.PublishAbove, Loads, RecordsFrom, Bytes, HasFree, Rising;
      var now := P.StampOf(dir.disk);
      if seen.stamp == Some(now) {
        return Ok((false, Nothing));
      }
      if
        && seen.stamp.Some? && now.wal.Some? && seen.stamp.value.wal.Some?
        && now.base == seen.stamp.value.base
        && now.wal.value.id == seen.stamp.value.wal.value.id
        && now.wal.value.len >= seen.walPos >= LOG_HEADER_LEN
      {
        var tail := RecordsFrom(dir.disk.log.recs, seen.walPos - LOG_HEADER_LEN);
        if !Rising(tail) {
          return Err(Corrupt);
        }
        var published := PublishNew(tail, room);
        if published.Err? {
          return Err(published.error);
        }
        seen := seen.(stamp := Some(now), walPos := seen.walPos + Bytes(tail));
        return Ok((published.value, Tail));
      }
      ghost var was := Served();
      var a := ReloadFull(locked, looks, pinned, room);
      if a.Err? {
        return Err(a.error);
      }
      var (applied, gen) := a.value;
      seen := P.Seen(Some(now), applied.pos, applied.current, gen);
      walFile := None;
      return Ok((applied.changed, Full));
    }

    /** Under the commit lock: a missing or older log gets a header for the served base, a
        torn tail is cut back to the last record consumed. */
    method Repair()
      requires Valid()
      modifies this`seen, this`walFile, dir
      ensures Valid() && (View(), dir.disk) == P.Repair(old(View()), old(dir.disk), old(dir.nextId))
      ensures dir.nextId == old(dir.nextId) + 1
    {
      hide P.Truncate, P.LogLen;
      var id := dir.nextId;
      dir.nextId := id + 1;
      if !seen.logCurrent {
        dir.disk := dir.disk.(log := P.Log(id, seen.baseGen, [], 0));
        seen := P.Seen(Some(P.StampOf(dir.disk)), LOG_HEADER_LEN, true, seen.baseGen);
        walFile := None;
      } else if dir.disk.log.Log? && seen.stamp.Some? && seen.stamp.value.wal.Some? {
        var s := seen.stamp.value;
        if s.wal.value.len > seen.walPos {
          dir.disk := dir.disk.(log := P.Truncate(dir.disk.log, seen.walPos));
          seen := seen.(stamp := Some(s.(wal := Some(s.wal.value.(len := seen.walPos)))));
        }
      }
    }

    /** The write counters advance to what the served generation holds. */
    method Adopt()
      requires Valid()
      modifies this`nextSeq, this`diskGeneration, this`opsSinceCompact, this`walBytes
      ensures Valid() && View() == P.Adopt(old(View()))
      ensures opsSinceCompact == |Served().overlay| && walBytes == seen.walPos
    {
      var v := gens[current].value;
      nextSeq := P.Max(nextSeq, P.LastSeq(v) + 1);
      opsSinceCompact := |v.overlay|;
      walBytes := seen.walPos;
      diskGeneration := P.Max(diskGeneration, seen.baseGen);
    }

    /** Catch up without the lock: the files may change between the reads. */
    method SyncUnlocked(looks: seq<Read>, pinned: set<nat>, room: bool) returns (r: Result<bool>)
      requires Valid() && |looks| == P.RACE_RETRIES
      modifies this, gens
      ensures Valid()
      ensures r.Ok? || room ==> View() == Observe(old(View()), dir.disk, looks, HasFree(old(current), pinned))
      ensures r.Ok? <==> Observes(old(View()), dir.disk, looks, HasFree(old(current), pinned), room)
      ensures Served() == old(Served()) || Moved(old(Served()), Served())
      ensures r.Ok? ==> (r.value <==> Served() != old(Served()))
      ensures (P.Compare(old(View()), dir.disk).Full?
               && Loads(old(gens[current]), looks, HasFree(old(current), pinned), room).0.Refused?) ==> r == Err(Busy)
      ensures r.Err? ==> View() == old(View())
    {
      LoadsWithRoom(gens[current], looks, HasFree(current, pinned), room);
      hide P.Compare, Loads, LoadSteps, HasFree, P.StampOf;
      ghost var hd, free := View(), HasFree(current, pinned);
      ghost var c := P.Compare(hd, dir.disk);
      if c.Full? {
        StepsAreLoads(hd.(phase := P.Reading(P.StampOf(dir.disk), None, P.RACE_RETRIES)), P.StampOf(dir.disk), looks, free);
      } else {
        IdleStays(P.StatStep(hd, dir.disk), looks, free);
      }
      var a := CatchUp(false, looks, pinned, room);
      if a.Err? {
        return Err(a.error);
      }
      if a.value.1 == Nothing {
        return Ok(false);
      }
      Adopt();
      return Ok(a.value.0);
    }

    /** Pick up other handles' work: nothing while this handle's own writer is `busy`, else a
        catch-up without the lock. Over files that stay as they are it comes to serve the whole
        history, unless every slot is pinned and the base on disk holds ops it does not serve,
        or its stamp is an alias of the files; and it reports exactly whether what it serves
        changed. */
    method ReloadIfStale(busy: bool, looks: seq<Read>, pinned: set<nat>, room: bool, ghost s: P.State, ghost h: nat)
      returns (r: Result<bool>)
      requires Valid() && Mirrors(s, h, P.Idle) && I.Inv(s) && |looks| == P.RACE_RETRIES
      modifies this, gens
      ensures Valid()
      ensures busy ==> r == Ok(false) && unchanged(this, gens)
      ensures !busy && Commits.Aliased(old(View()), dir.disk) ==> r == Ok(false) && View() == old(View())
      ensures r.Ok? ==> (r.value <==> Served().base.gen != old(Served()).base.gen || P.ViewOps(Served()) != old(P.ViewOps(Served())))
      ensures r.Err? ==> View() == old(View())
      ensures !busy && Quiet(looks, dir.disk) && !Commits.Aliased(old(View()), dir.disk) ==>
                && (r.Ok? ==> P.ViewOps(Served()) == AllOps(s.hist))
                && (r.Err? <==> OutOfSlots(old(Served()), dir.disk.base, HasFree(old(current), pinned))
                                || Cramped(old(View()), dir.disk, s.hist, room))
                && (room && r.Err? ==> r == Err(Busy))
    {
      hide P.Compare, LoadSteps, Loads, HasFree, P.StampOf, Observe, Commits.Aliased, I.Inv, P.ViewOps, AllOps, Quiet,
        OutOfSlots, Cramped, I.HandleOk, Observes;
      if busy {
        return Ok(false);
      }
      if Quiet(looks, dir.disk) && !Commits.Aliased(View(), dir.disk) {
        LoadsWithRoom(gens[current], looks, HasFree(current, pinned), room);
        QuietCatchUp(s, h, looks, HasFree(current, pinned));
        KnownHandle(s, h);
        QuietObserves(s, s.handles[h], looks, HasFree(current, pinned), room);
      }
      AliasHides(View(), dir.disk, looks, HasFree(current, pinned), room);
      r := SyncUnlocked(looks, pinned, room);
      if Served() != old(Served()) { MovedShows(old(Served()), Served()); }
    }

    /** Catch up and repair under the commit lock, where nobody else touches the files. */
    method SyncLocked(pinned: set<nat>, room: bool) returns (r: Result<bool>)
      requires Valid()
      modifies this, gens, dir
      ensures Valid()
      ensures var c := P.CatchUpLocked(old(View()), old(dir.disk), HasFree(old(current), pinned));
              && (r.Ok? <==> c.Some? && !Blocked(old(View()), old(dir.disk), room))
              && (r.Err? ==> unchanged(this, gens, dir))
              && (r.Ok? ==>
                    var (hd, d) := P.Repair(c.value, old(dir.disk), old(dir.nextId));
                    && c.value.served.Some?
                    && hd.served.Some? && View() == P.Adopt(hd) && dir.disk == d
                    && dir.nextId == old(dir.nextId) + 1
                    && (r.value <==> Served() != old(Served())))
      ensures r.Ok? ==> opsSinceCompact == |Served().overlay| && walBytes == seen.walPos
      ensures staged == old(staged) && (r.Err? ==> r.error == Corrupt || r.error == Busy)
    {
      hide P.Compare, Loads, P.Adopt, HasFree, P.Repair;
      ghost var hd, free := View(), HasFree(current, pinned);
      var look := Read(dir.disk.base, dir.disk.log);
      var looks := seq(P.RACE_RETRIES, _ => look);
      LoadsOnce(hd.served, looks, free, room, dir.disk);
      var a := CatchUp(true, looks, pinned, room);
      if a.Err? {
        return Err(a.error);
      }
      Repair();
      Adopt();
      return Ok(a.value.0);
    }

    // ---- committing ---------------------------------------------------------------------------

    /** The handle and the directory are handle `h` and the files of `s`. */
    ghost predicate Mirrors(s: P.State, h: nat, phase: P.Phase)
      reads this, gens, dir
      requires Valid()
    {
      h in s.handles && s.handles[h] == View().(phase := phase) && s.disk == dir.disk && s.nextId == dir.nextId
    }

    /** Append `bytes` bytes of a record through the open log file, wherever that is now. */
    method Write(r: Record, bytes: nat)
      requires walFile.Some?
      modifies dir
      ensures dir.nextId == old(dir.nextId)
      ensures old(dir.disk.log.Log? && walFile.value == dir.disk.log.id) ==>
                dir.disk == old(dir.disk).(log := Written(old(dir.disk.log), r, bytes))
      ensures !old(dir.disk.log.Log? && walFile.value == dir.disk.log.id) ==> dir.disk == old(dir.disk)
    {
      if dir.disk.log.Log? && walFile.value == dir.disk.log.id {
        dir.disk := dir.disk.(log := Written(dir.disk.log, r, bytes));
      }
    }

    /** Account for an append that landed, then publish its record. */
    method Account(rec: Record)
      requires Valid() && rec.first > 0 && rec == Record(nextSeq, staged)
      requires seen.stamp.Some? && seen.stamp.value.wal.Some?
      modifies this, gens
      ensures Valid() && View() == P.PublishStep(old(View()).(phase := P.Appended(rec.ops))).(phase := P.Idle)
      ensures staged == [] && due == old(due) && walFile == old(walFile) && current == old(current)
      ensures opsSinceCompact == old(opsSinceCompact) + |rec.ops| && walBytes == old(walBytes) + SizeOf(rec)
    {
      hide Above, Entries, SizeOf;
      seen := seen.(walPos := seen.walPos + SizeOf(rec));
      var at := seen.stamp.value;
      seen := seen.(stamp := Some(at.(wal := Some(at.wal.value.(len := at.wal.value.len + SizeOf(rec))))));
      walBytes := walBytes + SizeOf(rec);
      nextSeq := nextSeq + |staged|;
      opsSinceCompact := opsSinceCompact + |staged|;
      staged := [];
      var v := gens[current].value;
      var entries := OpsAbove([rec], rec.first - 1);
      gens[current] := Some(v.(overlay := v.overlay + entries));
    }

    /** Cut a failed append back off, if that can be done, and forget the log's stamp. */
    method GiveUp(cut: bool)
      requires Valid()
      modifies this`walFile, this`seen, dir
      ensures Valid() && walFile == None && View() == old(View()).(seen := old(seen).(stamp := None))
      ensures dir.nextId == old(dir.nextId)
      ensures dir.disk == if cut && old(dir.disk.log.Log?) then
                old(dir.disk).(log := P.Truncate(old(dir.disk.log), seen.walPos)) else old(dir.disk)
    {
      hide P.Truncate;
      walFile := None;
      if cut && dir.disk.log.Log? {
        dir.disk := dir.disk.(log := P.Truncate(dir.disk.log, seen.walPos));
      }
      seen := seen.(stamp := None);
    }

    /** Append the staged transaction as one record, and publish it. `fate` is what becomes
        of the write, `room` whether the overlay arena could be grown for it. */
    method AppendHeld(fate: Fate, room: bool, ghost s: P.State, ghost h: nat) returns (r: Result<nat>)
      requires Valid() && Mirrors(s, h, P.Ready) && CanAppend(s, h) && staged != []
      requires nextSeq > 0 && seen.stamp == Some(P.StampOf(dir.disk))
      modifies this, gens, dir
      ensures Valid()
      ensures var rec := Record(old(nextSeq), old(staged));
              && P.Run(s, AppendEvents(h, rec, fate, room)).Some?
              && Mirrors(P.Run(s, AppendEvents(h, rec, fate, room)).value, h, AfterAppend(rec, fate, room))
              && (r.Ok? <==> fate.Lands? && !Refused(rec, room))
      ensures r.Ok? ==> r.value == nextSeq - 1 && staged == []
      ensures r.Ok? ==>
                && opsSinceCompact == old(opsSinceCompact) + |old(staged)|
                && walBytes == old(walBytes) + SizeOf(Record(old(nextSeq), old(staged)))
      ensures r.Err? ==> staged == old(staged)
      ensures r == Err(Io) <==> fate.Breaks? && !Refused(Record(old(nextSeq), old(staged)), room)
      ensures r.Err? && r != Err(Io) ==>
                r.error == if SizeOf(Record(old(nextSeq), old(staged))) > MAX_RECORD then TooLarge else Busy
      ensures due == old(due) && current == old(current)
    {
      hide P.Run, P.Truncate, P.LogLen, Above, Entries, AppendEvents, SizeOf, Written;
      var rec := Record(nextSeq, staged);
      if Refused(rec, room) {
        NoEvents(s, h, rec, fate, room);
        return Err(if SizeOf(rec) > MAX_RECORD then TooLarge else Busy);
      }
      if walFile.None? {
        walFile := Some(dir.disk.log.id);
      }
      if fate.Breaks? {
        BreaksRun(s, h, staged, fate.bytes, fate.cut);
        Write(rec, fate.bytes);
        GiveUp(fate.cut);
        return Err(Io);
      }
      LandsRun(s, h, staged);
      Write(rec, SizeOf(rec));
      Account(rec);
      return Ok(nextSeq - 1);
    }

    // ---- compacting ---------------------------------------------------------------------------

    /** The second rename: an empty log for the new base, and nothing known of the old one. */
    method ReplaceLog(g: nat, next: nat)
      requires Valid()
      modifies this`nextSeq, this`opsSinceCompact, this`walBytes, this`walFile, this`seen, this`due, dir
      ensures Valid() && View() == old(View()).(seen := P.NOTHING_SEEN, nextSeq := next) && walFile == None && !due
      ensures dir.disk == old(dir.disk).(log := P.Log(old(dir.nextId), g, [], 0)) && dir.nextId == old(dir.nextId) + 1
    {
      dir.disk := dir.disk.(log := P.Log(dir.nextId, g, [], 0));
      dir.nextId := dir.nextId + 1;
      nextSeq, opsSinceCompact, walBytes, walFile := next, 0, LOG_HEADER_LEN, None;
      seen, due := P.NOTHING_SEEN, false;
    }

    /** Fold what is served into a base of a new generation: rename the base into place, then
        an empty log, then install, keeping the served generation if every slot is pinned. */
    method CompactLocked(renames: Renames, pinned: set<nat>, ghost s: P.State, ghost h: nat) returns (r: Result<nat>)
      requires Valid() && Mirrors(s, h, P.Ready) && nextSeq > 0
      modifies this, gens, dir
      ensures Valid() && staged == old(staged)
      ensures var free := HasFree(old(current), pinned);
              var end := P.Run(s, CompactEvents(h, renames, free));
              && end.Some? && Mirrors(end.value, h, if renames.NoBase? then P.Ready else P.Done)
              && (r.Ok? <==> renames.Both? && free)
      ensures P.ViewOps(Served()) == old(P.ViewOps(Served()))
      ensures nextSeq == old(nextSeq) && (due <==> old(due) && !renames.Both?)
      ensures r.Ok? ==> r.value == dir.disk.base.gen && Served() == P.Served(dir.disk.base, [])
    {
      hide P.Run, P.ViewOps, CompactEvents, HasFree, P.StampOf, P.LastSeq, P.Max;
      CompactRun(s, h, renames, HasFree(current, pinned));
      var v := gens[current].value;
      var g := P.Max(v.base.gen, diskGeneration) + 1;
      var b := P.Base(g, nextSeq - 1, P.ViewOps(v));
      BaseShows(b);
      if renames.NoBase? {
        return Err(Io);
      }
      dir.disk := dir.disk.(base := b);
      diskGeneration := g;
      if renames.BaseOnly? {
        return Err(Io);
      }
      ReplaceLog(g, b.applied + 1);
      var installed := Install(P.Served(b, []), pinned);
      if !installed {
        return Err(Busy);
      }
      seen := P.Seen(Some(P.StampOf(dir.disk)), LOG_HEADER_LEN, true, g);
      return Ok(g);
    }

    /** Nothing but the base on disk is served, and its log is empty. */
    ghost predicate Compacted()
      reads this, gens, dir
      requires Valid()
    {
      Served() == P.Served(dir.disk.base, []) && P.LogRecs(dir.disk.log) == []
    }

    /** What a commit does after its record is durable: compact past the limits, or leave a
        compaction due. */
    method CompactPastLimits(renames: Renames, pinned: set<nat>, limits: Thresholds, ghost s: P.State, ghost h: nat)
      returns (ghost es: seq<P.Event>)
      requires Valid() && Mirrors(s, h, P.Ready) && nextSeq > 0
      modifies this, gens, dir
      ensures Valid() && staged == old(staged) && nextSeq == old(nextSeq)
      ensures P.Run(s, es).Some?
      ensures var end := P.Run(s, es).value;
              (Mirrors(end, h, P.Ready) || Mirrors(end, h, P.Done)) && end.hist == s.hist && end.lock == s.lock
      ensures P.ViewOps(Served()) == old(P.ViewOps(Served()))
      ensures es == Folds(Past(limits, old(opsSinceCompact), old(walBytes)), limits.inline, h, renames, HasFree(old(current), pinned))
      ensures Past(limits, old(opsSinceCompact), old(walBytes)) ==>
                (due <==> !(limits.inline && renames.Both? && HasFree(old(current), pinned)))
      ensures Past(limits, old(opsSinceCompact), old(walBytes)) ==> due || Compacted()
      ensures !Past(limits, old(opsSinceCompact), old(walBytes)) ==> unchanged(this, gens, dir)
    {
      hide P.Run, CompactEvents, HasFree, P.ViewOps, P.StampOf;
      es := [];
      NoRun(s);
      if opsSinceCompact >= limits.ops || walBytes >= limits.bytes {
        if limits.inline {
          CompactRun(s, h, renames, HasFree(current, pinned));
          es := CompactEvents(h, renames, HasFree(current, pinned));
          var c := CompactLocked(renames, pinned, s, h);
          if c.Err? {
            due := true;
          }
        } else {
          due := true;
        }
      }
    }

    /** Commit with the lock held and the handle caught up: nothing when nothing is staged, else
        append, publish and compact past the limits. */
    method CommitHeld(fate: Fate, room: bool, renames: Renames, pinned: set<nat>, limits: Thresholds,
                      ghost s: P.State, ghost h: nat) returns (r: Result<nat>, ghost es: seq<P.Event>)
      requires Valid() && Mirrors(s, h, P.Ready) && ReadyToAppend(s, h)
      modifies this, gens, dir
      ensures Valid() && P.Run(s, es).Some?
      ensures var end := P.Run(s, es).value;
              && (Mirrors(end, h, P.Ready) || Mirrors(end, h, P.Done)) && end.lock == s.lock
              && end.hist == if Enters(r, old(staged), fate) then s.hist + [old(staged)] else s.hist
      ensures r.Ok? <==> old(staged) == [] || GoesThrough(old(staged), fate, room)
      ensures r == Err(Io) <==> old(staged) != [] && !Refused(Record(0, old(staged)), room) && fate.Breaks?
      ensures r.Ok? ==> staged == [] && r.value == old(nextSeq) + |old(staged)| - 1
      ensures r.Ok? ==> P.ViewOps(Served()) == old(P.ViewOps(Served())) + old(staged)
      ensures r.Err? ==> staged == old(staged)
      ensures old(staged) == [] ==> es == []
      ensures r.Err? && r != Err(Io) ==> r.error == if RecordSize(old(staged)) > MAX_RECORD then TooLarge else Busy
      ensures var txn, free := old(staged), HasFree(old(current), pinned);
              var past := Past(limits, old(opsSinceCompact) + |txn|, old(walBytes) + RecordSize(txn));
              var rec := Record(old(nextSeq), txn);
              if GoesThrough(txn, fate, room) then
                Follows(es, h, rec, room, past, limits.inline, renames, free, due, Compacted())
              else es == if txn == [] then [] else AppendEvents(h, rec, fate, room)
    {
      hide P.Run, AppendEvents, HasFree, P.ViewOps, P.PublishStep, P.StampOf, SizeOf, RecordSize, AllOps, Count;
      es := [];
      NoRun(s);
      if staged == [] {
        assert P.ViewOps(Served()) + [] == P.ViewOps(Served());
        return Ok(nextSeq - 1), es;
      }
      ghost var rec := Record(nextSeq, staged);
      SizeOfOps(rec);
      r := AppendHeld(fate, room, s, h);
      es := AppendEvents(h, rec, fate, room);
      if r.Err? {
        AppendKeepsLock(s, h, rec, fate, room);
        BrokenHistory(s, h, rec, fate, room);
        assert es + [] == es;
      } else {
        LandsRun(s, h, rec.ops);
        LandedShows(s, h, rec.ops);
        ghost var folds := CompactPastLimits(renames, pinned, limits, P.Run(s, es).value, h);
        RunJoins(s, es, folds);
        es := es + folds;
      }
    }

    /** Stage `more` on top of the ops already staged and commit them all, if the caller goes
        through with it; on any error only `more` is dropped. */
    method CommitMore(more: Txn, agreed: bool, fate: Fate, room: bool, renames: Renames, pinned: set<nat>,
                      limits: Thresholds, ghost s: P.State, ghost h: nat) returns (r: Result<nat>, ghost es: seq<P.Event>)
      requires Valid() && Mirrors(s, h, P.Ready) && ReadyToAppend(s, h)
      modifies this, gens, dir
      ensures Valid() && P.Run(s, es).Some?
      ensures var end, txn := P.Run(s, es).value, old(staged) + more;
              && (Mirrors(end, h, P.Ready) || Mirrors(end, h, P.Done)) && end.lock == s.lock
              && end.hist == if Enters(r, txn, fate) then s.hist + [txn] else s.hist
      ensures var txn := old(staged) + more;
              && (r.Ok? <==> agreed && (txn == [] || GoesThrough(txn, fate, room)))
              && (r == Err(Io) <==> agreed && txn != [] && !Refused(Record(0, txn), room) && fate.Breaks?)
              && (r == Err(Aborted) <==> !agreed)
              && (r.Ok? ==> staged == [] && r.value == old(nextSeq) + |txn| - 1)
              && (r.Ok? ==> P.ViewOps(Served()) == old(P.ViewOps(Served())) + txn)
              && (!agreed || txn == [] ==> es == [])
              && (r.Ok? && txn != [] ==>
                    var past := Past(limits, old(opsSinceCompact) + |txn|, old(walBytes) + RecordSize(txn));
                    Follows(es, h, Record(old(nextSeq), txn), room, past, limits.inline, renames, HasFree(old(current), pinned),
                            due, Compacted()))
      ensures r.Err? ==> staged == old(staged)
    {
      hide P.Run, HasFree, P.ViewOps, RecordSize, ReadyToAppend, Refused, Follows, Past, AppendEvents, CompactEvents, P.StampOf;
      NoRun(s);
      var mark := |staged|;
      staged := staged + more;
      es := [];
      if agreed {
        r, es := CommitHeld(fate, room, renames, pinned, limits, s, h);
      } else {
        r := Err(Aborted);
      }
      if r.Err? {
        staged := staged[..mark];
      }
    }

    /** A transaction: lock, catch up, stage `more` on top of the ops already staged, commit
        them all, unlock. `agreed` is whether the caller goes through with it, `syncRoom`
        whether the overlay arena can be grown for what the catch-up finds. Whatever happens,
        it is a run of the protocol. An error leaves staged what was staged before, and the
        history as it was, unless the write broke after the whole record landed and could not
        be cut back: then the transaction is committed. */
    method Transact(more: Txn, agreed: bool, fate: Fate, syncRoom: bool, room: bool, renames: Renames,
                    pinned: set<nat>, limits: Thresholds, ghost s: P.State, ghost h: nat)
      returns (r: Result<nat>, ghost es: seq<P.Event>)
      requires Valid() && Mirrors(s, h, P.Idle) && s.lock.None? && I.Inv(s)
      modifies this, gens, dir
      ensures Valid() && P.Run(s, es).Some? && Mirrors(P.Run(s, es).value, h, P.Idle) && P.Run(s, es).value.lock.None?
      ensures var txn := old(staged) + more;
              P.Run(s, es).value.hist == if Enters(r, txn, fate) then s.hist + [txn] else s.hist
      ensures r.Ok? ==> agreed && staged == []
      ensures r.Ok? ==> Shows(old(View()), old(dir.disk), old(staged) + more, P.Run(s, es).value.hist, View(), r.value)
      ensures r.Err? ==> staged == old(staged)
      ensures var txn := old(staged) + more;
              var caughtUp := CatchesUp(old(View()), old(dir.disk), s.hist, HasFree(old(current), pinned), syncRoom);
              && (r.Ok? <==> caughtUp && agreed && (txn == [] || GoesThrough(txn, fate, room)))
              && (r == Err(Io) <==> caughtUp && agreed && txn != [] && !Refused(Record(0, txn), room) && fate.Breaks?)
              && (r == Err(Aborted) <==> caughtUp && !agreed)
              && var locks := [P.Acquire(h)] + (if caughtUp then [P.Sync(h, HasFree(old(current), pinned))] else []);
                 locks <= es && (!caughtUp || !agreed || txn == [] ==> es == locks + [P.Release(h)])
      ensures r.Ok? && old(staged) + more != [] ==>
                Compacts(s, h, es, old(staged) + more, room, limits, renames, due, Compacted())
    {
      hide P.Run, P.CatchUpLocked, P.Repair, P.Adopt, HasFree, I.Inv, P.ViewOps, AllOps, P.StampOf, RecordSize,
        Commits.Aliased, ReadyToAppend, Count, Blocked, Cramped, OutOfSlots, Refused, GoesThrough, Follows, Past, Compacts, I.HandleOk;
      ghost var free := HasFree(current, pinned);
      LockRun(s, h, free);
      AcquireRun(s, h);
      assert I.HandleOk(s.hist, s.cuts, s.disk, s.nextId, s.handles[h]) by { KnownHandle(s, h); }
      CatchesUpExactly(s, s.handles[h], free);
      BlockedExactly(s, s.handles[h], syncRoom);
      var caught := SyncLocked(pinned, syncRoom);
      if caught.Err? {
        ReleaseRun(s, [P.Acquire(h)], h);
        return Err(caught.error), [P.Acquire(h)] + [P.Release(h)];
      }
      LockReadies(s, h, free);
      es := [P.Acquire(h), P.Sync(h, free)];
      ghost var locked := P.Run(s, es).value;
      ghost var steps;
      ghost var slot := HasFree(current, pinned);
      r, steps := CommitMore(more, agreed, fate, room, renames, pinned, limits, locked, h);
      RunJoins(s, es, steps);
      es := es + steps;
      if r.Ok? {
        AllOpsSnoc(s.hist, old(staged) + more);
        if old(staged) + more != [] {
          CompactsFollows(s, h, [P.Acquire(h), P.Sync(h, free)], steps, old(staged) + more, room, limits, renames, slot,
                          due, Compacted());
        }
      }
      ReleaseRun(s, es, h);
      es := es + [P.Release(h)];
    }

    /** Commit what is staged, if anything is: a transaction that stages nothing more. */
    method Commit(fate: Fate, syncRoom: bool, room: bool, renames: Renames, pinned: set<nat>, limits: Thresholds,
                  ghost s: P.State, ghost h: nat) returns (r: Result<nat>, ghost es: seq<P.Event>)
      requires Valid() && Mirrors(s, h, P.Idle) && s.lock.None? && I.Inv(s)
      modifies this, gens, dir
      ensures Valid() && P.Run(s, es).Some? && Mirrors(P.Run(s, es).value, h, P.Idle) && P.Run(s, es).value.lock.None?
      ensures P.Run(s, es).value.hist == if Enters(r, old(staged), fate) then s.hist + [old(staged)] else s.hist
      ensures r.Ok? && old(staged) != [] ==>
                staged == [] && Shows(old(View()), old(dir.disk), old(staged), P.Run(s, es).value.hist, View(), r.value)
      ensures r.Err? ==> staged == old(staged)
      ensures var caughtUp := CatchesUp(old(View()), old(dir.disk), s.hist, HasFree(old(current), pinned), syncRoom);
              && (r.Ok? <==> old(staged) == [] || (caughtUp && GoesThrough(old(staged), fate, room)))
              && (r == Err(Io) <==>
                    caughtUp && old(staged) != [] && !Refused(Record(0, old(staged)), room) && fate.Breaks?)
              && r != Err(Aborted)
      ensures r.Ok? && old(staged) != [] ==> Compacts(s, h, es, old(staged), room, limits, renames, due, Compacted())
      ensures old(staged) == [] ==> r == Ok(if nextSeq > 0 then nextSeq - 1 else 0) && es == [] && unchanged(this, gens, dir)
    {
      hide P.Run, I.Inv, RecordSize, Shows, Compacts;
      NoRun(s);
      if staged == [] {
        return Ok(if nextSeq > 0 then nextSeq - 1 else 0), [];
      }
      assert staged + [] == staged;
      r, es := Transact([], true, fate, syncRoom, room, renames, pinned, limits, s, h);
    }
  }

  lemma KnownHandle(s: P.State, h: nat)
    requires I.Inv(s) && h in s.handles
    ensures I.FilesOk(s.hist, s.cuts, s.disk, s.nextId) && I.HandleOk(s.hist, s.cuts, s.disk, s.nextId, s.handles[h])
  {
  }

  /** A commit that lands compacts as its limits say: they measure the overlay and the log as the
      catch-up left them, the transaction on top. Whether a slot is free for the new base is the
      ring's to say. */
  ghost predicate Compacts(s: P.State, h: nat, es: seq<P.Event>, txn: Txn, room: bool, limits: Thresholds, renames: Renames,
                           due: bool, compacted: bool) {
    && |es| >= 3 && P.Run(s, es[..2]).Some? && h in P.Run(s, es[..2]).value.handles
    && var hd := P.Run(s, es[..2]).value.handles[h];
       && hd.served.Some?
       && var past := Past(limits, |hd.served.value.overlay| + |txn|, hd.seen.walPos + RecordSize(txn));
          var steps, rec := es[2..|es| - 1], Record(hd.nextSeq, txn);
          || Follows(steps, h, rec, room, past, limits.inline, renames, true, due, compacted)
          || Follows(steps, h, rec, room, past, limits.inline, renames, false, due, compacted)
  }

  lemma CompactsFollows(s: P.State, h: nat, locks: seq<P.Event>, steps: seq<P.Event>, txn: Txn, room: bool, limits: Thresholds,
                        renames: Renames, free: bool, due: bool, compacted: bool)
    requires |locks| == 2 && P.Run(s, locks).Some? && h in P.Run(s, locks).value.handles
    requires var hd := P.Run(s, locks).value.handles[h];
             && hd.served.Some?
             && var past := Past(limits, |hd.served.value.overlay| + |txn|, hd.seen.walPos + RecordSize(txn));
                Follows(steps, h, Record(hd.nextSeq, txn), room, past, limits.inline, renames, free, due, compacted)
    ensures Compacts(s, h, locks + steps + [P.Release(h)], txn, room, limits, renames, due, compacted)
  {
    hide P.Run, RecordSize, Follows, Past;
    var es := locks + steps + [P.Release(h)];
    assert es[..2] == locks && es[2..|es| - 1] == steps;
  }

  /** Whether a transaction is appended: it has ops, fits a record and the arena, and the write
      goes through. */
  predicate GoesThrough(txn: Txn, fate: Fate, room: bool) {
    txn != [] && fate.Lands? && RecordSize(txn) <= 268_435_456 && room
  }

  /** Whether a handle that takes the lock gets to append: there is a slot and room for what
      the files have that it does not serve. */
  predicate CatchesUp(hd: P.Handle, disk: P.Disk, hist: seq<Txn>, free: bool, syncRoom: bool)
    requires hd.served.Some?
  {
    !OutOfSlots(hd.served.value, disk.base, free) && !Cramped(hd, disk, hist, syncRoom)
  }

  /** Whether a commit of `txn` that came to `r` put it into the history: it went through, or
      its write broke after the whole record landed and could not be cut back. */
  predicate Enters(r: Result<nat>, txn: Txn, fate: Fate) {
    txn != [] && (r.Ok? || (r.error == Io && fate.Breaks? && !fate.cut && fate.bytes >= RecordSize(txn)))
  }

  /** What a handle shows after its commit of `txn`: the whole history, the last number
      returned; or, when its stamp was an alias of the files, what it showed before and `txn`. */
  predicate Shows(was: P.Handle, disk: P.Disk, txn: Txn, hist: seq<Txn>, now: P.Handle, last: nat)
    requires was.served.Some? && now.served.Some?
  {
    if Commits.Aliased(was, disk) then P.ViewOps(now.served.value) == P.ViewOps(was.served.value) + txn
    else P.ViewOps(now.served.value) == AllOps(hist) && last == Count(hist)
  }

  /** The bytes a transaction's record takes, whatever its sequence numbers. */
  function RecordSize(txn: Txn): nat { SizeOf(Record(0, txn)) }

  lemma SizeOfOps(r: Record)
    ensures SizeOf(r) == RecordSize(r.ops) == SizeOf(Record(0, r.ops))
  {
  }

  lemma AcquireRun(s: P.State, h: nat)
    requires h in s.handles && s.handles[h].phase == P.Idle && s.lock.None?
    ensures P.Run(s, [P.Acquire(h)]) == Some(P.Put(s, h, s.handles[h].(phase := P.Held)).(lock := Some(h)))
  {
    assert [] + [P.Acquire(h)] == [P.Acquire(h)];
    RunOne(s, [], P.Acquire(h));
  }

  /** What a broken append leaves of the history: its transaction just when every byte of the
      record landed and none could be cut back. */
  lemma BrokenHistory(s: P.State, h: nat, r: Record, fate: Fate, room: bool)
    requires ReadyToAppend(s, h) && r.ops != [] && r == Record(s.handles[h].nextSeq, r.ops)
    requires fate.Breaks? || Refused(r, room)
    ensures var end := P.Run(s, AppendEvents(h, r, fate, room));
            end.Some? ==>
              end.value.hist == if !Refused(r, room) && !fate.cut && fate.bytes >= SizeOf(r) then s.hist + [r.ops] else s.hist
  {
    hide P.Run, P.Truncate, P.Apply, P.Enabled, SizeOf;
    if Refused(r, room) {
      NoEvents(s, h, r, fate, room);
    } else {
      BeginDoes(s, h, r.ops);
      var s1 := P.Apply(s, P.BeginAppend(h, r.ops));
      var write := if fate.bytes >= SizeOf(r) then P.LandAll(h) else P.Land(h, fate.bytes);
      WriteDoes(s1, h, r.ops, fate.bytes);
      var s2 := P.Apply(s1, write);
      FailDoes(s2, h, fate.cut);
      RunThree(s, P.BeginAppend(h, r.ops), write, P.FailAppend(h, fate.cut));
      BeginKeepsHist(s, h, r.ops);
      WriteHist(s1, h, r.ops, fate.bytes);
      assert (s.disk.log.recs + [r])[..|s.disk.log.recs|] == s.disk.log.recs;
      FailHist(s2, h, fate.cut);
    }
  }

  lemma BeginKeepsHist(s: P.State, h: nat, txn: Txn)
    requires P.Enabled(s, P.BeginAppend(h, txn))
    ensures P.Apply(s, P.BeginAppend(h, txn)).hist == s.hist
  {
  }

  lemma WriteHist(s: P.State, h: nat, txn: Txn, bytes: nat)
    requires h in s.handles && s.handles[h].phase == P.Appending(txn) && s.disk.log.Log? && s.disk.log.torn == 0
    ensures var r := Record(s.handles[h].nextSeq, txn);
            var e := if bytes >= SizeOf(r) then P.LandAll(h) else P.Land(h, bytes);
            P.Enabled(s, e) && P.Apply(s, e).hist == if bytes >= SizeOf(r) then s.hist + [txn] else s.hist
  {
    hide SizeOf;
  }

  lemma FailHist(s: P.State, h: nat, cut: bool)
    requires P.Enabled(s, P.FailAppend(h, cut))
    requires s.handles[h].phase.Appended? ==>
      var recs := s.disk.log.recs;
      s.hist != [] && recs != [] && s.handles[h].seen.walPos == LOG_HEADER_LEN + Bytes(recs[..|recs| - 1])
    ensures P.Apply(s, P.FailAppend(h, cut)).hist ==
      if cut && s.handles[h].phase.Appended? then s.hist[..|s.hist| - 1] else s.hist
  {
    if s.handles[h].phase.Appended? { FromBoundary(s.disk.log.recs, |s.disk.log.recs| - 1); }
  }

  /** A holder whose stamp is an alias takes itself for caught up: what it has not read goes,
      and it appends where it stopped reading. */
  lemma AliasReadies(s: P.State, h: nat, free: bool)
    requires I.Inv(s) && h in s.handles && Commits.Aliased(s.handles[h], s.disk)
    ensures P.CatchUpLocked(s.handles[h], s.disk, free) == Some(s.handles[h]) && s.handles[h].served.Some?
    ensures var (hd, d) := P.Repair(s.handles[h], s.disk, s.nextId);
            && hd.served == s.handles[h].served && d.log.Log? && d.log.torn == 0
            && hd.seen.stamp == Some(P.StampOf(d)) && hd.seen.walPos == LOG_HEADER_LEN + Bytes(d.log.recs)
  {
    hide I.ServedOk, I.PhaseOk, Recs, AllOps;
    var hd, d := s.handles[h], s.disk;
    assert I.HandleOk(s.hist, s.cuts, d, s.nextId, hd);
    var c := Limits.AliasedRepairCuts(s.hist, s.cuts, d, s.nextId, hd, free);
    BytesPrefix(d.log.recs, c);
  }

  lemma CaughtUpServes(hd: P.Handle, d: P.Disk, free: bool)
    ensures var c := P.CatchUpLocked(hd, d, free); c.Some? ==> c.value.served.Some?
  {
    hide P.InstallOrApply, P.StampOf, P.PublishAbove;
  }

  lemma AppendKeepsLock(s: P.State, h: nat, r: Record, fate: Fate, room: bool)
    requires CanAppend(s, h) && r.ops != [] && r == Record(s.handles[h].nextSeq, r.ops)
    requires fate.Breaks? || Refused(r, room)
    ensures P.Run(s, AppendEvents(h, r, fate, room)).Some?
    ensures P.Run(s, AppendEvents(h, r, fate, room)).value.lock == s.lock
  {
    hide P.Run, SizeOf;
    if Refused(r, room) {
      NoEvents(s, h, r, fate, room);
    } else {
      BreaksRun(s, h, r.ops, fate.bytes, fate.cut);
    }
  }

  /** A holder whose catch-up went through can append, and serves the whole history unless
      its stamp was an alias. */
  lemma LockReadies(s: P.State, h: nat, free: bool)
    requires I.Inv(s) && h in s.handles && s.handles[h].phase == P.Idle && s.handles[h].served.Some? && s.lock.None?
    requires P.CatchUpLocked(s.handles[h], s.disk, free).Some?
    ensures P.Run(s, [P.Acquire(h), P.Sync(h, free)]).Some?
    ensures var end := P.Run(s, [P.Acquire(h), P.Sync(h, free)]).value;
            && ReadyToAppend(end, h)
            && if Commits.Aliased(s.handles[h], s.disk) then end.handles[h].served == s.handles[h].served
               else
                 && end.handles[h].nextSeq == Count(s.hist) + 1
                 && P.ViewOps(end.handles[h].served.value) == AllOps(s.hist)
  {
    hide P.Run, I.Inv, P.CatchUpLocked, P.Repair, P.ViewOps, AllOps, P.StampOf, Count, Commits.Aliased;
    LockRun(s, h, free);
    if Commits.Aliased(s.handles[h], s.disk) {
      AliasReadies(s, h, free);
    } else {
      LockKeepsInv(s, h, free);
      CaughtUpServes(s.handles[h], s.disk, free);
      var end := P.Run(s, [P.Acquire(h), P.Sync(h, free)]).value;
      ReadyServesAll(end, h);
    }
  }

  lemma LockKeepsInv(s: P.State, h: nat, free: bool)
    requires I.Inv(s) && h in s.handles && s.handles[h].phase == P.Idle && s.lock.None?
    requires !Commits.Aliased(s.handles[h], s.disk)
    ensures var end := P.Run(s, [P.Acquire(h), P.Sync(h, free)]);
            end.Some? && I.Inv(end.value)
  {
    hide P.Run, I.Inv, P.CatchUpLocked;
    var s1 := P.Apply(s, P.Acquire(h));
    RunTwo(s, P.Acquire(h), P.Sync(h, free));
    Safety.StepKeepsInv(s, P.Acquire(h));
    Safety.StepKeepsInv(s1, P.Sync(h, free));
  }

  lemma LandedShows(s: P.State, h: nat, txn: Txn)
    requires CanAppend(s, h) && s.handles[h].nextSeq > 0
    ensures var was, hd := s.handles[h], P.PublishStep(s.handles[h].(phase := P.Appended(txn)));
            && P.ViewOps(hd.served.value) == P.ViewOps(was.served.value) + txn && hd.nextSeq == was.nextSeq + |txn|
            && (P.ViewOps(was.served.value) == AllOps(s.hist) && was.nextSeq == Count(s.hist) + 1 ==>
                  && P.ViewOps(hd.served.value) == AllOps(s.hist + [txn])
                  && hd.nextSeq == Count(s.hist + [txn]) + 1)
  {
    hide P.ViewOps, AllOps;
    PublishShows(s.handles[h].(phase := P.Appended(txn)));
    AllOpsSnoc(s.hist, txn);
  }

  /** Whether a handle has written enough to compact. */
  predicate Past(limits: Thresholds, ops: nat, bytes: nat) { ops >= limits.ops || bytes >= limits.bytes }

  /** The compaction that follows a commit past the limits, if it is to run inline. */
  function Folds(past: bool, inline: bool, h: nat, renames: Renames, free: bool): seq<P.Event> {
    if past && inline then CompactEvents(h, renames, free) else []
  }

  /** The steps of a commit that lands: the append, then the compaction it is to run, if it is
      past the limits; past them a compaction is due afterwards unless one ran to its end, and
      then what is served is the new base and the log is empty. */
  predicate Follows(steps: seq<P.Event>, h: nat, r: Record, room: bool, past: bool, inline: bool, renames: Renames, free: bool,
                    due: bool, compacted: bool) {
    && steps == AppendEvents(h, r, Lands, room) + Folds(past, inline, h, renames, free)
    && (past ==> (due <==> !(inline && renames.Both? && free)) && (due || compacted))
  }

  /** When a handle's own commits compact its store. */
  datatype Thresholds = Thresholds(ops: nat, bytes: nat, inline: bool)

  /** A new base shows what it folded. */
  lemma BaseShows(b: P.Base)
    ensures P.ViewOps(P.Served(b, [])) == b.folded
  {
  }

  /** Load the files for a new handle, again while a compaction shows between its renames. */
  method LoadGeneration(locked: bool, looks: seq<Read>, room: bool) returns (r: Result<(P.Outcome, nat)>)
    requires |looks| == P.RACE_RETRIES
    requires locked ==> forall i :: 0 <= i < |looks| ==> looks[i] == looks[0]
    ensures var (o, gen) := Loads(None, looks, true, room);
            if o.Applied? then r == Ok((o, gen)) else r.Err?
  {
    hide P.Build;
    var i := 0;
    while i < P.RACE_RETRIES
      invariant 0 <= i <= P.RACE_RETRIES
      invariant Loads(None, looks, true, room) == Loads(None, looks[i..], true, room)
    {
      assert looks[i..][0] == looks[i] && looks[i..][1..] == looks[i + 1..];
      BuildPublishes(looks[i].base, looks[i].log);
      var built := P.Build(looks[i].base, looks[i].log);
      if built.Applied? && built.served.overlay != [] && !room {
        return Err(Busy);
      } else if built.Applied? {
        return Ok((built, looks[i].base.gen));
      } else if !built.ReRead? {
        return Err(Corrupt);
      } else if locked {
        LoadsOnce(None, looks, true, room, P.Disk(looks[0].base, looks[0].log));
        return Err(Corrupt);
      }
      i := i + 1;
    }
    return Err(Busy);
  }

  lemma NoEvents(s: P.State, h: nat, r: Record, fate: Fate, room: bool)
    requires Refused(r, room)
    ensures P.Run(s, AppendEvents(h, r, fate, room)) == Some(s)
  {
  }

  /** A record publishes every one of its ops over what precedes it. */
  lemma PublishedAll(r: Record)
    requires r.first > 0
    ensures Above(Entries([r]), r.first - 1) == RecordEntries(r) && |RecordEntries(r)| == |r.ops|
    ensures OpsOf(RecordEntries(r)) == r.ops
  {
    OneRecord(r);
    AllAbove(RecordEntries(r), r.first - 1);
  }

  lemma {:induction false} AllAbove(es: seq<Entry>, served: nat)
    requires forall i :: 0 <= i < |es| ==> es[i].seqNo > served
    ensures Above(es, served) == es
  {
    if es != [] { AllAbove(es[..|es| - 1], served); }
  }
}
