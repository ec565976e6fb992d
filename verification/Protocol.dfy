/** The commit / catch-up / compaction / crash protocol: two files, any number of
    handles, one commit lock. Every action is one step of a state machine; an append
    lands byte by byte, a compaction is two separate renames and an install, and a
    reader that takes no lock examines the files, reads the base and reads the log in
    three separate steps. */
module Protocol {
  import opened Ops
  import opened History

  /** Re-reads tolerated when a reader catches a compaction between its renames. */
  const RACE_RETRIES := 3

  // ---- the files ----------------------------------------------------------------

  /** A base file: its generation, the last sequence number folded into it, and the
      ops whose effect it renders. */
  datatype Base = Base(gen: nat, applied: nat, folded: seq<Op>)

  /** The log file: which file it is (its inode), the generation its header names, its
      whole records and how many bytes of a torn one follow them. */
  datatype LogFile = Missing | Log(id: nat, gen: nat, recs: seq<Record>, torn: nat)

  datatype Disk = Disk(base: Base, log: LogFile)

  function LogLen(log: LogFile): nat
    requires log.Log?
  {
    LOG_HEADER_LEN + Bytes(log.recs) + log.torn
  }

  function LogGen(log: LogFile): nat { if log.Log? then log.gen else 0 }

  function LogRecs(log: LogFile): seq<Record> { if log.Log? then log.recs else [] }

  /** What `stat` tells: the base file's identity, the log's identity and length. A
      base is only ever replaced by a file of another generation. */
  datatype WalStamp = WalStamp(id: nat, len: nat)
  datatype Stamp = Stamp(base: nat, wal: Option<WalStamp>)

  function StampOf(d: Disk): Stamp {
    Stamp(d.base.gen, if d.log.Log? then Some(WalStamp(d.log.id, LogLen(d.log))) else None)
  }

  // ---- a handle -----------------------------------------------------------------

  /** The served generation: a base and the ops published over it. */
  datatype Served = Served(base: Base, overlay: seq<Entry>)

  function LastSeq(v: Served): nat {
    if v.overlay == [] then v.base.applied
    else if v.overlay[|v.overlay| - 1].seqNo > v.base.applied then v.overlay[|v.overlay| - 1].seqNo
    else v.base.applied
  }

  /** The ops a snapshot of this generation shows the effect of. */
  function ViewOps(v: Served): seq<Op> { v.base.folded + OpsOf(v.overlay) }

  datatype Seen = Seen(stamp: Option<Stamp>, walPos: nat, logCurrent: bool, baseGen: nat)

  const NOTHING_SEEN := Seen(None, 0, false, 0)

  datatype Phase =
    | Idle
    | Reading(now: Stamp, base: Option<Base>, tries: nat)
    | Held
    | Ready
    | Appending(txn: Txn)
    | Appended(txn: Txn)
    | BaseSwapped
    | LogSwapped
    | Done

  datatype Handle = Handle(served: Option<Served>, seen: Seen, nextSeq: nat, diskGen: nat, phase: Phase)

  /** The phases a handle goes through with the commit lock held. */
  predicate Holding(p: Phase) { !p.Idle? && !p.Reading? }

  // ---- catching up --------------------------------------------------------------

  /** Publish the ops of `recs` the served generation has not seen. */
  function PublishAbove(v: Served, recs: seq<Record>): Served {
    v.(overlay := v.overlay + Above(Entries(recs), LastSeq(v)))
  }

  datatype Outcome =
    | Applied(served: Served, pos: nat, current: bool)
    | ReRead
    | Refused
    | Corrupt

  /** A generation built from a base and a log read for it; `ReRead` when the log is
      newer than the base. */
  function Build(b: Base, log: LogFile): Outcome {
    if log.Missing? then Applied(Served(b, []), 0, false)
    else if log.gen > b.gen then ReRead
    else if log.gen < b.gen then Applied(Served(b, []), LOG_HEADER_LEN, false)
    else if !Rising(log.recs) then Corrupt
    else Applied(Served(b, Above(Entries(log.recs), b.applied)), LOG_HEADER_LEN + Bytes(log.recs), true)
  }

  /** What a full re-read does: publish new records when the base is the one served,
      else install the rebuilt generation in a free ring slot; with no slot free, keep
      the served base and publish the new base's log on top, provided every op the new
      base folded is already served. */
  function InstallOrApply(v: Option<Served>, b: Base, log: LogFile, free: bool): Outcome {
    if v.Some? && v.value.base.gen == b.gen then
      if log.Missing? then Applied(v.value, LOG_HEADER_LEN, false)
      else if log.gen > b.gen then ReRead
      else if log.gen < b.gen then Applied(v.value, LOG_HEADER_LEN, false)
      else if !Rising(log.recs) then Corrupt
      else Applied(PublishAbove(v.value, log.recs), LOG_HEADER_LEN + Bytes(log.recs), true)
    else
      var built := Build(b, log);
      if !built.Applied? || free || v.None? then built
      else if b.applied > LastSeq(v.value) then Refused
      else if built.served.overlay == [] then built.(served := v.value)
      else built.(served := PublishAbove(v.value, LogRecs(log)))
  }

  datatype Caught = Unchanged | Tail(served: Served, pos: nat) | Full | Bad

  /** Compare the files with what the handle remembers, and read only what changed. */
  function Compare(hd: Handle, d: Disk): Caught {
    var now := StampOf(d);
    if hd.seen.stamp == Some(now) then Unchanged
    else if
      && hd.served.Some? && hd.seen.stamp.Some?
      && now.wal.Some? && hd.seen.stamp.value.wal.Some?
      && now.base == hd.seen.stamp.value.base
      && now.wal.value.id == hd.seen.stamp.value.wal.value.id
      && now.wal.value.len >= hd.seen.walPos >= LOG_HEADER_LEN
    then
      var tail := RecordsFrom(d.log.recs, hd.seen.walPos - LOG_HEADER_LEN);
      if Rising(tail) then Tail(PublishAbove(hd.served.value, tail), hd.seen.walPos + Bytes(tail)) else Bad
    else Full
  }

  function Max(a: nat, b: nat): nat { if a < b then b else a }

  /** The write counters advance to what the served generation holds. */
  function Adopt(hd: Handle): Handle
    requires hd.served.Some?
  {
    hd.(nextSeq := Max(hd.nextSeq, LastSeq(hd.served.value) + 1), diskGen := Max(hd.diskGen, hd.seen.baseGen))
  }

  function TakeTail(hd: Handle, now: Stamp, c: Caught): Handle
    requires c.Tail?
  {
    hd.(served := Some(c.served), seen := hd.seen.(stamp := Some(now), walPos := c.pos))
  }

  function TakeFull(hd: Handle, now: Stamp, b: Base, o: Outcome): Handle
    requires o.Applied?
  {
    hd.(served := Some(o.served), seen := Seen(Some(now), o.pos, o.current, b.gen))
  }

  /** Cut a log file to `len` bytes. */
  function Truncate(log: LogFile, len: nat): LogFile
    requires log.Log?
  {
    if len < LOG_HEADER_LEN then log.(recs := [], torn := 0)
    else
      var kept := CutAt(log.recs, len - LOG_HEADER_LEN);
      log.(recs := kept, torn := len - LOG_HEADER_LEN - Bytes(kept))
  }

  /** Under the commit lock: give a missing or stale log a header for the base on disk,
      or cut a torn tail back to the last record the handle consumed. */
  function Repair(hd: Handle, d: Disk, freshId: nat): (Handle, Disk) {
    if !hd.seen.logCurrent then
      var d' := d.(log := Log(freshId, hd.seen.baseGen, [], 0));
      (hd.(seen := Seen(Some(StampOf(d')), LOG_HEADER_LEN, true, hd.seen.baseGen)), d')
    else if d.log.Log? && hd.seen.stamp.Some? && hd.seen.stamp.value.wal.Some?
         && hd.seen.stamp.value.wal.value.len > hd.seen.walPos then
      var s := hd.seen.stamp.value;
      (hd.(seen := hd.seen.(stamp := Some(s.(wal := Some(s.wal.value.(len := hd.seen.walPos)))))),
       d.(log := Truncate(d.log, hd.seen.walPos)))
    else (hd, d)
  }

  /** The catch-up of a lock holder: the files cannot change under it. `None` when it
      cannot serve what is there (ring full, or a log it must not touch). */
  function CatchUpLocked(hd: Handle, d: Disk, free: bool): Option<Handle> {
    match Compare(hd, d)
    case Unchanged => if hd.served.Some? then Some(hd) else None
    case Tail(_, _) => Some(TakeTail(hd, StampOf(d), Compare(hd, d)))
    case Bad => None
    case Full =>
      var o := InstallOrApply(hd.served, d.base, d.log, free);
      if o.Applied? then Some(TakeFull(hd, StampOf(d), d.base, o)) else None
  }

  // ---- the state machine --------------------------------------------------------

  /** `hist` and `cuts` are history variables no step reads: the transactions whole in
      the log so far, in order, and how many of them each base generation folded. */
  datatype State = State(
    disk: Disk, handles: map<nat, Handle>, lock: Option<nat>, nextId: nat,
    hist: seq<Txn>, cuts: map<nat, nat>)

  datatype Event =
    | Open(h: nat)
    | Stat(h: nat)
    | ReadBase(h: nat)
    | ReadLog(h: nat, free: bool)
    | Acquire(h: nat)
    | Sync(h: nat, free: bool)
    | BeginAppend(h: nat, txn: Txn)
    | Land(h: nat, k: nat)
    | LandAll(h: nat)
    | Publish(h: nat)
    | FailAppend(h: nat, cut: bool)
    | SwapBase(h: nat)
    | SwapLog(h: nat)
    | SwapLogFails(h: nat)
    | Install(h: nat, free: bool)
    | Release(h: nat)
    | Crash(h: nat)

  function Pending(hd: Handle): Record
    requires hd.phase.Appending? || hd.phase.Appended?
  {
    Record(hd.nextSeq, hd.phase.txn)
  }

  predicate Enabled(s: State, e: Event) {
    if e.Open? then e.h !in s.handles
    else
      && e.h in s.handles
      && var hd := s.handles[e.h];
         match e
         case Stat(_) => hd.phase.Idle?
         case ReadBase(_) => hd.phase.Reading? && hd.phase.base.None?
         case ReadLog(_, _) => hd.phase.Reading? && hd.phase.base.Some?
         case Acquire(_) => hd.phase.Idle? && s.lock.None?
         case Sync(_, _) => hd.phase.Held?
         case BeginAppend(_, txn) => hd.phase.Ready? && txn != []
         case Land(_, k) =>
           hd.phase.Appending? && s.disk.log.Log? && s.disk.log.torn <= k < SizeOf(Pending(hd))
         case LandAll(_) => hd.phase.Appending? && s.disk.log.Log?
         case Publish(_) => hd.phase.Appended? && hd.served.Some?
         case FailAppend(_, _) => (hd.phase.Appending? || hd.phase.Appended?) && s.disk.log.Log?
         case SwapBase(_) => hd.phase.Ready? && hd.served.Some? && hd.nextSeq > 0
         case SwapLog(_) => hd.phase.BaseSwapped?
         case SwapLogFails(_) => hd.phase.BaseSwapped?
         case Install(_, _) => hd.phase.LogSwapped?
         case Release(_) => hd.phase.Held? || hd.phase.Ready? || hd.phase.Done?
         case Crash(_) => true
  }

  function Put(s: State, h: nat, hd: Handle): State { s.(handles := s.handles[h := hd]) }

  function StatStep(hd: Handle, d: Disk): Handle {
    match Compare(hd, d)
    case Unchanged => hd
    case Bad => hd
    case Tail(_, _) => Adopt(TakeTail(hd, StampOf(d), Compare(hd, d)))
    case Full => hd.(phase := Reading(StampOf(d), None, RACE_RETRIES))
  }

  function ReadLogStep(hd: Handle, log: LogFile, free: bool): Handle
    requires hd.phase.Reading? && hd.phase.base.Some?
  {
    var b := hd.phase.base.value;
    var o := InstallOrApply(hd.served, b, log, free);
    if o.Applied? then Adopt(TakeFull(hd, hd.phase.now, b, o)).(phase := Idle)
    else if o.ReRead? && hd.phase.tries > 1 then
      hd.(phase := Reading(hd.phase.now, None, hd.phase.tries - 1))
    else hd.(phase := Idle)
  }

  function SyncStep(s: State, h: nat, free: bool): State
    requires h in s.handles
  {
    var c := CatchUpLocked(s.handles[h], s.disk, free);
    if c.None? || c.value.served.None? then s
    else
      var (hd, d) := Repair(c.value, s.disk, s.nextId);
      Put(s, h, Adopt(hd).(phase := Ready)).(disk := d, nextId := s.nextId + 1)
  }

  function PublishStep(hd: Handle): Handle
    requires hd.phase.Appended? && hd.served.Some?
  {
    var r := Pending(hd);
    var seen := hd.seen.(walPos := hd.seen.walPos + SizeOf(r));
    var seen' :=
      if seen.stamp.Some? && seen.stamp.value.wal.Some? then
        seen.(stamp := Some(seen.stamp.value.(wal := Some(seen.stamp.value.wal.value.(
          len := seen.stamp.value.wal.value.len + SizeOf(r))))))
      else seen;
    var v := hd.served.value;
    hd.(seen := seen', nextSeq := hd.nextSeq + |r.ops|,
        served := Some(v.(overlay := v.overlay + Above(Entries([r]), Max(r.first, 1) - 1))),
        phase := Ready)
  }

  /** A failed append: its bytes are cut back off, or stay as far as they landed. A
      record cut back whole was never committed, so it leaves the history. */
  function FailStep(s: State, h: nat, cut: bool): State
    requires h in s.handles && s.disk.log.Log?
  {
    var hd := s.handles[h];
    var s' := Put(s, h, hd.(seen := hd.seen.(stamp := None), phase := Done));
    if !cut then s'
    else
      var log := Truncate(s.disk.log, hd.seen.walPos);
      var gone := |s.disk.log.recs| - |log.recs|;
      s'.(disk := s.disk.(log := log),
          hist := if hd.phase.Appended? && 0 <= gone <= |s.hist| then s.hist[..|s.hist| - gone] else s.hist)
  }

  /** Compaction's first rename: the view, rendered, under a generation never used. */
  function SwapBaseStep(s: State, h: nat): State
    requires h in s.handles && s.handles[h].served.Some? && s.handles[h].nextSeq > 0
  {
    var hd := s.handles[h];
    var g := Max(hd.served.value.base.gen, hd.diskGen) + 1;
    Put(s, h, hd.(diskGen := g, phase := BaseSwapped)).(
      disk := s.disk.(base := Base(g, hd.nextSeq - 1, ViewOps(hd.served.value))),
      cuts := s.cuts[g := |s.hist|])
  }

  function SwapLogStep(s: State, h: nat): State
    requires h in s.handles
  {
    var hd := s.handles[h];
    Put(s, h, hd.(seen := NOTHING_SEEN, nextSeq := s.disk.base.applied + 1, phase := LogSwapped)).(
      disk := s.disk.(log := Log(s.nextId, hd.diskGen, [], 0)), nextId := s.nextId + 1)
  }

  function InstallStep(hd: Handle, d: Disk, free: bool): Handle {
    if free || hd.served.None? then
      hd.(served := Some(Served(d.base, [])), phase := Done,
          seen := Seen(Some(StampOf(d)), LOG_HEADER_LEN, true, d.base.gen))
    else hd.(phase := Done)
  }

  function Apply(s: State, e: Event): State
    requires Enabled(s, e)
  {
    if e.Open? then Put(s, e.h, Handle(None, NOTHING_SEEN, 1, 0, Idle))
    else
      var hd := s.handles[e.h];
      match e
      case Stat(h) => Put(s, h, StatStep(hd, s.disk))
      case ReadBase(h) => Put(s, h, hd.(phase := hd.phase.(base := Some(s.disk.base))))
      case ReadLog(h, free) => Put(s, h, ReadLogStep(hd, s.disk.log, free))
      case Acquire(h) => Put(s, h, hd.(phase := Held)).(lock := Some(h))
      case Sync(h, free) => SyncStep(s, h, free)
      case BeginAppend(h, txn) => Put(s, h, hd.(phase := Appending(txn)))
      case Land(h, k) => s.(disk := s.disk.(log := s.disk.log.(torn := k)))
      case LandAll(h) =>
        Put(s, h, hd.(phase := Appended(hd.phase.txn))).(
          disk := s.disk.(log := s.disk.log.(recs := s.disk.log.recs + [Pending(hd)], torn := 0)),
          hist := s.hist + [hd.phase.txn])
      case Publish(h) => Put(s, h, PublishStep(hd))
      case FailAppend(h, cut) => FailStep(s, h, cut)
      case SwapBase(h) => SwapBaseStep(s, h)
      case SwapLog(h) => SwapLogStep(s, h)
      case SwapLogFails(h) => Put(s, h, hd.(phase := Done))
      case Install(h, free) => Put(s, h, InstallStep(hd, s.disk, free))
      case Release(h) => Put(s, h, hd.(phase := Idle)).(lock := None)
      case Crash(h) => s.(handles := s.handles - {h}, lock := if s.lock == Some(h) then None else s.lock)
  }

  /** A fresh store: an empty base of generation 1 and its log, nobody attached. */
  const INITIAL := State(Disk(Base(1, 0, []), Log(0, 1, [], 0)), map[], None, 1, [], map[1 := 0])

  /** The state after a run of events, if each was enabled in its turn. */
  function Run(s: State, es: seq<Event>): Option<State> {
    if es == [] then Some(s)
    else
      var before := Run(s, es[..|es| - 1]);
      if before.Some? && Enabled(before.value, es[|es| - 1]) then Some(Apply(before.value, es[|es| - 1])) else None
  }
}
