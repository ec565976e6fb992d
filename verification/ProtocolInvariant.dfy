/** What every reachable state of the protocol satisfies, and what each catch-up
    leaves a handle with. */
module ProtocolInvariant {
  import opened Ops
  import opened History
  import opened Protocol

  // ---- the invariant ------------------------------------------------------------

  /** A base renders exactly the first transactions of the history. */
  ghost predicate BaseOk(hist: seq<Txn>, cuts: map<nat, nat>, b: Base) {
    && b.gen in cuts && cuts[b.gen] <= |hist|
    && b.folded == AllOps(hist[..cuts[b.gen]])
    && b.applied == |b.folded|
  }

  /** A served generation shows the history up to a transaction boundary, no op twice
      and none missing. */
  ghost predicate ServedOk(hist: seq<Txn>, cuts: map<nat, nat>, v: Served) {
    && BaseOk(hist, cuts, v.base)
    && v.base.applied <= LastSeq(v) <= Count(hist)
    && v.overlay == Range(AllOps(hist), v.base.applied, LastSeq(v))
    && Boundary(hist, LastSeq(v))
  }

  /** Generation `g` folded the first `n` transactions: all of them when the log is from
      before it, no more than the log's own base when not. */
  ghost predicate CutOk(hist: seq<Txn>, cuts: map<nat, nat>, d: Disk, g: nat, n: nat) {
    && 1 <= g <= d.base.gen && n <= |hist|
    && (g > LogGen(d.log) ==> n == |hist|)
    && (g <= LogGen(d.log) && LogGen(d.log) in cuts ==> n <= cuts[LogGen(d.log)])
  }

  ghost predicate FilesOk(hist: seq<Txn>, cuts: map<nat, nat>, d: Disk, nextId: nat) {
    && NoEmpty(hist)
    && BaseOk(hist, cuts, d.base)
    && LogGen(d.log) <= d.base.gen
    && (d.log.Log? ==>
          && d.log.id < nextId && d.log.gen in cuts && cuts[d.log.gen] <= |hist|
          && d.log.recs == Recs(hist, cuts[d.log.gen]))
    && (forall g :: g in cuts ==> CutOk(hist, cuts, d, g, cuts[g]))
  }

  /** The stamp names the very files on disk, whatever the log's length. */
  predicate SameFiles(st: Stamp, d: Disk) {
    && st.base == d.base.gen
    && st.wal.Some? == d.log.Log?
    && (st.wal.Some? ==> st.wal.value.id == d.log.id)
  }

  predicate LogIsCurrent(d: Disk) { d.log.Log? && d.log.gen == d.base.gen }

  /** `walPos` is the boundary after the log's first `c` records, all of them served. */
  ghost predicate Consumed(hist: seq<Txn>, cuts: map<nat, nat>, d: Disk, walPos: nat, n: nat, c: nat) {
    && d.log.Log? && d.log.gen in cuts
    && c <= |d.log.recs| && cuts[d.log.gen] + c <= |hist|
    && walPos == LOG_HEADER_LEN + Bytes(d.log.recs[..c])
    && (LogIsCurrent(d) ==> n >= Count(hist[..cuts[d.log.gen] + c]))
  }

  function Shown(hd: Handle): nat { if hd.served.Some? then LastSeq(hd.served.value) else 0 }

  ghost predicate SeenOk(hist: seq<Txn>, cuts: map<nat, nat>, d: Disk, id: nat, seen: Seen, n: nat)
    requires FilesOk(hist, cuts, d, id)
  {
    seen.stamp.Some? ==>
      var st := seen.stamp.value;
      && st.base <= d.base.gen
      && (st.wal.Some? ==> st.wal.value.id < id)
      && (SameFiles(st, d) ==>
            && seen.baseGen == d.base.gen
            && n >= Count(hist[..cuts[d.base.gen]])
            && seen.logCurrent == LogIsCurrent(d)
            && (d.log.Log? ==> exists c :: Consumed(hist, cuts, d, seen.walPos, n, c)))
  }

  /** A lock holder between its catch-up and its append. */
  ghost predicate CaughtUp(hist: seq<Txn>, d: Disk, hd: Handle, consumed: seq<Record>) {
    && hd.served.Some? && hd.nextSeq == LastSeq(hd.served.value) + 1
    && LogIsCurrent(d)
    && hd.seen == Seen(Some(Stamp(d.base.gen, Some(WalStamp(d.log.id, LOG_HEADER_LEN + Bytes(consumed))))),
                       LOG_HEADER_LEN + Bytes(consumed), true, d.base.gen)
    && hd.diskGen == d.base.gen
  }

  ghost predicate PhaseOk(hist: seq<Txn>, cuts: map<nat, nat>, d: Disk, id: nat, hd: Handle)
    requires FilesOk(hist, cuts, d, id)
  {
    match hd.phase
    case Idle => true
    case Reading(now, b, _) =>
      && now.base <= d.base.gen
      && (now.wal.Some? ==> now.wal.value.id < id)
      && (b.Some? ==> BaseOk(hist, cuts, b.value) && now.base <= b.value.gen <= d.base.gen)
    case Held => true
    case Ready =>
      && CaughtUp(hist, d, hd, LogRecs(d.log))
      && LastSeq(hd.served.value) == Count(hist) && d.log.torn == 0
    case Appending(txn) =>
      && CaughtUp(hist, d, hd, LogRecs(d.log))
      && LastSeq(hd.served.value) == Count(hist) && txn != []
    case Appended(txn) =>
      && hist != [] && hist[|hist| - 1] == txn && txn != []
      && |LogRecs(d.log)| > 0 && LogRecs(d.log)[|LogRecs(d.log)| - 1] == Pending(hd)
      && CaughtUp(hist, d, hd, LogRecs(d.log)[..|LogRecs(d.log)| - 1])
      && LastSeq(hd.served.value) == Count(hist[..|hist| - 1]) && d.log.torn == 0
    case BaseSwapped =>
      && hd.served.Some? && LastSeq(hd.served.value) == Count(hist) == d.base.applied
      && hd.nextSeq == Count(hist) + 1 && hd.diskGen == d.base.gen && cuts[d.base.gen] == |hist|
    case LogSwapped =>
      && hd.served.Some? && LastSeq(hd.served.value) == Count(hist) == d.base.applied
      && hd.nextSeq == Count(hist) + 1 && hd.diskGen == d.base.gen && cuts[d.base.gen] == |hist|
      && LogIsCurrent(d) && d.log.recs == [] && d.log.torn == 0
    case Done => true
  }

  ghost predicate HandleOk(hist: seq<Txn>, cuts: map<nat, nat>, d: Disk, id: nat, hd: Handle)
    requires FilesOk(hist, cuts, d, id)
  {
    && (hd.served.Some? ==> ServedOk(hist, cuts, hd.served.value))
    && (hd.served.None? ==> hd.seen.stamp.None?)
    && hd.nextSeq <= Shown(hd) + 1
    && hd.diskGen <= d.base.gen
    && SeenOk(hist, cuts, d, id, hd.seen, Shown(hd))
    && PhaseOk(hist, cuts, d, id, hd)
  }

  ghost predicate Inv(s: State) {
    && FilesOk(s.hist, s.cuts, s.disk, s.nextId)
    && (s.lock.Some? ==> s.lock.value in s.handles && Holding(s.handles[s.lock.value].phase))
    && (forall h :: h in s.handles && Holding(s.handles[h].phase) ==> s.lock == Some(h))
    && (forall h :: h in s.handles ==> HandleOk(s.hist, s.cuts, s.disk, s.nextId, s.handles[h]))
  }

  // ---- what publishing and loading leave ------------------------------------------

  lemma LastSeqOfRange(ops: seq<Op>, v: Served, n: nat)
    requires v.base.applied <= n <= |ops|
    requires v.overlay == Range(ops, v.base.applied, n)
    ensures LastSeq(v) == n
  {
    if v.overlay != [] {
      assert v.overlay[|v.overlay| - 1].seqNo == n;
    }
  }

  lemma PublishRange(ops: seq<Op>, v: Served, recs: seq<Record>, a: nat, n: nat)
    requires v.base.applied <= n <= |ops| && a <= n
    requires v.overlay == Range(ops, v.base.applied, n)
    requires Entries(recs) == Range(ops, a, |ops|)
    ensures PublishAbove(v, recs).overlay == Range(ops, v.base.applied, |ops|)
    ensures LastSeq(PublishAbove(v, recs)) == |ops|
  {
    LastSeqOfRange(ops, v, n);
    AboveRange(ops, a, |ops|, n);
    RangeSplit(ops, v.base.applied, n, |ops|);
    LastSeqOfRange(ops, PublishAbove(v, recs), |ops|);
  }

  /** Publishing a run of records that starts no later than what is already served
      brings a served generation to the whole history, exactly. */
  lemma PublishCatchesUp(hist: seq<Txn>, cuts: map<nat, nat>, v: Served, lo: nat)
    requires ServedOk(hist, cuts, v) && lo <= |hist| && Count(hist[..lo]) <= LastSeq(v)
    ensures var v' := PublishAbove(v, Recs(hist, lo));
            ServedOk(hist, cuts, v') && LastSeq(v') == Count(hist) && v'.base == v.base
  {
    EntriesOfRecs(hist, lo);
    PublishRange(AllOps(hist), v, Recs(hist, lo), Count(hist[..lo]), LastSeq(v));
    BoundaryHere(hist, |hist|);
  }

  lemma FoldedCount(hist: seq<Txn>, cuts: map<nat, nat>, b: Base)
    requires BaseOk(hist, cuts, b)
    ensures b.applied == Count(hist[..cuts[b.gen]]) <= Count(hist)
    ensures cuts[b.gen] == |hist| ==> b.applied == Count(hist)
  {
    CountMonotone(hist, cuts[b.gen], |hist|);
    assert hist[..|hist|] == hist;
  }

  lemma EmptyOverlayOk(hist: seq<Txn>, cuts: map<nat, nat>, b: Base)
    requires BaseOk(hist, cuts, b)
    ensures ServedOk(hist, cuts, Served(b, [])) && LastSeq(Served(b, [])) == b.applied
  {
    FoldedCount(hist, cuts, b);
    BoundaryHere(hist, cuts[b.gen]);
  }

  /** A base read at any time, with the log read now, builds the whole history as of
      now, or reports the log newer; never a damaged log. */
  lemma BuildIsComplete(hist: seq<Txn>, cuts: map<nat, nat>, d: Disk, id: nat, b: Base)
    requires FilesOk(hist, cuts, d, id) && BaseOk(hist, cuts, b)
    ensures var o := Build(b, d.log);
            && (o.ReRead? <==> LogGen(d.log) > b.gen)
            && (o.ReRead? || o.Applied?)
            && (o.Applied? ==>
                  && ServedOk(hist, cuts, o.served) && LastSeq(o.served) == Count(hist)
                  && o.served.base == b
                  && (o.current <==> LogGen(d.log) == b.gen)
                  && (d.log.Log? ==> o.pos == LOG_HEADER_LEN + (if o.current then Bytes(d.log.recs) else 0)))
  {
    FoldedCount(hist, cuts, b);
    EmptyOverlayOk(hist, cuts, b);
    if d.log.Log? && d.log.gen == b.gen {
      RecsRising(hist, cuts[b.gen]);
      PublishCatchesUp(hist, cuts, Served(b, []), cuts[b.gen]);
    }
  }

  ghost predicate CompleteLoad(hist: seq<Txn>, cuts: map<nat, nat>, d: Disk, b: Base, o: Outcome) {
    && o.Applied?
    && ServedOk(hist, cuts, o.served) && LastSeq(o.served) == Count(hist)
    && (o.current <==> LogGen(d.log) == b.gen)
    && (d.log.Log? ==> o.pos == LOG_HEADER_LEN + (if o.current then Bytes(d.log.recs) else 0))
  }

  /** The base on disk is the one served: only its log can have grown. */
  lemma LoadSameBase(
    hist: seq<Txn>, cuts: map<nat, nat>, d: Disk, id: nat, v: Served, b: Base, free: bool)
    requires FilesOk(hist, cuts, d, id) && BaseOk(hist, cuts, b) && ServedOk(hist, cuts, v)
    requires v.base.gen == b.gen
    ensures var o := InstallOrApply(Some(v), b, d.log, free);
            if LogGen(d.log) > b.gen then o.ReRead? else CompleteLoad(hist, cuts, d, b, o)
  {
    FoldedCount(hist, cuts, b);
    if d.log.Log? && d.log.gen == b.gen {
      RecsRising(hist, cuts[b.gen]);
      PublishCatchesUp(hist, cuts, v, cuts[b.gen]);
    }
  }

  /** Every slot pinned: the served base stays, with the new base's log on top. */
  lemma LoadRingFull(
    hist: seq<Txn>, cuts: map<nat, nat>, d: Disk, id: nat, v: Served, b: Base)
    requires FilesOk(hist, cuts, d, id) && BaseOk(hist, cuts, b) && ServedOk(hist, cuts, v)
    requires v.base.gen != b.gen
    ensures var o := InstallOrApply(Some(v), b, d.log, false);
            if LogGen(d.log) > b.gen then o.ReRead?
            else if b.applied > LastSeq(v) then o.Refused?
            else CompleteLoad(hist, cuts, d, b, o)
  {
    BuildIsComplete(hist, cuts, d, id, b);
    FoldedCount(hist, cuts, b);
    if d.log.Log? && d.log.gen == b.gen && b.applied <= LastSeq(v) {
      PublishCatchesUp(hist, cuts, v, cuts[b.gen]);
    }
  }

  /** A log whose numbers do not rise is refused, whole or by its tail, whatever else holds. */
  lemma RegressionIsRefused(v: Option<Served>, hd: Handle, b: Base, d: Disk, free: bool)
    ensures d.log.Log? && d.log.gen == b.gen && !Rising(d.log.recs) ==> InstallOrApply(v, b, d.log, free).Corrupt?
    ensures Compare(hd, d).Bad? <==>
      && hd.served.Some? && hd.seen.stamp.Some? && d.log.Log? && hd.seen.stamp.value.wal.Some? && hd.seen.stamp != Some(StampOf(d))
      && hd.seen.stamp.value.base == d.base.gen && hd.seen.stamp.value.wal.value.id == d.log.id
      && LogLen(d.log) >= hd.seen.walPos >= LOG_HEADER_LEN
      && !Rising(RecordsFrom(d.log.recs, hd.seen.walPos - LOG_HEADER_LEN))
  {
    hide Rising, RecordsFrom, PublishAbove, Bytes;
  }

  /** A full load by any handle: the whole history as of the moment the log is read, or
      the log is newer than the base read before it, or every ring slot is pinned while
      the new base holds ops this handle does not serve. */
  lemma LoadIsComplete(
    hist: seq<Txn>, cuts: map<nat, nat>, d: Disk, id: nat, v: Option<Served>, b: Base, free: bool)
    requires FilesOk(hist, cuts, d, id) && BaseOk(hist, cuts, b)
    requires v.Some? ==> ServedOk(hist, cuts, v.value)
    ensures var o := InstallOrApply(v, b, d.log, free);
            if LogGen(d.log) > b.gen then o.ReRead?
            else if v.Some? && v.value.base.gen != b.gen && !free && b.applied > LastSeq(v.value) then o.Refused?
            else CompleteLoad(hist, cuts, d, b, o)
  {
    if v.Some? && v.value.base.gen == b.gen {
      LoadSameBase(hist, cuts, d, id, v.value, b, free);
    } else if v.Some? && !free {
      LoadRingFull(hist, cuts, d, id, v.value, b);
    } else {
      BuildIsComplete(hist, cuts, d, id, b);
    }
  }

  /** A scan from a record boundary finds the records after it. */
  lemma TailRecords(hist: seq<Txn>, lo: nat, c: nat, walPos: nat)
    requires lo + c <= |hist|
    requires walPos == LOG_HEADER_LEN + Bytes(Recs(hist, lo)[..c])
    ensures RecordsFrom(Recs(hist, lo), walPos - LOG_HEADER_LEN) == Recs(hist, lo + c)
    ensures walPos + Bytes(Recs(hist, lo + c)) == LOG_HEADER_LEN + Bytes(Recs(hist, lo))
    ensures Rising(Recs(hist, lo + c))
  {
    FromBoundary(Recs(hist, lo), c);
    RecsDrop(hist, lo, c);
    RecsRising(hist, lo + c);
    BytesPrefix(Recs(hist, lo), c);
  }

  /** Everything up to a consumed boundary is served. */
  lemma ConsumedIsServed(hist: seq<Txn>, cuts: map<nat, nat>, d: Disk, id: nat, walPos: nat, n: nat, c: nat)
    requires FilesOk(hist, cuts, d, id) && Consumed(hist, cuts, d, walPos, n, c)
    requires n >= Count(hist[..cuts[d.base.gen]])
    ensures n >= Count(hist[..cuts[d.log.gen] + c])
  {
    if !LogIsCurrent(d) {
      assert hist[..|hist|] == hist;
      CountMonotone(hist, cuts[d.log.gen] + c, |hist|);
    }
  }

  /** Reading the tail from a served boundary brings a handle to the whole history. */
  lemma TailIsComplete(hist: seq<Txn>, cuts: map<nat, nat>, v: Served, lo: nat, c: nat, walPos: nat)
    requires ServedOk(hist, cuts, v) && lo + c <= |hist|
    requires LastSeq(v) >= Count(hist[..lo + c])
    requires walPos == LOG_HEADER_LEN + Bytes(Recs(hist, lo)[..c])
    ensures walPos >= LOG_HEADER_LEN
    ensures var tail := RecordsFrom(Recs(hist, lo), walPos - LOG_HEADER_LEN);
            && Rising(tail)
            && walPos + Bytes(tail) == LOG_HEADER_LEN + Bytes(Recs(hist, lo))
            && ServedOk(hist, cuts, PublishAbove(v, tail))
            && LastSeq(PublishAbove(v, tail)) == Count(hist)
  {
    TailRecords(hist, lo, c, walPos);
    PublishCatchesUp(hist, cuts, v, lo + c);
  }

  lemma CompareIsSound(hist: seq<Txn>, cuts: map<nat, nat>, d: Disk, id: nat, hd: Handle)
    requires FilesOk(hist, cuts, d, id)
    requires hd.served.Some? ==> ServedOk(hist, cuts, hd.served.value)
    requires SeenOk(hist, cuts, d, id, hd.seen, Shown(hd))
    ensures !Compare(hd, d).Bad?
    ensures Compare(hd, d).Tail? ==>
              var c := Compare(hd, d);
              && ServedOk(hist, cuts, c.served) && LastSeq(c.served) == Count(hist)
              && d.log.Log? && c.pos == LOG_HEADER_LEN + Bytes(d.log.recs)
              && hd.seen.logCurrent == LogIsCurrent(d) && hd.seen.baseGen == d.base.gen
  {
    hide ServedOk, Recs, RecordsFrom, Entries, Above, Bytes, AllOps, PublishAbove, Rising;
    if hd.served.Some? && hd.seen.stamp.Some? && SameFiles(hd.seen.stamp.value, d) && d.log.Log? {
      var v := hd.served.value;
      var c :| Consumed(hist, cuts, d, hd.seen.walPos, LastSeq(v), c);
      ConsumedIsServed(hist, cuts, d, id, hd.seen.walPos, LastSeq(v), c);
      TailIsComplete(hist, cuts, v, cuts[d.log.gen], c, hd.seen.walPos);
    }
  }
}
