/** Whole stores over whole runs: the protocol's bases carry the images compaction renders,
    and what any handle reads through its merged view is what the reference machine says of
    a prefix of the committed history. */
module StoreRuns {
  import opened Ops
  import opened History
  import opened Merge
  import opened Compaction
  import P = Protocol
  import I = ProtocolInvariant
  import S = ProtocolCommit
  import Safety = ProtocolSafety

  /** What each base generation's file holds. */
  type Images = map<nat, Base>

  /** What a read of `k` returns on a served generation. */
  function ReadServed(c: Config, images: Images, v: P.Served, k: u64): Option<Doc>
    requires v.base.gen in images
  {
    ReadAt(c, images[v.base.gen], OverlayFold(OpsOf(v.overlay)), k)
  }

  /** A compaction writes what it collected under its new generation; no other step writes a base. */
  function ImagesAfter(c: Config, images: Images, s: P.State, e: P.Event): Images
    requires P.Enabled(s, e)
  {
    if e.SwapBase? && s.handles[e.h].served.value.base.gen in images then
      var v := s.handles[e.h].served.value;
      images[P.Apply(s, e).disk.base.gen := Compact(c, images[v.base.gen], OverlayFold(OpsOf(v.overlay)))]
    else images
  }

  /** The images after a run from a fresh store, whose first base is empty. */
  function ImagesOf(c: Config, es: seq<P.Event>): Images {
    if es == [] then map[1 := map[]]
    else
      var most := es[..|es| - 1];
      var before := P.Run(P.INITIAL, most);
      if before.Some? && P.Enabled(before.value, es[|es| - 1])
      then ImagesAfter(c, ImagesOf(c, most), before.value, es[|es| - 1])
      else ImagesOf(c, most)
  }

  /** A transaction staged against what its writer reads: every op fits the document its key
      has in the writer's own view, the transaction's earlier ops applied. */
  ghost predicate StagedWell(c: Config, images: Images, v: P.Served, txn: Txn) {
    v.base.gen in images &&
    forall k: u64 :: WellFormedRun(c, ReadServed(c, images, v, k), txn, k)
  }

  ghost predicate WellStaged(c: Config, images: Images, s: P.State, e: P.Event)
    requires P.Enabled(s, e)
  {
    e.LandAll? ==>
      s.handles[e.h].served.Some? && StagedWell(c, images, s.handles[e.h].served.value, s.handles[e.h].phase.txn)
  }

  /** A safe run whose transactions were staged against what their writers read. */
  ghost predicate HonestRun(c: Config, es: seq<P.Event>)
    decreases |es|
  {
    es == [] ||
    var before := P.Run(P.INITIAL, es[..|es| - 1]);
    && HonestRun(c, es[..|es| - 1])
    && before.Some? && P.Enabled(before.value, es[|es| - 1])
    && Safety.Safe(before.value, es[|es| - 1])
    && WellStaged(c, ImagesOf(c, es[..|es| - 1]), before.value, es[|es| - 1])
  }

  /** Every base ever written renders the transactions it folded. */
  ghost predicate Faithful(c: Config, images: Images, hist: seq<Txn>, cuts: map<nat, nat>) {
    && WellFormedHistory(c, AllOps(hist))
    && forall g :: g in cuts ==> cuts[g] <= |hist| && g in images && Renders(c, images[g], AllOps(hist[..cuts[g]]))
  }

  // ---- reads of a served generation ---------------------------------------------------------

  lemma OverlayFoldIsOverlay(ops: seq<Op>)
    ensures OverlayOf(OverlayFold(ops), ops)
  {
    forall k: u64 ensures At(OverlayFold(ops), k) == PatchOf(ops, k) { OverlayFolds(ops, k); }
  }

  /** A served generation reads, key by key, as the reference machine over the ops it shows. */
  lemma ServedReads(c: Config, images: Images, hist: seq<Txn>, cuts: map<nat, nat>, v: P.Served, k: u64)
    requires I.ServedOk(hist, cuts, v) && Faithful(c, images, hist, cuts)
    ensures v.base.gen in images
    ensures Same(ReadServed(c, images, v, k), Reference(c, P.ViewOps(v), k))
    ensures WellFormedHistory(c, P.ViewOps(v))
    ensures Renders(c, images[v.base.gen], v.base.folded)
  {
    hide Same, Reference, ReadAt, Renders, WellFormedHistory;
    var before, after := v.base.folded, OpsOf(v.overlay);
    assert Renders(c, images[v.base.gen], before);
    S.ViewIsPrefix(hist, cuts, v);
    var ops := AllOps(hist);
    assert ops == P.ViewOps(v) + ops[P.LastSeq(v)..];
    HistoryPrefix(c, P.ViewOps(v), ops[P.LastSeq(v)..]);
    OverlayFoldIsOverlay(after);
    ReadsRefine(c, images[v.base.gen], before, OverlayFold(after), after, k);
  }

  // ---- every step keeps the images faithful ---------------------------------------------------

  /** Adding transactions to the history, or taking back some no base folded. */
  lemma FaithfulMoves(c: Config, images: Images, hist: seq<Txn>, cuts: map<nat, nat>, hist': seq<Txn>)
    requires Faithful(c, images, hist, cuts) && WellFormedHistory(c, AllOps(hist'))
    requires hist <= hist' || hist' <= hist
    requires forall g :: g in cuts ==> cuts[g] <= |hist'|
    ensures Faithful(c, images, hist', cuts)
  {
    hide WellFormedHistory, Renders;
    forall g | g in cuts ensures hist'[..cuts[g]] == hist[..cuts[g]] {}
  }

  lemma LandKeepsFaithful(c: Config, images: Images, s: P.State, h: nat)
    requires I.Inv(s) && P.Enabled(s, P.LandAll(h)) && WellStaged(c, images, s, P.LandAll(h))
    requires Faithful(c, images, s.hist, s.cuts)
    ensures Faithful(c, images, P.Apply(s, P.LandAll(h)).hist, s.cuts)
  {
    hide WellFormedRun, Same, Reference, Renders, ReadAt, I.SeenOk;
    var v, txn := s.handles[h].served.value, s.handles[h].phase.txn;
    assert I.HandleOk(s.hist, s.cuts, s.disk, s.nextId, s.handles[h]);
    Safety.CommitsAreSerial(s, h);
    AllOpsSnoc(s.hist, txn);
    forall k: u64 ensures WellFormedRun(c, None, AllOps(s.hist) + txn, k) {
      ServedReads(c, images, s.hist, s.cuts, v, k);
      StagedExtends(c, ReadServed(c, images, v, k), AllOps(s.hist), txn, k);
    }
    FaithfulMoves(c, images, s.hist, s.cuts, s.hist + [txn]);
  }

  lemma StagedExtends(c: Config, seen: Option<Doc>, ops: seq<Op>, txn: Txn, k: u64)
    requires Same(seen, Reference(c, ops, k)) && WellFormedRun(c, seen, txn, k)
    requires WellFormedRun(c, None, ops, k)
    ensures WellFormedRun(c, None, ops + txn, k)
  {
    hide WellFormedRun, Same, RunOn;
    RunSame(c, seen, Reference(c, ops, k), txn, k);
    RunSplit(c, None, ops, txn, k);
  }

  /** What a compaction starts from and what it leaves: the whole history, under a new generation. */
  lemma SwapFacts(s: P.State, h: nat)
    requires I.Inv(s) && P.Enabled(s, P.SwapBase(h))
    ensures var s', v := P.Apply(s, P.SwapBase(h)), s.handles[h].served.value;
            && I.ServedOk(s.hist, s.cuts, v) && P.ViewOps(v) == AllOps(s.hist)
            && s'.hist == s.hist && s'.cuts == s.cuts[s'.disk.base.gen := |s.hist|]
            && s'.disk.base.gen !in s.cuts
  {
    hide I.SeenOk, I.ServedOk, Recs;
    var hd := s.handles[h];
    assert I.HandleOk(s.hist, s.cuts, s.disk, s.nextId, hd);
    Safety.GenerationsAreFresh(s, h);
    S.ViewIsPrefix(s.hist, s.cuts, hd.served.value);
    assert AllOps(s.hist)[..Count(s.hist)] == AllOps(s.hist);
  }

  lemma SwapKeepsFaithful(c: Config, images: Images, s: P.State, h: nat)
    requires I.Inv(s) && P.Enabled(s, P.SwapBase(h)) && Faithful(c, images, s.hist, s.cuts)
    ensures var s' := P.Apply(s, P.SwapBase(h));
            Faithful(c, ImagesAfter(c, images, s, P.SwapBase(h)), s'.hist, s'.cuts)
  {
    hide Renders, WellFormedHistory, Compact, I.ServedOk, I.Inv, P.Apply, OverlayFold;
    var v := s.handles[h].served.value;
    SwapFacts(s, h);
    assert s.hist[..|s.hist|] == s.hist;
    ServedReads(c, images, s.hist, s.cuts, v, 0);
    OverlayFoldIsOverlay(OpsOf(v.overlay));
    CompactRenders(c, images[v.base.gen], v.base.folded, OverlayFold(OpsOf(v.overlay)), OpsOf(v.overlay));
  }

  lemma OtherStepsMove(s: P.State, e: P.Event)
    requires I.Inv(s) && P.Enabled(s, e) && Safety.Safe(s, e)
    requires !e.LandAll? && !e.SwapBase?
    ensures var s' := P.Apply(s, e);
            && s'.cuts == s.cuts && s'.hist <= s.hist
            && forall g :: g in s.cuts ==> s.cuts[g] <= |s'.hist|
  {
    hide I.Inv;
    Safety.StepKeepsInv(s, e);
    CutsInHist(P.Apply(s, e));
  }

  lemma CutsInHist(s: P.State)
    requires I.Inv(s)
    ensures forall g :: g in s.cuts ==> s.cuts[g] <= |s.hist|
  {
    forall g | g in s.cuts ensures s.cuts[g] <= |s.hist| {
      assert I.CutOk(s.hist, s.cuts, s.disk, g, s.cuts[g]);
    }
  }

  lemma StepKeepsFaithful(c: Config, images: Images, s: P.State, e: P.Event)
    requires I.Inv(s) && P.Enabled(s, e) && Safety.Safe(s, e) && WellStaged(c, images, s, e)
    requires Faithful(c, images, s.hist, s.cuts)
    ensures var s' := P.Apply(s, e);
            Faithful(c, ImagesAfter(c, images, s, e), s'.hist, s'.cuts)
  {
    hide I.Inv, Faithful, P.Apply;
    if e.LandAll? {
      LandKeepsFaithful(c, images, s, e.h);
      LandLeavesCuts(s, e.h);
    } else if e.SwapBase? {
      SwapKeepsFaithful(c, images, s, e.h);
    } else {
      var s' := P.Apply(s, e);
      OtherStepsMove(s, e);
      ShrinksWell(c, images, s.hist, s.cuts, s'.hist);
      FaithfulMoves(c, images, s.hist, s.cuts, s'.hist);
    }
  }

  lemma LandLeavesCuts(s: P.State, h: nat)
    requires P.Enabled(s, P.LandAll(h))
    ensures P.Apply(s, P.LandAll(h)).cuts == s.cuts
  {
  }

  lemma ShrinksWell(c: Config, images: Images, hist: seq<Txn>, cuts: map<nat, nat>, hist': seq<Txn>)
    requires Faithful(c, images, hist, cuts) && hist' <= hist
    ensures WellFormedHistory(c, AllOps(hist'))
  {
    hide WellFormedHistory, Renders;
    AllOpsSplit(hist', hist[|hist'|..]);
    assert hist == hist' + hist[|hist'|..];
    HistoryPrefix(c, AllOps(hist'), AllOps(hist[|hist'|..]));
  }

  lemma InitiallyFaithful(c: Config)
    ensures Faithful(c, ImagesOf(c, []), P.INITIAL.hist, P.INITIAL.cuts)
  {
    var none: seq<Txn> := [];
    assert AllOps(none) == [] && none[..0] == none;
    EmptyRenders(c);
  }

  lemma {:induction false} RunIsFaithful(c: Config, es: seq<P.Event>)
    requires HonestRun(c, es)
    ensures var r := P.Run(P.INITIAL, es);
            r.Some? && I.Inv(r.value) && Faithful(c, ImagesOf(c, es), r.value.hist, r.value.cuts)
    decreases |es|
  {
    hide I.Inv, Faithful, P.Apply, P.Enabled, Safety.Safe, WellStaged, ImagesAfter;
    if es == [] {
      Safety.InitiallyInv();
      InitiallyFaithful(c);
    } else {
      var most, e := es[..|es| - 1], es[|es| - 1];
      RunIsFaithful(c, most);
      var s := P.Run(P.INITIAL, most).value;
      Safety.StepKeepsInv(s, e);
      StepKeepsFaithful(c, ImagesOf(c, most), s, e);
    }
  }

  // ---- the end-to-end results -------------------------------------------------------------------

  /** Key by key, what a handle reads is what the reference machine makes of `ops`. */
  ghost predicate ReadsAs(c: Config, images: Images, v: P.Served, ops: seq<Op>) {
    && v.base.gen in images
    && forall k: u64 :: Same(ReadServed(c, images, v, k), Reference(c, ops, k))
  }

  lemma FaithfulReads(c: Config, images: Images, hist: seq<Txn>, cuts: map<nat, nat>, v: P.Served)
    requires I.ServedOk(hist, cuts, v) && Faithful(c, images, hist, cuts)
    ensures ReadsAs(c, images, v, P.ViewOps(v))
  {
    hide Same, Reference, ReadServed, I.ServedOk, Faithful, P.ViewOps;
    ServedReads(c, images, hist, cuts, v, 0);
    forall k: u64 ensures Same(ReadServed(c, images, v, k), Reference(c, P.ViewOps(v), k)) {
      ServedReads(c, images, hist, cuts, v, k);
    }
  }

  /** A fresh load, after any honest run with any number of handles, compactions, failures
      and crashes, reads every key as the reference machine does over every committed op. */
  lemma FreshLoadReadsHistory(c: Config, es: seq<P.Event>)
    requires HonestRun(c, es)
    ensures var s := P.Run(P.INITIAL, es).value;
            var o := P.Build(s.disk.base, s.disk.log);
            o.Applied? && ReadsAs(c, ImagesOf(c, es), o.served, AllOps(s.hist))
  {
    hide Faithful, ReadsAs;
    RunIsFaithful(c, es);
    var s := P.Run(P.INITIAL, es).value;
    I.BuildIsComplete(s.hist, s.cuts, s.disk, s.nextId, s.disk.base);
    var v := P.Build(s.disk.base, s.disk.log).served;
    FaithfulReads(c, ImagesOf(c, es), s.hist, s.cuts, v);
    S.ViewIsPrefix(s.hist, s.cuts, v);
    assert AllOps(s.hist)[..Count(s.hist)] == AllOps(s.hist);
  }

  /** So does every handle, however far behind, over whole transactions: a prefix of the
      committed ones. */
  lemma HandlesReadPrefixes(c: Config, es: seq<P.Event>, h: nat) returns (j: nat)
    requires HonestRun(c, es)
    requires var r := P.Run(P.INITIAL, es); r.Some? && h in r.value.handles && r.value.handles[h].served.Some?
    ensures var s := P.Run(P.INITIAL, es).value;
            j <= |s.hist| && ReadsAs(c, ImagesOf(c, es), s.handles[h].served.value, AllOps(s.hist[..j]))
  {
    hide Faithful, ReadsAs, I.SeenOk, I.PhaseOk, I.FilesOk;
    RunIsFaithful(c, es);
    var s := P.Run(P.INITIAL, es).value;
    var v := s.handles[h].served.value;
    assert I.HandleOk(s.hist, s.cuts, s.disk, s.nextId, s.handles[h]);
    FaithfulReads(c, ImagesOf(c, es), s.hist, s.cuts, v);
    Safety.ServedIsPrefix(s.hist, s.cuts, v);
    j :| 0 <= j <= |s.hist| && P.ViewOps(v) == AllOps(s.hist[..j]);
  }
}
