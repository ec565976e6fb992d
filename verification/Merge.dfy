/** The merged read of one node: the overlay's ops folded last-wins into a patch, and the
    patch read over the base record. Beside it, a reference machine that applies the same
    ops one by one; the fold refines it. */
module Merge {
  import opened Ops

  // ---- node flags ------------------------------------------------------------------

  const PINNED: u16 := 1
  const STUB: u16 := 2
  const TOMBSTONE: u16 := 4

  /** The three flags that mean something, as one digit. */
  function Low(flags: u16): (r: int)
    ensures 0 <= r < 8
  {
    flags % 8
  }

  predicate IsPinned(flags: u16) { Low(flags) in {1, 3, 5, 7} }
  predicate IsStub(flags: u16) { Low(flags) in {2, 3, 6, 7} }
  predicate IsTombstone(flags: u16) { Low(flags) >= 4 }

  /** They are the low three bits. */
  lemma FlagBits(flags: u16)
    ensures IsPinned(flags) <==> (flags / PINNED) % 2 == 1
    ensures IsStub(flags) <==> (flags / STUB) % 2 == 1
    ensures IsTombstone(flags) <==> (flags / TOMBSTONE) % 2 == 1
  {
  }

  lemma LowShift(flags: u16, step: int)
    requires 0 <= Low(flags) + step < 8
    ensures 0 <= flags + step < 0x1_0000 && Low(flags + step) == Low(flags) + step && (flags + step) / 8 == flags / 8
  {
  }

  function WithPin(flags: u16, pinned: bool): (f: u16)
    ensures IsPinned(f) == pinned && IsStub(f) == IsStub(flags) && IsTombstone(f) == IsTombstone(flags)
  {
    if pinned && !IsPinned(flags) then LowShift(flags, PINNED); flags + PINNED
    else if !pinned && IsPinned(flags) then LowShift(flags, -1); flags - PINNED
    else flags
  }

  function WithTombstone(flags: u16): (f: u16)
    ensures IsTombstone(f) && IsStub(f) == IsStub(flags) && IsPinned(f) == IsPinned(flags)
  {
    if IsTombstone(flags) then flags else LowShift(flags, TOMBSTONE); flags + TOMBSTONE
  }

  /** The other bits stay. */
  lemma RestKept(flags: u16, pinned: bool)
    ensures WithPin(flags, pinned) / 8 == flags / 8 && WithTombstone(flags) / 8 == flags / 8
  {
    if pinned != IsPinned(flags) { LowShift(flags, if pinned then PINNED else -1); }
    if !IsTombstone(flags) { LowShift(flags, TOMBSTONE); }
  }

  // ---- what a base holds for a node, and what a read returns -------------------------

  /** A node's own fields: as the base keeps them, and as a snapshot returns them. */
  datatype NodeRec = NodeRec(
    url: text, title: Option<text>, snippet: Option<text>, etag: Option<text>,
    hash: u64, fetched: u64, lastChange: u64, interval: u32, checks: u16, changes: u16, flags: u16)

  /** A segment as a snapshot returns it. */
  datatype SegRef = SegRef(segKey: u64, heading: text, range: Option<(u32, u32)>, depth: byte, importance: u16, flags: byte)

  datatype BaseDoc = BaseDoc(rec: NodeRec, segs: seq<SegRef>, edges: seq<Edge>, attrs: seq<Attr>)

  /** What reads depend on besides the data: the interval given to a new document, and the
      key a segment heading derives (a digest, left uninterpreted). */
  datatype Config = Config(baseInterval: u32, segKey: (u64, text) -> u64)

  // ---- the overlay fold ----------------------------------------------------------------

  datatype Counters = Counters(checks: u16, changes: u16, lastChange: u64)

  datatype Patch = Patch(
    core: Option<Op>, segs: Option<Op>, edges: Option<Op>, attrs: Option<Op>, touch: Option<Op>,
    carried: Option<Counters>, pinned: Option<bool>, removed: bool, severed: bool)

  const NO_PATCH := Patch(None, None, None, None, None, None, None, false, false)
  const REMOVED := NO_PATCH.(removed := true, severed := true)

  function FoldUpsert(p: Patch, u: Op): Patch
    requires u.Upsert?
  {
    var pin := IsPinned(u.flags);
    var priorCorePin := p.core.Some? && p.core.value.Upsert? && IsPinned(p.core.value.flags);
    var folded :=
      if p.pinned.Some? then Some(pin || p.pinned.value)
      else if pin || priorCorePin then Some(true) else None;
    var carried :=
      if p.touch.Some? && p.touch.value.Touch? then
        Some(Counters(p.touch.value.checks, p.touch.value.changes, p.touch.value.lastChange))
      else p.carried;
    p.(removed := false, carried := carried, touch := None, core := Some(u), pinned := folded)
  }

  function FoldOne(p: Patch, op: Op): Patch {
    match op
    case Upsert(_, _, _, _, _, _, _, _) => FoldUpsert(p, op)
    case Segs(_, _) => p.(segs := Some(op))
    case Edges(_, _) => p.(edges := Some(op))
    case Attrs(_, _) => p.(attrs := Some(op))
    case Touch(_, _, _, _, _, _, _, _, _, _) => p.(touch := Some(op))
    case Remove(_) => REMOVED
    case Pin(_, pinned) => p.(pinned := Some(pinned))
  }

  /** The patch of `key` after a run of ops: only the ops on `key` matter. */
  function Fold(ops: seq<Op>, key: u64): Patch {
    if ops == [] then NO_PATCH
    else
      var p := Fold(ops[..|ops| - 1], key);
      if ops[|ops| - 1].key == key then FoldOne(p, ops[|ops| - 1]) else p
  }

  predicate Touched(ops: seq<Op>, key: u64) { exists i :: 0 <= i < |ops| && ops[i].key == key }

  function PatchOf(ops: seq<Op>, key: u64): Option<Patch> {
    if Touched(ops, key) then Some(Fold(ops, key)) else None
  }

  type Overlay = map<u64, Patch>

  /** The fold a snapshot builds over the ops it sees: one pass, entries updated in place. */
  method BuildOverlay(ops: seq<Op>) returns (m: Overlay)
    ensures forall k: u64 :: k in m <==> Touched(ops, k)
    ensures forall k: u64 :: k in m ==> m[k] == Fold(ops, k)
  {
    m := map[];
    var i := 0;
    while i < |ops|
      invariant 0 <= i <= |ops|
      invariant forall k: u64 :: k in m <==> Touched(ops[..i], k)
      invariant forall k: u64 :: k in m ==> m[k] == Fold(ops[..i], k)
    {
      var op := ops[i];
      assert ops[..i + 1][..i] == ops[..i];
      forall k: u64 ensures Touched(ops[..i + 1], k) <==> Touched(ops[..i], k) || op.key == k {
        if Touched(ops[..i], k) {
          var j :| 0 <= j < i && ops[..i][j].key == k;
          assert ops[..i + 1][j].key == k;
        }
        if op.key == k { assert ops[..i + 1][i].key == k; }
      }
      if op.key !in m { UntouchedFold(ops[..i], op.key); }
      var entry := if op.key in m then m[op.key] else NO_PATCH;
      m := m[op.key := FoldOne(entry, op)];
      i := i + 1;
    }
    assert ops[..|ops|] == ops;
  }

  lemma {:induction false} UntouchedFold(ops: seq<Op>, key: u64)
    requires !Touched(ops, key)
    ensures Fold(ops, key) == NO_PATCH
  {
    if ops != [] {
      var most := ops[..|ops| - 1];
      forall i | 0 <= i < |most| ensures most[i].key != key {
        assert ops[i].key != key;
      }
      UntouchedFold(most, key);
    }
  }

  // ---- merged reads ------------------------------------------------------------------------

  function Merged(rec: NodeRec, t: Option<Op>): NodeRec {
    if t.Some? && t.value.Touch? then
      rec.(fetched := t.value.checkedAt, interval := t.value.interval, checks := t.value.checks,
           changes := t.value.changes, lastChange := t.value.lastChange,
           hash := if t.value.newHash.Some? then t.value.newHash.value else rec.hash,
           etag := if t.value.newEtag.Some? then t.value.newEtag else rec.etag,
           flags := if t.value.tombstone then WithTombstone(rec.flags) else rec.flags)
    else rec
  }

  /** A node whose newest upsert is in the overlay. */
  function CoreNode(c: Config, b: Option<BaseDoc>, p: Patch, u: Op): NodeRec
    requires u.Upsert?
  {
    var history := if p.severed then None else b;
    var flags :=
      if p.pinned.Some? then WithPin(u.flags, p.pinned.value)
      else if history.Some? && IsPinned(history.value.rec.flags) then WithPin(u.flags, true)
      else u.flags;
    if p.touch.Some? && p.touch.value.Touch? then
      Merged(NodeRec(u.url, u.title, u.snippet, u.etag, u.hash, u.fetched, 0, c.baseInterval, 0, 0, flags), p.touch)
    else
      var kept :=
        if p.carried.Some? then p.carried.value
        else if history.Some? then
          Counters(history.value.rec.checks, history.value.rec.changes, history.value.rec.lastChange)
        else Counters(0, 0, 0);
      var interval :=
        if history.Some? && history.value.rec.hash == u.hash then
          (if history.value.rec.interval < 1 then 1 else history.value.rec.interval)
        else c.baseInterval;
      NodeRec(u.url, u.title, u.snippet, u.etag, u.hash, u.fetched,
              kept.lastChange, interval, kept.checks, kept.changes, flags)
  }

  function BaseNode(b: BaseDoc, p: Option<Patch>): NodeRec {
    if p.None? then b.rec
    else
      var flags := if p.value.pinned.Some? then WithPin(b.rec.flags, p.value.pinned.value) else b.rec.flags;
      Merged(b.rec.(flags := flags), p.value.touch)
  }

  /** Look up a node, merging base and overlay. */
  function Node(c: Config, b: Option<BaseDoc>, p: Option<Patch>): Option<NodeRec> {
    if p.Some? && p.value.removed then None
    else if p.Some? && p.value.core.Some? && p.value.core.value.Upsert? then
      Some(CoreNode(c, b, p.value, p.value.core.value))
    else if b.Some? then Some(BaseNode(b.value, p))
    else None
  }

  function SegRefs(c: Config, key: u64, segs: seq<Seg>): seq<SegRef> {
    seq(|segs|, i requires 0 <= i < |segs| =>
      var s := segs[i];
      SegRef(c.segKey(key, s.heading), s.heading,
             if s.flags % 2 == 0 then Some((s.start, s.len)) else None, s.depth, s.importance, s.flags))
  }

  /** Entry by entry: a segment has its range just when the missing-range bit is clear. */
  lemma SegRefsAre(c: Config, key: u64, segs: seq<Seg>, i: nat)
    requires i < |segs|
    ensures |SegRefs(c, key, segs)| == |segs|
    ensures var s, r := segs[i], SegRefs(c, key, segs)[i];
            && (s.flags % 2 == 0 <==> r.range.Some?) && (r.range.Some? ==> r.range.value.0 == s.start && r.range.value.1 == s.len)
            && r.segKey == c.segKey(key, s.heading) && r.heading == s.heading
            && r.depth == s.depth && r.importance == s.importance && r.flags == s.flags
  {
  }

  function Segments(c: Config, b: Option<BaseDoc>, p: Option<Patch>): seq<SegRef> {
    if p.Some? && (p.value.removed || (p.value.segs.None? && p.value.severed)) then []
    else if p.Some? && p.value.segs.Some? && p.value.segs.value.Segs? then
      SegRefs(c, p.value.segs.value.key, p.value.segs.value.segs)
    else if b.Some? then b.value.segs else []
  }

  function Neighbors(b: Option<BaseDoc>, p: Option<Patch>): seq<Edge> {
    if p.Some? && p.value.removed then []
    else if p.Some? && p.value.edges.Some? && p.value.edges.value.Edges? then p.value.edges.value.edges
    else if p.Some? && p.value.severed then []
    else if b.Some? then b.value.edges else []
  }

  function Attributes(b: Option<BaseDoc>, p: Option<Patch>): seq<Attr> {
    if p.Some? && (p.value.removed || (p.value.attrs.None? && p.value.severed)) then []
    else if p.Some? && p.value.attrs.Some? && p.value.attrs.value.Attrs? then p.value.attrs.value.attrs
    else if b.Some? then b.value.attrs else []
  }

  // ---- the reference machine ------------------------------------------------------------

  /** Everything a snapshot tells about a node, apart from its revalidation interval. */
  datatype Doc = Doc(
    url: text, title: Option<text>, snippet: Option<text>, etag: Option<text>,
    hash: u64, fetched: u64, lastChange: u64, checks: u16, changes: u16, flags: u16,
    segs: seq<SegRef>, edges: seq<Edge>, attrs: seq<Attr>)

  function DocOf(r: NodeRec, segs: seq<SegRef>, edges: seq<Edge>, attrs: seq<Attr>): Doc {
    Doc(r.url, r.title, r.snippet, r.etag, r.hash, r.fetched, r.lastChange, r.checks, r.changes, r.flags,
        segs, edges, attrs)
  }

  /** The whole merged read of a node. */
  function Read(c: Config, b: Option<BaseDoc>, p: Option<Patch>): Option<Doc> {
    var n := Node(c, b, p);
    if n.None? then None else Some(DocOf(n.value, Segments(c, b, p), Neighbors(b, p), Attributes(b, p)))
  }

  /** One op applied to one document. */
  function Apply(c: Config, d: Option<Doc>, op: Op): Option<Doc> {
    match op
    case Upsert(_, hash, fetched, flags, url, title, snippet, etag) =>
      if d.None? then Some(Doc(url, title, snippet, etag, hash, fetched, 0, 0, 0, flags, [], [], []))
      else
        var pinned := if IsPinned(d.value.flags) then WithPin(flags, true) else flags;
        Some(d.value.(url := url, title := title, snippet := snippet, etag := etag,
                      hash := hash, fetched := fetched, flags := pinned))
    case Segs(key, segs) => if d.None? then None else Some(d.value.(segs := SegRefs(c, key, segs)))
    case Edges(_, edges) => if d.None? then None else Some(d.value.(edges := edges))
    case Attrs(_, attrs) => if d.None? then None else Some(d.value.(attrs := attrs))
    case Touch(_, checkedAt, _, newHash, newEtag, _, checks, changes, lastChange, tombstone) =>
      if d.None? then None
      else Some(d.value.(
        fetched := checkedAt, checks := checks, changes := changes, lastChange := lastChange,
        hash := if newHash.Some? then newHash.value else d.value.hash,
        etag := if newEtag.Some? then newEtag else d.value.etag,
        flags := if tombstone then WithTombstone(d.value.flags) else d.value.flags))
    case Remove(_) => None
    case Pin(_, pinned) => if d.None? then None else Some(d.value.(flags := WithPin(d.value.flags, pinned)))
  }

  function RunOn(c: Config, d: Option<Doc>, ops: seq<Op>, key: u64): Option<Doc> {
    if ops == [] then d
    else
      var before := RunOn(c, d, ops[..|ops| - 1], key);
      if ops[|ops| - 1].key == key then Apply(c, before, ops[|ops| - 1]) else before
  }

  /** Ops the fold is exact for: changes to ingested documents only, and touches that lose
      nothing of the document's when they replace an earlier one (they carry a hash, an etag
      if the document has one, and do not revive it). */
  predicate WellFormed(d: Option<Doc>, op: Op) {
    match op
    case Upsert(_, _, _, flags, _, _, _, _) => !IsStub(flags)
    case Remove(_) => true
    case Touch(_, _, _, newHash, newEtag, _, _, _, _, tombstone) =>
      && d.Some? && !IsStub(d.value.flags)
      && newHash.Some?
      && (newEtag.None? ==> d.value.etag.None?)
      && (!tombstone ==> !IsTombstone(d.value.flags))
    case Edges(_, edges) => d.Some? && !IsStub(d.value.flags) && Ascending(edges)
    case _ => d.Some? && !IsStub(d.value.flags)
  }

  /** What a writer stages for a document that was ingested is well formed, but for touches and
      for edges out of order. */
  lemma StagedOpsAreWellFormed(d: Option<Doc>, op: Op)
    requires op.Upsert? ==> !IsStub(op.flags)
    requires op.Segs? || op.Edges? || op.Attrs? || op.Pin? ==> d.Some? && !IsStub(d.value.flags)
    requires !op.Touch? && (op.Edges? ==> Ascending(op.edges))
    ensures WellFormed(d, op)
  {
  }

  predicate WellFormedRun(c: Config, d: Option<Doc>, ops: seq<Op>, key: u64) {
    ops == [] ||
    var most := ops[..|ops| - 1];
    && WellFormedRun(c, d, most, key)
    && (ops[|ops| - 1].key == key ==> WellFormed(RunOn(c, d, most, key), ops[|ops| - 1]))
  }

  // ---- refinement ------------------------------------------------------------------------

  /** The shape of a patch well-formed ops leave. */
  predicate Settled(b: Option<BaseDoc>, p: Patch) {
    && (p.removed ==> p == REMOVED)
    && (p.core.Some? ==> p.core.value.Upsert?)
    && (p.segs.Some? ==> p.segs.value.Segs?)
    && (p.edges.Some? ==> p.edges.value.Edges?)
    && (p.attrs.Some? ==> p.attrs.value.Attrs?)
    && (p.touch.Some? ==> p.touch.value.Touch?)
    && (p.core.None? ==> p.carried.None? && (p.severed ==> p.removed))
    && (p.core.None? && b.None? && !p.removed ==> p == NO_PATCH)
    && (p.core.Some? && p.pinned.None? ==> !IsPinned(p.core.value.flags))
  }

  lemma UpsertRefines(c: Config, b: Option<BaseDoc>, p: Patch, u: Op)
    requires u.Upsert? && Settled(b, p)
    ensures Settled(b, FoldOne(p, u))
    ensures Read(c, b, Some(FoldOne(p, u))) == Apply(c, Read(c, b, Some(p)), u)
  {
    hide IsPinned, IsStub, IsTombstone, WithPin, WithTombstone;
    PinTwice(if b.Some? then b.value.rec.flags else 0, u.flags);
    if p.core.Some? && p.core.value.Upsert? { PinTwice(p.core.value.flags, u.flags); }
  }

  lemma PinTwice(was: u16, flags: u16)
    ensures WithPin(flags, IsPinned(flags)) == flags
    ensures IsPinned(flags) ==> WithPin(flags, true) == flags
  {
  }

  lemma OtherOpRefines(c: Config, b: Option<BaseDoc>, p: Patch, op: Op)
    requires !op.Upsert? && !op.Touch? && Settled(b, p) && WellFormed(Read(c, b, Some(p)), op)
    ensures Settled(b, FoldOne(p, op))
    ensures Read(c, b, Some(FoldOne(p, op))) == Apply(c, Read(c, b, Some(p)), op)
  {
    hide IsPinned, IsStub, IsTombstone, WithPin, WithTombstone;
    if op.Pin? {
      PinCommutes(if b.Some? then b.value.rec.flags else 0, op.pinned);
      if p.core.Some? && p.core.value.Upsert? { PinCommutes(p.core.value.flags, op.pinned); }
    }
  }

  /** Pinning commutes with a tombstone and replaces an earlier pin. */
  lemma PinCommutes(flags: u16, pinned: bool)
    ensures forall before :: WithPin(WithPin(flags, before), pinned) == WithPin(flags, pinned)
    ensures forall before :: WithPin(WithTombstone(WithPin(flags, before)), pinned) == WithTombstone(WithPin(flags, pinned))
    ensures WithPin(WithTombstone(flags), pinned) == WithTombstone(WithPin(flags, pinned))
  {
  }

  lemma TouchRefines(c: Config, b: Option<BaseDoc>, p: Patch, t: Op)
    requires t.Touch? && Settled(b, p) && WellFormed(Read(c, b, Some(p)), t)
    ensures Settled(b, FoldOne(p, t))
    ensures Read(c, b, Some(FoldOne(p, t))) == Apply(c, Read(c, b, Some(p)), t)
  {
    hide IsPinned, IsStub, IsTombstone, WithPin;
    TouchIsExactlyFolded(c, b, p, t);
  }

  /** One more op on a folded patch reads as the op applied to what was read before. */
  lemma FoldRefinesStep(c: Config, b: Option<BaseDoc>, p: Patch, op: Op)
    requires Settled(b, p) && WellFormed(Read(c, b, Some(p)), op)
    ensures Settled(b, FoldOne(p, op))
    ensures Read(c, b, Some(FoldOne(p, op))) == Apply(c, Read(c, b, Some(p)), op)
  {
    hide Read, Settled, FoldOne, Apply;
    if op.Upsert? {
      UpsertRefines(c, b, p, op);
    } else if op.Touch? {
      TouchRefines(c, b, p, op);
    } else {
      OtherOpRefines(c, b, p, op);
    }
  }

  /** A document nobody touched reads through an empty patch as through none. */
  lemma NoPatchReads(c: Config, b: Option<BaseDoc>)
    ensures Settled(b, NO_PATCH) && Read(c, b, Some(NO_PATCH)) == Read(c, b, None)
  {
  }

  /** Folding a whole overlay and reading through the patch is applying its ops one by one. */
  lemma {:induction false} FoldRefines(c: Config, b: Option<BaseDoc>, ops: seq<Op>, key: u64)
    requires WellFormedRun(c, Read(c, b, None), ops, key)
    ensures Settled(b, Fold(ops, key))
    ensures Read(c, b, Some(Fold(ops, key))) == RunOn(c, Read(c, b, None), ops, key)
  {
    hide Read, Settled, FoldOne, Apply, WellFormed;
    if ops == [] {
      NoPatchReads(c, b);
    } else {
      var most := ops[..|ops| - 1];
      FoldRefines(c, b, most, key);
      if ops[|ops| - 1].key == key { FoldRefinesStep(c, b, Fold(most, key), ops[|ops| - 1]); }
    }
  }

  /** The same for the optional patch a snapshot looks up. */
  lemma SnapshotRefines(c: Config, b: Option<BaseDoc>, ops: seq<Op>, key: u64)
    requires WellFormedRun(c, Read(c, b, None), ops, key)
    ensures Read(c, b, PatchOf(ops, key)) == RunOn(c, Read(c, b, None), ops, key)
  {
    hide Read, Settled, FoldOne, Apply, WellFormed;
    FoldRefines(c, b, ops, key);
    if !Touched(ops, key) {
      UntouchedFold(ops, key);
      NoPatchReads(c, b);
    }
  }

  // ---- where a touch folds exactly --------------------------------------------------------

  function Tombed(flags: u16, gone: bool): u16 { if gone then WithTombstone(flags) else flags }

  lemma TombedTwice(flags: u16, was: bool, now: bool)
    ensures var seen := Tombed(flags, was);
            Tombed(flags, now) == Tombed(seen, now) <==> IsTombstone(flags) || now || !IsTombstone(seen)
  {
  }

  lemma TouchLeavesSets(c: Config, b: Option<BaseDoc>, p: Patch, t: Option<Op>)
    ensures var q := p.(touch := t);
            && Segments(c, b, Some(q)) == Segments(c, b, Some(p))
            && Neighbors(b, Some(q)) == Neighbors(b, Some(p))
            && Attributes(b, Some(q)) == Attributes(b, Some(p))
  {
  }

  /** A touch replaces the touch before it in the overlay, so it is exact if and only if
      what it leaves out (a hash, an etag, a tombstone) reads the same without that one. */
  lemma TouchIsExactlyFolded(c: Config, b: Option<BaseDoc>, p: Patch, t: Op)
    requires t.Touch? && Settled(b, p) && Read(c, b, Some(p)).Some?
    ensures Read(c, b, Some(p.(touch := None))).Some?
    ensures
      var d := Read(c, b, Some(p)).value;
      var under := Read(c, b, Some(p.(touch := None))).value;
      Read(c, b, Some(FoldOne(p, t))) == Apply(c, Some(d), t) <==>
        && (t.newHash.None? ==> under.hash == d.hash)
        && (t.newEtag.None? ==> under.etag == d.etag)
        && (IsTombstone(under.flags) || t.tombstone || !IsTombstone(d.flags))
  {
    hide IsPinned, IsStub, IsTombstone, WithPin, WithTombstone, Segments, Neighbors, Attributes;
    TouchLeavesSets(c, b, p, None);
    TouchLeavesSets(c, b, p, Some(t));
    var under := Read(c, b, Some(p.(touch := None))).value;
    TombedTwice(under.flags, p.touch.Some? && p.touch.value.tombstone, t.tombstone);
  }

  /** A document seen gone and then seen again: alive while both observations are in the
      overlay, gone if the first was compacted before the second. */
  lemma TombstoneDependsOnCompaction(c: Config)
    ensures
      var u := Upsert(7, 1, 10, 0, [65], None, None, None);
      var gone := Touch(7, 20, 3, Some(1), None, 60, 1, 0, 0, true);
      var back := Touch(7, 30, 0, Some(1), None, 60, 2, 0, 0, false);
      var kept := Read(c, None, Some(FoldOne(FoldOne(FoldOne(NO_PATCH, u), gone), back)));
      var between := Node(c, None, Some(FoldOne(FoldOne(NO_PATCH, u), gone)));
      && kept.Some? && !IsTombstone(kept.value.flags)
      && between.Some?
      && var compacted := Read(c, Some(BaseDoc(between.value, [], [], [])), Some(FoldOne(NO_PATCH, back)));
         compacted.Some? && IsTombstone(compacted.value.flags)
  {
  }
}
