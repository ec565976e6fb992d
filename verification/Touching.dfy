/** What a writer records when it revalidates a document: the whole state the observation
    leaves, read from its view and from what it has staged, so that folding it over an
    earlier touch loses nothing. */
module Touching {
  import opened Ops
  import opened Merge

  /** How a revalidation came out. */
  datatype Outcome = Unchanged | Changed | Failed | Gone

  function TagOf(o: Outcome): byte {
    match o
    case Unchanged => 0
    case Changed => 1
    case Failed => 2
    case Gone => 3
  }

  /** An outcome from its tag; an unknown one counts as a failure. */
  function OutcomeOf(tag: byte): Outcome {
    if tag == 0 then Unchanged else if tag == 1 then Changed else if tag == 3 then Gone else Failed
  }

  /** What was observed: the outcome, and what the server sent. */
  datatype Observation = Observation(checkedAt: u64, outcome: Outcome, hash: Option<u64>, etag: Option<text>)

  /** The freshness policy: the next interval, from the last one and an outcome. */
  type Policy = (u32, Outcome) -> u32

  /** The newest upsert of `key` staged so far. */
  function StagedUpsert(staged: seq<Op>, key: u64): (u: Option<Op>)
    ensures u.Some? ==> u.value.Upsert? && u.value.key == key
  {
    if staged == [] then None
    else
      var last := staged[|staged| - 1];
      if last.Upsert? && last.key == key then Some(last) else StagedUpsert(staged[..|staged| - 1], key)
  }

  function OneMore(n: u16): u16 { if n == 0xFFFF then n else n + 1 }

  /** The content hash and etag a touch starts from: the newest staged upsert's, else the
      committed ones. */
  function ReadHash(node: Doc, staged: seq<Op>, key: u64): u64 {
    var u := StagedUpsert(staged, key);
    if u.Some? then u.value.hash else node.hash
  }

  function ReadEtag(node: Doc, staged: seq<Op>, key: u64): Option<text> {
    var u := StagedUpsert(staged, key);
    if u.Some? then u.value.etag else node.etag
  }

  function AtLeastOne(n: u32): u32 { if n < 1 then 1 else n }

  /** The touch staged for an observation of a committed node that shows `interval`. */
  function TouchOp(node: Doc, interval: u32, staged: seq<Op>, key: u64, o: Observation, next: Policy): (t: Op)
    ensures t.Touch? && t.key == key
  {
    Touch(key, o.checkedAt, TagOf(o.outcome), Some(if o.hash.Some? then o.hash.value else ReadHash(node, staged, key)),
          if o.etag.Some? then o.etag else ReadEtag(node, staged, key),
          next(AtLeastOne(interval), o.outcome), OneMore(node.checks),
          if o.outcome.Changed? then OneMore(node.changes) else node.changes,
          if o.outcome.Changed? then o.checkedAt else node.lastChange, o.outcome.Gone?)
  }

  /** What an observation means for the document it is made of, whatever a writer reads or
      stages: one more check, the hash and etag the server sent where it sent any, one more
      change if it changed, gone if it is gone. */
  function Observed(d: Option<Doc>, o: Observation): Option<Doc> {
    if d.None? then None
    else
      Some(d.value.(
        fetched := o.checkedAt,
        hash := if o.hash.Some? then o.hash.value else d.value.hash,
        etag := if o.etag.Some? then o.etag else d.value.etag,
        checks := OneMore(d.value.checks),
        changes := if o.outcome.Changed? then OneMore(d.value.changes) else d.value.changes,
        lastChange := if o.outcome.Changed? then o.checkedAt else d.value.lastChange,
        flags := if o.outcome.Gone? then WithTombstone(d.value.flags) else d.value.flags))
  }

  /** The document the staged ops lead to still holds what a touch reads from the committed
      one, wherever the observation does not replace it. */
  predicate LeftAsRead(d: Doc, node: Doc, staged: seq<Op>, key: u64, o: Observation) {
    && (o.hash.None? ==> d.hash == ReadHash(node, staged, key))
    && (o.etag.None? && ReadEtag(node, staged, key).Some? ==> d.etag == ReadEtag(node, staged, key))
    && OneMore(d.checks) == OneMore(node.checks)
    && (if o.outcome.Changed? then OneMore(d.changes) == OneMore(node.changes)
        else d.changes == node.changes && d.lastChange == node.lastChange)
  }

  /** The one pass over the staged ops that finds it. */
  method FindStagedUpsert(staged: seq<Op>, key: u64) returns (u: Option<Op>)
    ensures u == StagedUpsert(staged, key)
  {
    u := None;
    for i := 0 to |staged|
      invariant u == StagedUpsert(staged[..i], key)
    {
      assert staged[..i + 1][..i] == staged[..i];
      if staged[i].Upsert? && staged[i].key == key {
        u := Some(staged[i]);
      }
    }
    assert staged[..|staged|] == staged;
  }

  ghost predicate NoTouchOrRemove(staged: seq<Op>, key: u64) {
    forall i :: 0 <= i < |staged| && staged[i].key == key ==> !staged[i].Touch? && !staged[i].Remove?
  }

  /** With no touch or removal of it staged, a node's hash and etag are those of the newest
      staged upsert, or the committed ones; its counters and change time are the committed ones. */
  lemma {:induction false} StagedState(c: Config, node: Doc, staged: seq<Op>, key: u64)
    requires NoTouchOrRemove(staged, key)
    ensures var d := RunOn(c, Some(node), staged, key);
            && d.Some?
            && d.value.hash == ReadHash(node, staged, key) && d.value.etag == ReadEtag(node, staged, key)
            && d.value.checks == node.checks && d.value.changes == node.changes && d.value.lastChange == node.lastChange
  {
    hide IsPinned, WithPin;
    if staged != [] { StagedState(c, node, staged[..|staged| - 1], key); }
  }

  /** For every node, every run of staged ops (touches and removals included) and every
      observation: staging the touch leaves what was observed if and only if the staged ops
      left the document as the touch reads it. And it folds over them exactly if and only if
      it lands on a document that is no stub, was not seen gone before unless it is gone now,
      and has an etag only if the touch carries one. */
  lemma TouchAccumulatesExactly(c: Config, node: Doc, interval: u32, staged: seq<Op>, key: u64, o: Observation, next: Policy)
    ensures var d := RunOn(c, Some(node), staged, key);
            var t := TouchOp(node, interval, staged, key, o, next);
            && (Apply(c, d, t) == Observed(d, o) <==> d.None? || LeftAsRead(d.value, node, staged, key, o))
            && (WellFormed(d, t) <==>
                  && d.Some? && !IsStub(d.value.flags) && (o.outcome.Gone? || !IsTombstone(d.value.flags))
                  && (d.value.etag.Some? ==> o.etag.Some? || ReadEtag(node, staged, key).Some?))
  {
    hide IsStub, IsTombstone, WithTombstone, RunOn, StagedUpsert;
  }

  /** With no touch or removal of the document staged before it, a touch always leaves what
      was observed, and folds exactly unless it lands on a stub or revives one seen gone. */
  lemma TouchCarriesWholeState(c: Config, node: Doc, interval: u32, staged: seq<Op>, key: u64, o: Observation, next: Policy)
    requires NoTouchOrRemove(staged, key)
    ensures var d := RunOn(c, Some(node), staged, key);
            var t := TouchOp(node, interval, staged, key, o, next);
            && d.Some? && Apply(c, d, t) == Observed(d, o)
            && (WellFormed(d, t) <==> !IsStub(d.value.flags) && (o.outcome.Gone? || !IsTombstone(d.value.flags)))
  {
    hide IsStub, IsTombstone, WithTombstone;
    StagedState(c, node, staged, key);
    TouchAccumulatesExactly(c, node, interval, staged, key, o, next);
  }

  /** A second touch in the same batch never accumulates, whatever the two observed, unless
      the check counter has nowhere left to go: it counts from the committed state again. */
  lemma SecondTouchNeverAccumulates(c: Config, node: Doc, interval: u32, staged: seq<Op>, key: u64, o: Observation,
                                    o': Observation, next: Policy)
    requires NoTouchOrRemove(staged, key)
    ensures var twice := staged + [TouchOp(node, interval, staged, key, o, next)];
            var d := RunOn(c, Some(node), twice, key);
            && d.Some?
            && Apply(c, d, TouchOp(node, interval, twice, key, o', next)).value.checks == OneMore(node.checks)
            && (Apply(c, d, TouchOp(node, interval, twice, key, o', next)) == Observed(d, o') ==> node.checks >= 0xFFFE)
  {
    hide IsStub, IsTombstone, WithTombstone;
    var first := TouchOp(node, interval, staged, key, o, next);
    var twice := staged + [first];
    assert twice[..|twice| - 1] == staged;
    TouchCarriesWholeState(c, node, interval, staged, key, o, next);
    TouchAccumulatesExactly(c, node, interval, twice, key, o', next);
  }

  /** Two such batches. In the first the second touch folds exactly and still puts the
      committed hash back over the observed one; in the second it leaves the first's etag
      behind, so that the fold and the ops one after the other differ too. */
  lemma TwoTouchesInABatch(c: Config, node: Doc, next: Policy)
    requires node.etag == None && node.checks == 0 && node.hash != 5
    requires !IsStub(node.flags) && !IsTombstone(node.flags)
    ensures var first := TouchOp(node, 3600, [], 7, Observation(10, Changed, Some(5), None), next);
            var second := TouchOp(node, 3600, [first], 7, Observation(20, Unchanged, None, None), next);
            var d := RunOn(c, Some(node), [first], 7);
            && WellFormed(d, second)
            && d.value.hash == 5 && Apply(c, d, second).value.hash == node.hash
            && Apply(c, d, second).value.checks == 1
    ensures var first := TouchOp(node, 3600, [], 7, Observation(10, Changed, Some(5), Some([65])), next);
            var second := TouchOp(node, 3600, [first], 7, Observation(20, Unchanged, None, None), next);
            !WellFormed(RunOn(c, Some(node), [first], 7), second)
  {
    hide IsStub, IsTombstone, WithTombstone;
    var o := Observation(10, Changed, Some(5), None);
    var sent := o.(etag := Some([65]));
    var first, other := TouchOp(node, 3600, [], 7, o, next), TouchOp(node, 3600, [], 7, sent, next);
    assert [first][..0] == [] && [other][..0] == [];
    assert StagedUpsert([first], 7) == None && StagedUpsert([other], 7) == None;
    assert RunOn(c, Some(node), [first], 7) == Apply(c, Some(node), first);
    assert RunOn(c, Some(node), [other], 7) == Apply(c, Some(node), other);
  }
}
