/** The ring of generation slots, interleaved at the grain of its atomic operations: readers
    load, guard, re-check and capture; the one installer tries a slot, writes it, unlocks it and
    switches; the one writer publishes into the current slot. */
module Ring {
  import opened Ops
  import opened History

  const GEN_SLOTS := 4

  /** A loaded generation: which base, and the ops published over it so far. */
  datatype Gen = Gen(base: nat, ops: seq<Entry>)

  /** A slot's content behind its lock: readers holding it, or one writer. */
  datatype Slot = Slot(gen: Option<Gen>, readers: set<nat>, writing: bool)

  /** A reader taking, then holding, a snapshot; `seen` is what it captured. */
  datatype Reader =
    | Start
    | Loaded(at: nat)
    | Guarded(at: nat)
    | Checked(at: nat)
    | Pinned(at: nat, base: nat, seen: seq<Entry>)

  datatype Installer =
    | Idle
    | Trying(gen: Gen, next: nat)
    | Locked(gen: Gen, at: nat)
    | Written(at: nat)
    | Unlocked(at: nat)

  datatype State = State(slots: seq<Slot>, current: nat, readers: map<nat, Reader>, installer: Installer)

  datatype Event =
    | Arrive(r: nat)
    | Load(r: nat)
    | TryRead(r: nat)
    | Recheck(r: nat)
    | Capture(r: nat)
    | Drop(r: nat)
    | Begin(gen: Gen)
    | TryWrite
    | Write
    | Unlock
    | Switch
    | Publish(more: seq<Entry>)

  predicate Shape(s: State) { |s.slots| == GEN_SLOTS && s.current < GEN_SLOTS }

  predicate Enabled(s: State, e: Event) {
    Shape(s) &&
    match e
    case Arrive(r) => r !in s.readers
    case Load(r) => r in s.readers && s.readers[r].Start?
    case TryRead(r) => r in s.readers && s.readers[r].Loaded? && s.readers[r].at < GEN_SLOTS
    case Recheck(r) => r in s.readers && s.readers[r].Guarded? && s.readers[r].at < GEN_SLOTS
    case Capture(r) =>
      r in s.readers && s.readers[r].Checked? && s.readers[r].at < GEN_SLOTS && s.slots[s.readers[r].at].gen.Some?
    case Drop(r) => r in s.readers && s.readers[r].Pinned? && s.readers[r].at < GEN_SLOTS
    case Begin(_) => s.installer.Idle?
    case TryWrite => s.installer.Trying?
    case Write => s.installer.Locked? && s.installer.at < GEN_SLOTS
    case Unlock => s.installer.Written? && s.installer.at < GEN_SLOTS
    case Switch => s.installer.Unlocked? && s.installer.at < GEN_SLOTS
    case Publish(_) => s.installer.Idle? && s.slots[s.current].gen.Some?
  }

  function Guard(s: State, i: nat, r: nat, on: bool): seq<Slot>
    requires i < |s.slots|
  {
    var slot := s.slots[i];
    s.slots[i := slot.(readers := if on then slot.readers + {r} else slot.readers - {r})]
  }

  /** The installer's next try: the current slot is passed over, a locked one refuses, and
      past the last slot the generation is handed back. */
  function TryWriteStep(s: State): State
    requires Shape(s) && s.installer.Trying?
  {
    var i := s.installer.next;
    if i >= GEN_SLOTS then s.(installer := Idle)
    else if i == s.current || s.slots[i].readers != {} || s.slots[i].writing then
      s.(installer := Trying(s.installer.gen, i + 1))
    else s.(slots := s.slots[i := s.slots[i].(writing := true)], installer := Locked(s.installer.gen, i))
  }

  function Apply(s: State, e: Event): State
    requires Enabled(s, e)
  {
    match e
    case Arrive(r) => s.(readers := s.readers[r := Start])
    case Load(r) => s.(readers := s.readers[r := Loaded(s.current)])
    case TryRead(r) =>
      var at := s.readers[r].at;
      if s.slots[at].writing then s.(readers := s.readers[r := Start])
      else s.(slots := Guard(s, at, r, true), readers := s.readers[r := Guarded(at)])
    case Recheck(r) =>
      var at := s.readers[r].at;
      if s.slots[at].gen.Some? && s.current == at then
        s.(readers := s.readers[r := Checked(at)])
      else s.(slots := Guard(s, at, r, false), readers := s.readers[r := Start])
    case Capture(r) =>
      var at := s.readers[r].at;
      s.(readers := s.readers[r := Pinned(at, s.slots[at].gen.value.base, s.slots[at].gen.value.ops)])
    case Drop(r) =>
      s.(slots := Guard(s, s.readers[r].at, r, false), readers := s.readers - {r})
    case Begin(gen) => s.(installer := Trying(gen, 0))
    case TryWrite => TryWriteStep(s)
    case Write =>
      var i := s.installer.at;
      s.(slots := s.slots[i := s.slots[i].(gen := Some(s.installer.gen))], installer := Written(i))
    case Unlock =>
      var i := s.installer.at;
      s.(slots := s.slots[i := s.slots[i].(writing := false)], installer := Unlocked(i))
    case Switch => s.(current := s.installer.at, installer := Idle)
    case Publish(more) =>
      var i := s.current;
      var g := s.slots[i].gen.value;
      s.(slots := s.slots[i := s.slots[i].(gen := Some(g.(ops := g.ops + more)))])
  }

  // ---- what always holds -----------------------------------------------------------------------------

  /** A reader's guard is its slot's, and while pinned the slot still shows what was captured. */
  predicate ReaderOk(s: State, r: nat, reader: Reader)
    requires Shape(s)
  {
    match reader
    case Start => true
    case Loaded(at) => at < GEN_SLOTS
    case Guarded(at) => at < GEN_SLOTS && r in s.slots[at].readers
    case Checked(at) => at < GEN_SLOTS && r in s.slots[at].readers && s.slots[at].gen.Some?
    case Pinned(at, base, seen) =>
      && at < GEN_SLOTS && r in s.slots[at].readers && s.slots[at].gen.Some?
      && s.slots[at].gen.value.base == base && seen <= s.slots[at].gen.value.ops
  }

  predicate InstallerOk(s: State)
    requires Shape(s)
  {
    match s.installer
    case Idle => true
    case Trying(_, _) => true
    case Locked(_, at) => at < GEN_SLOTS && at != s.current && s.slots[at].writing
    case Written(at) => at < GEN_SLOTS && at != s.current && s.slots[at].writing && s.slots[at].gen.Some?
    case Unlocked(at) => at < GEN_SLOTS && at != s.current && s.slots[at].gen.Some?
  }

  /** A write lock is the installer's, and excludes readers. */
  predicate LocksOk(s: State)
    requires Shape(s)
  {
    && (forall i :: 0 <= i < GEN_SLOTS && s.slots[i].writing ==>
          s.slots[i].readers == {} && (s.installer.Locked? || s.installer.Written?) && s.installer.at == i)
    && forall i, r :: 0 <= i < GEN_SLOTS && r in s.slots[i].readers ==>
         r in s.readers && (s.readers[r].Guarded? || s.readers[r].Checked? || s.readers[r].Pinned?) && s.readers[r].at == i
  }

  predicate Inv(s: State) {
    && Shape(s) && s.slots[s.current].gen.Some? && !s.slots[s.current].writing
    && InstallerOk(s) && LocksOk(s)
    && forall r :: r in s.readers ==> ReaderOk(s, r, s.readers[r])
  }

  lemma ArriveKeepsInv(s: State, r: nat)
    requires Inv(s) && Enabled(s, Arrive(r))
    ensures Inv(Apply(s, Arrive(r)))
  {
  }

  lemma LoadKeepsInv(s: State, r: nat)
    requires Inv(s) && Enabled(s, Load(r))
    ensures Inv(Apply(s, Load(r)))
  {
  }

  lemma TryReadKeepsInv(s: State, r: nat)
    requires Inv(s) && Enabled(s, TryRead(r))
    ensures Inv(Apply(s, TryRead(r)))
  {
  }

  lemma RecheckKeepsInv(s: State, r: nat)
    requires Inv(s) && Enabled(s, Recheck(r))
    ensures Inv(Apply(s, Recheck(r)))
  {
  }

  lemma CaptureKeepsInv(s: State, r: nat)
    requires Inv(s) && Enabled(s, Capture(r))
    ensures Inv(Apply(s, Capture(r)))
  {
  }

  lemma DropKeepsInv(s: State, r: nat)
    requires Inv(s) && Enabled(s, Drop(r))
    ensures Inv(Apply(s, Drop(r)))
  {
  }

  lemma TryWriteKeepsInv(s: State)
    requires Inv(s) && Enabled(s, TryWrite)
    ensures Inv(Apply(s, TryWrite))
  {
  }

  lemma WriteKeepsInv(s: State)
    requires Inv(s) && Enabled(s, Write)
    ensures Inv(Apply(s, Write))
  {
  }

  lemma UnlockKeepsInv(s: State)
    requires Inv(s) && Enabled(s, Unlock)
    ensures Inv(Apply(s, Unlock))
  {
  }

  lemma SwitchKeepsInv(s: State)
    requires Inv(s) && Enabled(s, Switch)
    ensures Inv(Apply(s, Switch))
  {
  }

  lemma BeginKeepsInv(s: State, gen: Gen)
    requires Inv(s) && Enabled(s, Begin(gen))
    ensures Inv(Apply(s, Begin(gen)))
  {
  }

  lemma PublishKeepsInv(s: State, more: seq<Entry>)
    requires Inv(s) && Enabled(s, Publish(more))
    ensures Inv(Apply(s, Publish(more)))
  {
  }

  lemma StepKeepsInv(s: State, e: Event)
    requires Inv(s) && Enabled(s, e)
    ensures Inv(Apply(s, e))
  {
    hide Inv, Apply, Enabled;
    match e
    case Arrive(r) => ArriveKeepsInv(s, r);
    case Load(r) => LoadKeepsInv(s, r);
    case TryRead(r) => TryReadKeepsInv(s, r);
    case Recheck(r) => RecheckKeepsInv(s, r);
    case Capture(r) => CaptureKeepsInv(s, r);
    case Drop(r) => DropKeepsInv(s, r);
    case Begin(gen) => BeginKeepsInv(s, gen);
    case TryWrite => TryWriteKeepsInv(s);
    case Write => WriteKeepsInv(s);
    case Unlock => UnlockKeepsInv(s);
    case Switch => SwitchKeepsInv(s);
    case Publish(more) => PublishKeepsInv(s, more);
  }

  function Run(s: State, es: seq<Event>): Option<State> {
    if es == [] then Some(s)
    else
      var before := Run(s, es[..|es| - 1]);
      if before.Some? && Enabled(before.value, es[|es| - 1]) then Some(Apply(before.value, es[|es| - 1])) else None
  }

  /** A run goes on with any step that is enabled where it stands. */
  lemma RunsGoOn(s: State, es: seq<Event>, e: Event)
    requires Run(s, es).Some? && Enabled(Run(s, es).value, e)
    ensures Run(s, es + [e]) == Some(Apply(Run(s, es).value, e))
  {
    assert (es + [e])[..|es|] == es;
  }

  /** A store just opened: its generation in slot 0, the others empty. */
  function Opened(gen: Gen): State {
    var empty := Slot(None, {}, false);
    State([Slot(Some(gen), {}, false), empty, empty, empty], 0, map[], Idle)
  }

  lemma {:induction false} RunKeepsInv(s: State, es: seq<Event>)
    requires Inv(s) && Run(s, es).Some?
    ensures Inv(Run(s, es).value)
    decreases |es|
  {
    hide Inv, Apply, Enabled;
    if es != [] {
      RunKeepsInv(s, es[..|es| - 1]);
      StepKeepsInv(Run(s, es[..|es| - 1]).value, es[|es| - 1]);
    }
  }

  // ---- what readers are promised ---------------------------------------------------------------------------

  /** In every reachable state: the current slot is populated, and every held snapshot still
      reads its own base and, first, exactly the ops it captured. */
  lemma SnapshotsAreStable(gen: Gen, es: seq<Event>, r: nat)
    requires Run(Opened(gen), es).Some?
    ensures var s := Run(Opened(gen), es).value;
            && Shape(s) && s.slots[s.current].gen.Some?
            && (r in s.readers && s.readers[r].Pinned? ==>
                  var p := s.readers[r];
                  && p.at < GEN_SLOTS && s.slots[p.at].gen.Some? && !s.slots[p.at].writing
                  && s.slots[p.at].gen.value.base == p.base
                  && p.seen <= s.slots[p.at].gen.value.ops)
  {
    RunKeepsInv(Opened(gen), es);
  }

  /** A reader passes its re-check only while it guards the slot that is current at that
      very step; a slot overtaken by an install is let go. */
  lemma CheckedIsCurrent(s: State, r: nat)
    requires Inv(s) && Enabled(s, Recheck(r))
    ensures var t := Apply(s, Recheck(r));
            && (t.readers[r].Checked? <==> s.readers[r].at == s.current)
            && (t.readers[r].Checked? ==> r in t.slots[s.current].readers && t.readers[r].at == t.current)
            && (!t.readers[r].Checked? ==> t.readers[r] == Start && r !in t.slots[s.readers[r].at].readers)
  {
  }

  /** What a pinned snapshot reads changes at no later step, however many installs and
      publications go by, until it is dropped. */
  lemma {:induction false} PinnedStays(s: State, es: seq<Event>, r: nat)
    requires Inv(s) && Run(s, es).Some? && r in s.readers && s.readers[r].Pinned?
    requires Drop(r) !in es
    ensures var t := Run(s, es).value;
            && Inv(t) && r in t.readers && t.readers[r] == s.readers[r]
    decreases |es|
  {
    hide Inv, Run;
    RunUnfolds(s, es);
    if es != [] {
      var most, e := es[..|es| - 1], es[|es| - 1];
      PinnedStays(s, most, r);
      var t := Run(s, most).value;
      StepKeepsInv(t, e);
      assert e in es;
      StepKeepsPinned(t, e, r);
    }
  }

  lemma RunUnfolds(s: State, es: seq<Event>)
    requires Run(s, es).Some?
    ensures es == [] ==> Run(s, es) == Some(s)
    ensures es != [] ==>
      var before := Run(s, es[..|es| - 1]);
      before.Some? && Enabled(before.value, es[|es| - 1]) && Run(s, es) == Some(Apply(before.value, es[|es| - 1]))
  {
    hide Apply, Enabled;
  }

  lemma StepKeepsPinned(s: State, e: Event, r: nat)
    requires Enabled(s, e) && r in s.readers && s.readers[r].Pinned? && e != Drop(r)
    ensures r in Apply(s, e).readers && Apply(s, e).readers[r] == s.readers[r]
  {
  }

  /** With no install under way a snapshot is taken at the first try. */
  lemma SteadyReadersNeverRetry(s: State, r: nat)
    requires Inv(s) && s.installer.Idle? && r in s.readers && s.readers[r].Start?
    ensures Enabled(s, Load(r))
    ensures var t := Apply(s, Load(r));
            && Enabled(t, TryRead(r)) && Enabled(Apply(t, TryRead(r)), Recheck(r))
            && var u := Apply(Apply(t, TryRead(r)), Recheck(r));
               && Enabled(u, Capture(r)) && Apply(u, Capture(r)).readers[r].Pinned?
               && Apply(u, Capture(r)).readers[r].at == s.current
  {
  }

  // ---- a whole install --------------------------------------------------------------------------------------

  /** What the installer found at each slot it tried for writing: held by a reader or not. */
  function Tries(s: State, es: seq<Event>): map<nat, bool>
    requires Run(s, es).Some?
    decreases |es|
  {
    if es == [] then map[]
    else
      var most := es[..|es| - 1];
      var before, tries := Run(s, most).value, Tries(s, most);
      if es[|es| - 1].TryWrite? && before.installer.Trying? && before.installer.next < GEN_SLOTS
         && before.installer.next != before.current && before.installer.next < |before.slots|
      then tries[before.installer.next := before.slots[before.installer.next].readers != {}]
      else tries
  }

  predicate Holds(s: State, at: nat, gen: Gen) {
    at < |s.slots| && s.slots[at].gen.Some? && s.slots[at].gen.value.base == gen.base
  }

  /** How far an install of `gen` that began with `current` served has come, given its tries. */
  predicate Progress(s: State, current: nat, gen: Gen, tries: map<nat, bool>) {
    match s.installer
    case Trying(g, n) =>
      && g == gen && s.current == current
      && (forall i :: i in tries ==> i < n && i < GEN_SLOTS && i != current && tries[i])
      && (forall i :: 0 <= i < n && i < GEN_SLOTS && i != current ==> i in tries)
    case Locked(g, at) => g == gen && s.current == current && FoundFree(current, tries, at)
    case Written(at) => s.current == current && FoundFree(current, tries, at) && Holds(s, at, gen)
    case Unlocked(at) => s.current == current && FoundFree(current, tries, at) && Holds(s, at, gen)
    case Idle =>
      if s.current == current then AllHeld(current, tries)
      else FoundFree(current, tries, s.current) && Holds(s, s.current, gen)
  }

  predicate FoundFree(current: nat, tries: map<nat, bool>, at: nat) {
    at in tries && !tries[at] && at < GEN_SLOTS && at != current
  }

  predicate AllHeld(current: nat, tries: map<nat, bool>) {
    forall i :: 0 <= i < GEN_SLOTS && i != current ==> i in tries && tries[i]
  }

  lemma StepProgress(s: State, e: Event, current: nat, gen: Gen, tries: map<nat, bool>)
    requires Inv(s) && Enabled(s, e) && !e.Begin? && Progress(s, current, gen, tries)
    ensures var next :=
              if e.TryWrite? && s.installer.Trying? && s.installer.next < GEN_SLOTS && s.installer.next != s.current
              then tries[s.installer.next := s.slots[s.installer.next].readers != {}] else tries;
            Progress(Apply(s, e), current, gen, next)
  {
    hide LocksOk, ReaderOk;
    if e.TryWrite? {
      var i := s.installer.next;
      if i < GEN_SLOTS && i != s.current && s.slots[i].writing { NobodyWrites(s, i); }
    }
  }

  lemma NobodyWrites(s: State, i: nat)
    requires Inv(s) && s.installer.Trying? && i < GEN_SLOTS
    ensures !s.slots[i].writing
  {
  }

  lemma {:induction false} InstallProgress(s: State, gen: Gen, es: seq<Event>)
    requires Inv(s) && s.installer == Trying(gen, 0) && Run(s, es).Some?
    requires forall i :: 0 <= i < |es| ==> !es[i].Begin?
    ensures Inv(Run(s, es).value) && Progress(Run(s, es).value, s.current, gen, Tries(s, es))
    decreases |es|
  {
    hide Inv, Enabled, Apply, Progress;
    if es == [] {
      assert Progress(s, s.current, gen, map[]) by { StartProgress(s, gen); }
    } else {
      var most, e := es[..|es| - 1], es[|es| - 1];
      InstallProgress(s, gen, most);
      var before := Run(s, most).value;
      StepProgress(before, e, s.current, gen, Tries(s, most));
      StepKeepsInv(before, e);
      InvShape(before);
    }
  }

  lemma InvShape(s: State)
    requires Inv(s)
    ensures |s.slots| == GEN_SLOTS
  {
  }

  lemma StartProgress(s: State, gen: Gen)
    requires s.installer == Trying(gen, 0)
    ensures Progress(s, s.current, gen, map[])
  {
  }

  /** An install that has run its course, whatever readers and writers did meanwhile, gave up
      if and only if every slot but the current one was held by a reader when it was tried;
      else the slot it now serves was free then, and holds the new base. */
  lemma InstallRefused(s: State, gen: Gen, es: seq<Event>)
    requires Inv(s) && s.installer.Idle?
    requires Run(Apply(s, Begin(gen)), es).Some? && Run(Apply(s, Begin(gen)), es).value.installer.Idle?
    requires forall i :: 0 <= i < |es| ==> !es[i].Begin?
    ensures var trying := Apply(s, Begin(gen));
            var end, tries := Run(trying, es).value, Tries(trying, es);
            && (end.current == s.current <==>
                  forall i :: 0 <= i < GEN_SLOTS && i != s.current ==> i in tries && tries[i])
            && (end.current != s.current ==>
                  && end.current in tries && !tries[end.current]
                  && Holds(end, end.current, gen))
  {
    hide Inv, Run, Tries, Apply, Enabled;
    BeginKeepsInv(s, gen) by { BeginEnabled(s, gen); }
    BeginEnabled(s, gen);
    InstallProgress(Apply(s, Begin(gen)), gen, es);
  }

  lemma BeginEnabled(s: State, gen: Gen)
    requires Inv(s) && s.installer.Idle?
    ensures Enabled(s, Begin(gen))
    ensures Apply(s, Begin(gen)) == s.(installer := Trying(gen, 0))
  {
  }
}
