/** What a parsed container says of its sections, and the round trip through a finished file. */
module ContainerTrip {
  import opened Ops
  import opened ByteCodec
  import opened Spans
  import opened Container

  // ---- lookups -----------------------------------------------------------------------------------

  lemma {:induction false} FindSnoc(other: seq<(nat, Slot)>, k: nat, s: Slot, kind: nat)
    ensures FindOther(other + [(k, s)], kind) ==
      if FindOther(other, kind).Some? then FindOther(other, kind) else if k == kind then Some(s) else None
  {
    if other == [] {
      assert other + [(k, s)] == [(k, s)] && [(k, s)][1..] == [];
    } else {
      FindSnoc(other[1..], k, s, kind);
      assert (other + [(k, s)])[1..] == other[1..] + [(k, s)];
    }
  }

  /** What an entry makes findable: an empty section of a small kind is as good as none. */
  predicate Findable(e: DirEntry, kind: nat) { e.kind == kind && (kind >= FAST_KINDS || e.slot.length > 0) }

  /** A lookup finds an entry of its kind, and finds one if there is one: each kind has at
      most one that counts. */
  lemma {:induction false} LookupFinds(flags: nat, owner: seq<byte>, es: seq<DirEntry>, kind: nat)
    requires Fill(EmptyDir(flags, owner), es).Some?
    ensures var d := Fill(EmptyDir(flags, owner), es).value;
            && |d.fast| == FAST_KINDS && d.flags == flags && d.owner == owner
            && (forall i :: 0 <= i < |es| && Findable(es[i], kind) ==> Lookup(d, kind) == Some(es[i].slot))
            && (Lookup(d, kind).Some? ==> exists i :: 0 <= i < |es| && Findable(es[i], kind))
  {
    if es != [] {
      var most, e := es[..|es| - 1], es[|es| - 1];
      LookupFinds(flags, owner, most, kind);
      LookupFinds(flags, owner, most, e.kind);
      var before := Fill(EmptyDir(flags, owner), most).value;
      FindSnoc(before.other, e.kind, e.slot, kind);
      if i :| 0 <= i < |most| && Findable(most[i], kind) { assert Findable(es[i], kind); }
      assert Findable(e, kind) ==> Findable(es[|es| - 1], kind);
    }
  }

  ghost predicate DistinctKinds(es: seq<DirEntry>) { forall i, j :: 0 <= i < j < |es| ==> es[i].kind != es[j].kind }

  lemma {:induction false} DistinctFill(flags: nat, owner: seq<byte>, es: seq<DirEntry>)
    requires DistinctKinds(es)
    ensures Fill(EmptyDir(flags, owner), es).Some?
  {
    if es != [] {
      var most := es[..|es| - 1];
      DistinctFill(flags, owner, most);
      LookupFinds(flags, owner, most, es[|es| - 1].kind);
    }
  }

  /** In any accepted file every section that is found lies past the directory, aligned,
      inside the file, and any two are apart. */
  lemma AcceptedIsTight(hash: Hash, f: Format, bytes: seq<byte>, d: Dir, kind: nat, other: nat)
    requires Accepted(hash, f, bytes, d)
    ensures |bytes| >= HEADER_LEN
    ensures forall k | k in {kind, other} ::
      Lookup(d, k).Some? ==>
        var s := Lookup(d, k).value;
        HEADER_LEN <= s.offset && s.offset % ALIGN == 0 && s.offset + s.length <= |bytes| && |SectionOf(d, bytes, k)| == s.length
    ensures kind != other && Lookup(d, kind).Some? && Lookup(d, other).Some? ==>
      var a, b := Lookup(d, kind).value, Lookup(d, other).value;
      a.offset + a.length <= b.offset || b.offset + b.length <= a.offset
  {
    hide Head, ZeroOutside, EntryAt, Lookup;
    var v := Head(hash, f, bytes).value;
    var es := Entries(bytes, v[4]);
    LookupFinds(v[2], bytes[32..120], es, kind);
    LookupFinds(v[2], bytes[32..120], es, other);
    if kind != other && Lookup(d, kind).Some? && Lookup(d, other).Some? {
      var i :| 0 <= i < |es| && Findable(es[i], kind);
      var j :| 0 <= j < |es| && Findable(es[j], other);
      assert i != j;
      var lo, hi := if i < j then i else j, if i < j then j else i;
      assert Apart(SpansOf(es)[lo], SpansOf(es)[hi]);
    }
  }

  /** Two entries of one kind never both count. */
  lemma OneEntryCounts(hash: Hash, f: Format, bytes: seq<byte>, d: Dir, i: nat, j: nat)
    requires Accepted(hash, f, bytes, d) && i < j < Head(hash, f, bytes).value[4]
    ensures var es := Entries(bytes, Head(hash, f, bytes).value[4]);
            !(Findable(es[i], es[j].kind) && Findable(es[j], es[j].kind))
  {
    hide Head, Disjoint, ZeroOutside, EntryAt, Lookup, EntryOk;
    var v := Head(hash, f, bytes).value;
    var es, start := Entries(bytes, v[4]), EmptyDir(v[2], bytes[32..120]);
    assert es[..j + 1][..j] == es[..j] && es[..j][i] == es[i];
    if Fill(start, es[..j]).None? {
      FillStops(start, es, j);
    } else {
      LookupFinds(v[2], bytes[32..120], es[..j], es[j].kind);
      if Findable(es[i], es[j].kind) { FillStops(start, es, j + 1); }
    }
  }

  predicate InSection(d: Dir, kind: nat, p: nat) {
    Lookup(d, kind).Some? && Lookup(d, kind).value.offset <= p < Lookup(d, kind).value.offset + Lookup(d, kind).value.length
  }

  lemma CoveredIsInSection(hash: Hash, f: Format, bytes: seq<byte>, d: Dir, p: nat) returns (kind: nat)
    requires Accepted(hash, f, bytes, d) && Covers(SpansOf(Entries(bytes, Head(hash, f, bytes).value[4])), p)
    ensures InSection(d, kind, p)
  {
    hide Head, Disjoint, ZeroOutside, EntryAt, Lookup, EntryOk, DirEnd;
    var v := Head(hash, f, bytes).value;
    var es := Entries(bytes, v[4]);
    var i :| 0 <= i < |es| && SpansOf(es)[i].start <= p < SpansOf(es)[i].end;
    kind := es[i].kind;
    LookupFinds(v[2], bytes[32..120], es, kind);
    assert Findable(es[i], kind);
  }

  /** Every byte past the directory that is in no section a lookup finds is zero: with the
      checksums over header, directory and sections, every byte is accounted for. */
  lemma ZeroElsewhere(hash: Hash, f: Format, bytes: seq<byte>, d: Dir, p: nat)
    requires Accepted(hash, f, bytes, d) && DirEnd(Head(hash, f, bytes).value[4]) <= p < |bytes|
    requires forall kind: nat :: !InSection(d, kind, p)
    ensures bytes[p] == 0
  {
    hide Head, Disjoint, EntryAt, Lookup, EntryOk, DirEnd, InSection, Entries, SpansOf, Covers;
    if Covers(SpansOf(Entries(bytes, Head(hash, f, bytes).value[4])), p) {
      var kind := CoveredIsInSection(hash, f, bytes, d, p);
    }
  }

  // ---- a finished file ---------------------------------------------------------------------------------

  /** The entries of sections laid from `at` on. */
  function EntriesOf(hash: Hash, secs: seq<Section>, at: nat): (es: seq<DirEntry>)
    ensures |es| == |secs|
  {
    if secs == [] then []
    else
      var s := secs[0];
      [DirEntry(s.kind, Slot(AlignUp(at), |s.bytes|, s.flags), hash(s.bytes))]
      + EntriesOf(hash, secs[1..], AlignUp(at) + |s.bytes|)
  }

  function RowOf(e: DirEntry): seq<nat> { [e.kind, e.slot.flags, 0, e.slot.offset, e.slot.length, e.sum] }

  lemma EntriesStep(hash: Hash, secs: seq<Section>, at: nat)
    requires secs != []
    ensures var s := secs[0];
            var next := AlignUp(at) + |s.bytes|;
            && EntriesOf(hash, secs, at) == [DirEntry(s.kind, Slot(AlignUp(at), |s.bytes|, s.flags), hash(s.bytes))]
                                            + EntriesOf(hash, secs[1..], next)
            && DirRows(hash, secs, at) == [[s.kind as nat, s.flags, 0, AlignUp(at), |s.bytes|, hash(s.bytes)]]
                                          + DirRows(hash, secs[1..], next)
            && EndOf(secs, at) == EndOf(secs[1..], next)
            && Payload(secs, at) == Zeros(AlignUp(at) - at) + s.bytes + Payload(secs[1..], next)
  {
    hide AlignUp, Zeros;
  }

  lemma {:induction false} RowsAreEntries(hash: Hash, secs: seq<Section>, at: nat, i: nat)
    requires i < |secs|
    ensures DirRows(hash, secs, at)[i] == RowOf(EntriesOf(hash, secs, at)[i])
  {
    hide AlignUp, EntriesOf, DirRows, Payload, EndOf;
    EntriesStep(hash, secs, at);
    if i > 0 { RowsAreEntries(hash, secs[1..], AlignUp(at) + |secs[0].bytes|, i - 1); }
  }

  lemma {:induction false} EntriesAreSections(hash: Hash, secs: seq<Section>, at: nat, i: nat)
    requires i < |secs|
    ensures var e := EntriesOf(hash, secs, at)[i];
            && e.kind == secs[i].kind && e.slot.flags == secs[i].flags && e.slot.length == |secs[i].bytes|
            && e.sum == hash(secs[i].bytes)
            && at <= e.slot.offset && e.slot.offset + |secs[i].bytes| <= EndOf(secs, at)
  {
    hide AlignUp, EntriesOf, DirRows, Payload, EndOf;
    EntriesStep(hash, secs, at);
    if i > 0 { EntriesAreSections(hash, secs[1..], AlignUp(at) + |secs[0].bytes|, i - 1); }
  }

  lemma {:induction false} EntriesAligned(hash: Hash, secs: seq<Section>, at: nat, i: nat)
    requires i < |secs|
    ensures EntriesOf(hash, secs, at)[i].slot.offset % ALIGN == 0
  {
    hide AlignUp, EntriesOf, DirRows, Payload, EndOf;
    EntriesStep(hash, secs, at);
    AlignUpIs(at);
    if i > 0 { EntriesAligned(hash, secs[1..], AlignUp(at) + |secs[0].bytes|, i - 1); }
  }

  lemma Shifted(b: seq<byte>, front: seq<byte>, back: seq<byte>, lo: nat, hi: nat)
    requires b == front + back && lo <= hi <= |back|
    ensures b[|front| + lo..|front| + hi] == back[lo..hi]
  {
  }

  /** Read where they are said to be, the sections are there. */
  lemma {:induction false} PayloadHolds(hash: Hash, secs: seq<Section>, at: nat, i: nat)
    requires i < |secs|
    ensures var e := EntriesOf(hash, secs, at)[i];
            && at <= e.slot.offset && e.slot.offset - at + e.slot.length <= |Payload(secs, at)|
            && Payload(secs, at)[e.slot.offset - at..e.slot.offset - at + e.slot.length] == secs[i].bytes
  {
    hide Zeros, AlignUp, EntriesOf, DirRows, Payload, EndOf;
    EntriesStep(hash, secs, at);
    EntriesAreSections(hash, secs, at, i);
    var s, pad := secs[0], Zeros(AlignUp(at) - at);
    var next := AlignUp(at) + |s.bytes|;
    var b, rest := Payload(secs, at), Payload(secs[1..], next);
    if i == 0 {
      assert b[|pad|..|pad| + |s.bytes|] == s.bytes;
    } else {
      PayloadHolds(hash, secs[1..], next, i - 1);
      var e := EntriesOf(hash, secs, at)[i];
      Shifted(b, pad + s.bytes, rest, e.slot.offset - next, e.slot.offset - next + e.slot.length);
    }
  }

  lemma SpansCons(e: DirEntry, es: seq<DirEntry>)
    ensures SpansOf([e] + es)[1..] == SpansOf(es) && SpansOf([e] + es)[0] == SpanOf(e)
  {
  }

  /** The padding is zero and the sections follow one another. */
  lemma {:induction false} PayloadSweeps(hash: Hash, secs: seq<Section>, at: nat, bytes: seq<byte>)
    requires at <= |bytes| && bytes[at..] == Payload(secs, at)
    ensures Within(SpansOf(EntriesOf(hash, secs, at)), at, |bytes|)
    ensures Swept(bytes, at, SpansOf(EntriesOf(hash, secs, at)))
    decreases |secs|
  {
    hide Swept, AlignUp, EntriesOf, DirRows, Payload, EndOf;
    var xs := SpansOf(EntriesOf(hash, secs, at));
    if secs == [] {
      NoSections(hash, at);
      SweepEnd(bytes, at);
      forall p | at <= p < |bytes| ensures bytes[p] == 0 { assert bytes[p] == bytes[at..][p - at]; }
    } else {
      EntriesStep(hash, secs, at);
      var s := secs[0];
      var next := AlignUp(at) + |s.bytes|;
      var rest := EntriesOf(hash, secs[1..], next);
      PayloadParts(secs, at, bytes);
      PayloadSweeps(hash, secs[1..], next, bytes);
      SpansCons(DirEntry(s.kind, Slot(AlignUp(at), |s.bytes|, s.flags), hash(s.bytes)), rest);
      forall i | 0 <= i < |xs| ensures at <= xs[i].start <= xs[i].end <= |bytes| {
        if i > 0 { assert xs[i] == xs[1..][i - 1]; }
      }
      SweepStep(bytes, at, xs);
    }
  }

  lemma NoSections(hash: Hash, at: nat)
    ensures EntriesOf(hash, [], at) == [] && Payload([], at) == Zeros(AlignUp(at) - at)
  {
  }

  lemma PayloadParts(secs: seq<Section>, at: nat, bytes: seq<byte>)
    requires secs != [] && at <= |bytes| && bytes[at..] == Payload(secs, at)
    ensures var next := AlignUp(at) + |secs[0].bytes|;
            next <= |bytes| && bytes[next..] == Payload(secs[1..], next) && ZeroRun(bytes, at, AlignUp(at))
  {
    hide AlignUp;
    var pad := AlignUp(at) - at;
    var next := AlignUp(at) + |secs[0].bytes|;
    assert bytes[at..] == Zeros(pad) + secs[0].bytes + Payload(secs[1..], next);
    assert bytes[next..] == bytes[at..][next - at..];
    forall p | at <= p < AlignUp(at) ensures bytes[p] == 0 { assert bytes[p] == bytes[at..][p - at]; }
  }

  ghost predicate Finishable(owner: seq<byte>, secs: seq<Section>) {
    && |owner| == OWNER_LEN && |secs| < 0x1_0000_0000
    && AlignUp(EndOf(secs, DirEnd(|secs|))) < 0x1_0000_0000_0000_0000
    && (forall i :: 0 <= i < |secs| ==> secs[i].bytes != [])
    && forall i, j :: 0 <= i < j < |secs| ==> secs[i].kind != secs[j].kind
  }

  lemma DirEndIs(n: nat)
    ensures DirEnd(n) == 128 + 32 * n && DirEnd(n + 1) == DirEnd(n) + 32
  {
  }

  lemma FileParts(hash: Hash, f: Format, flags: u16, owner: seq<byte>, secs: seq<Section>)
    requires |owner| == OWNER_LEN
    ensures var b, head := Finished(hash, f, flags, owner, secs), HeadBytes(hash, f, flags, owner, secs);
            && |b| == AlignUp(EndOf(secs, DirEnd(|secs|))) >= DirEnd(|secs|)
            && b[..120] == head && b[32..120] == owner && Num(b[120..128]) == hash(head)
            && b[128..DirEnd(|secs|)] == Directory(hash, secs) && b[DirEnd(|secs|)..] == Payload(secs, DirEnd(|secs|))
  {
    hide Payload, Directory, EndOf, AlignUp, DirEnd;
    Powers();
    DirEndIs(|secs|);
    var b, head := Finished(hash, f, flags, owner, secs), HeadBytes(hash, f, flags, owner, secs);
    NumOfLE(hash(head), 8);
    assert b[120..128] == LE(hash(head), 8);
    HeadWidths();
    assert b[32..120] == head[32..];
  }

  lemma HeadReads(hash: Hash, f: Format, flags: u16, owner: seq<byte>, secs: seq<Section>)
    requires Finishable(owner, secs)
    ensures var b := Finished(hash, f, flags, owner, secs);
            Head(hash, f, b) == Some([f.magic as nat, f.version, flags, HEADER_LEN, |secs|,
                                      AlignUp(EndOf(secs, DirEnd(|secs|))), hash(Directory(hash, secs))])
  {
    hide Finished, HeadBytes, Head, Directory, EndOf, AlignUp, DirEnd, Fitting, Pack, Payload, Finishable;
    DirEndIs(|secs|);
    HeadWidths();
    FinishableParts(owner, secs);
    FileParts(hash, f, flags, owner, secs);
    var total := AlignUp(EndOf(secs, DirEnd(|secs|)));
    HeadFits(f, flags, |secs|, total, hash(Directory(hash, secs)));
    HeadStart(hash, f, flags, owner, secs);
    var v: seq<nat> := [f.magic, f.version, flags, HEADER_LEN, |secs|, total, hash(Directory(hash, secs))];
    HeadIs(hash, f, Finished(hash, f, flags, owner, secs), v);
  }

  lemma FinishableParts(owner: seq<byte>, secs: seq<Section>)
    requires Finishable(owner, secs)
    ensures |owner| == OWNER_LEN && |secs| < 0x1_0000_0000 && AlignUp(EndOf(secs, DirEnd(|secs|))) < 0x1_0000_0000_0000_0000
  {
    hide AlignUp, EndOf, DirEnd;
  }

  /** A header with the right fields and checksum is read as those fields. */
  lemma HeadIs(hash: Hash, f: Format, b: seq<byte>, v: seq<nat>)
    requires |b| >= 128 && Fitting(HEAD, v) && |v| == 7 == Len(HEAD) && b[..120][..32] == Pack(HEAD, v)
    requires v[0] == f.magic && v[1] == f.version && v[3] == HEADER_LEN && hash(b[..120]) == Num(b[120..128])
    ensures Head(hash, f, b) == Some(v)
  {
    hide Fields, Fitting, Pack, Num;
    HeadWidths();
    assert b[..32] == b[..120][..32];
    FieldsOfPack(HEAD, v, b[..32]);
  }

  lemma HeadFits(f: Format, flags: u16, count: nat, total: nat, sum: u64)
    requires count < 0x1_0000_0000 && total < 0x1_0000_0000_0000_0000
    ensures Fitting(HEAD, [f.magic as nat, f.version, flags, HEADER_LEN, count, total, sum])
  {
    hide Fitting;
    HeadWidths();
    Powers();
    FitsBounds(HEAD, [f.magic as nat, f.version, flags, HEADER_LEN, count, total, sum]);
  }

  lemma HeadStart(hash: Hash, f: Format, flags: u16, owner: seq<byte>, secs: seq<Section>)
    requires |owner| == OWNER_LEN
    ensures Len(HEAD) == 7
    ensures HeadBytes(hash, f, flags, owner, secs)[..32] ==
      Pack(HEAD, [f.magic as nat, f.version, flags, HEADER_LEN, |secs|, AlignUp(EndOf(secs, DirEnd(|secs|))), hash(Directory(hash, secs))])
  {
    hide Pack, EndOf, AlignUp, Directory, DirEnd;
    HeadWidths();
  }

  lemma EntryReads(hash: Hash, secs: seq<Section>, b: seq<byte>, i: nat)
    requires DirEnd(|secs|) <= |b| && b[128..DirEnd(|secs|)] == Directory(hash, secs) && i < |secs|
    requires |secs| < 0x1_0000_0000 && EndOf(secs, DirEnd(|secs|)) < 0x1_0000_0000_0000_0000
    ensures DirEnd(i + 1) <= |b| && EntryAt(b, i) == EntriesOf(hash, secs, DirEnd(|secs|))[i]
  {
    hide EntriesOf, DirRows, Directory, EndOf, AlignUp, DirEnd, Unpack, Fields, EntryAt, RowOf, Fitting, Pack, Total;
    var n := |secs|;
    DirEndIs(n);
    DirEndIs(i);
    DirectoryRow(hash, secs, i);
    RowsAreEntries(hash, secs, DirEnd(n), i);
    RowInFile(b, DirEnd(n), Directory(hash, secs), i);
    EntryIs(b, i, EntriesOf(hash, secs, DirEnd(n))[i]);
  }

  lemma RowInFile(b: seq<byte>, end: nat, dir: seq<byte>, i: nat)
    requires 128 <= end <= |b| && b[128..end] == dir && 32 * i + 32 <= |dir|
    ensures DirEnd(i) + 32 <= |b| && b[DirEnd(i)..DirEnd(i) + 32] == dir[32 * i..32 * i + 32]
  {
    InnerSlice(b, 128, end, 32 * i, 32 * i + 32);
  }

  lemma InnerSlice(b: seq<byte>, lo: nat, hi: nat, x: nat, y: nat)
    requires lo <= hi <= |b| && x <= y <= hi - lo
    ensures b[lo + x..lo + y] == b[lo..hi][x..y]
  {
    var p, q := b[lo + x..lo + y], b[lo..hi][x..y];
    assert |p| == |q|;
    assert forall k :: 0 <= k < |p| ==> p[k] == b[lo + x + k] == q[k];
  }

  lemma EntryIs(b: seq<byte>, i: nat, e: DirEntry)
    requires DirEnd(i) + 32 <= |b| && Total(ENTRY) == 32 && Unpack(ENTRY, b[DirEnd(i)..DirEnd(i) + 32]) == RowOf(e)
    ensures DirEnd(i + 1) <= |b| && EntryAt(b, i) == e
  {
    hide Unpack, DirEnd;
    DirEndIs(i);
    HeadWidths();
    var x := b[DirEnd(i)..DirEnd(i) + 32];
    var v := Fields(ENTRY, x);
    assert v == RowOf(e);
    assert v[0] == e.kind && v[5] == e.sum && Slot(v[3], v[4], v[1]) == e.slot;
    assert EntryAt(b, i) == DirEntry(v[0], Slot(v[3], v[4], v[1]), v[5]);
  }

  lemma DirectoryRow(hash: Hash, secs: seq<Section>, i: nat)
    requires i < |secs| && EndOf(secs, DirEnd(|secs|)) < 0x1_0000_0000_0000_0000
    ensures Total(ENTRY) == 32 && 32 * i + 32 <= |Directory(hash, secs)|
    ensures Unpack(ENTRY, Directory(hash, secs)[32 * i..32 * i + 32]) == DirRows(hash, secs, DirEnd(|secs|))[i]
  {
    hide EndOf, Fitting, DirRows, Unpack, Pack, PackAll, UnpackAll, Times, DirEnd;
    var n := |secs|;
    HeadWidths();
    TimesIs(n);
    TimesIs(i);
    var rows := DirRows(hash, secs, DirEnd(n));
    forall j | 0 <= j < n ensures Fitting(ENTRY, rows[j]) && |rows[j]| == Len(ENTRY) { RowFits(hash, secs, DirEnd(n), j); }
    UnpackAllPackAll(ENTRY, rows);
    RowOffset(ENTRY, Directory(hash, secs), n, i);
  }

  lemma RowFits(hash: Hash, secs: seq<Section>, at: nat, i: nat)
    requires i < |secs| && EndOf(secs, at) < 0x1_0000_0000_0000_0000
    ensures Fitting(ENTRY, DirRows(hash, secs, at)[i]) && |DirRows(hash, secs, at)[i]| == 6
  {
    hide Fitting, EndOf, DirRows, EntriesOf;
    HeadWidths();
    Powers();
    RowsAreEntries(hash, secs, at, i);
    EntriesAreSections(hash, secs, at, i);
    FitsBounds(ENTRY, RowOf(EntriesOf(hash, secs, at)[i]));
  }

  /** The entries read from a finished file, and what they point at. */
  lemma FinishedEntries(hash: Hash, f: Format, flags: u16, owner: seq<byte>, secs: seq<Section>)
    requires Finishable(owner, secs)
    ensures var b, n := Finished(hash, f, flags, owner, secs), |secs|;
            && DirEnd(n) <= |b| && Entries(b, n) == EntriesOf(hash, secs, DirEnd(n))
            && (forall i :: 0 <= i < n ==> Stored(hash, b, DirEnd(n), Entries(b, n)[i], secs[i]))
            && Disjoint(SpansOf(Entries(b, n))) && ZeroOutside(b, DirEnd(n), SpansOf(Entries(b, n)))
  {
    hide Finished, HeadBytes, Payload, Directory, EntryAt, EndOf, EntriesOf, Disjoint, ZeroOutside, AlignUp, EntryOk, Swept, Within,
      DirEnd;
    DirEndIs(|secs|);
    var b, n := Finished(hash, f, flags, owner, secs), |secs|;
    FileParts(hash, f, flags, owner, secs);
    var es := EntriesOf(hash, secs, DirEnd(n));
    forall i | 0 <= i < n ensures DirEnd(i + 1) <= |b| && EntryAt(b, i) == es[i] { EntryReads(hash, secs, b, i); }
    assert Entries(b, n) == es;
    forall i | 0 <= i < n ensures Stored(hash, b, DirEnd(n), es[i], secs[i]) { SectionThere(hash, secs, b, i); }
    PayloadSweeps(hash, secs, DirEnd(n), b);
    SpansWithin(SpansOf(es), DirEnd(n), |b|);
    SweptApart(b, DirEnd(n), SpansOf(es));
    SweptZero(b, DirEnd(n), SpansOf(es));
  }

  /** An entry that is sound and describes a section that is there. */
  ghost predicate Stored(hash: Hash, b: seq<byte>, dirEnd: nat, e: DirEntry, s: Section) {
    && EntryOk(hash, b, dirEnd, e) && e.slot.offset + e.slot.length <= |b|
    && e.kind == s.kind && e.slot.flags == s.flags && e.slot.length == |s.bytes|
    && b[e.slot.offset..e.slot.offset + e.slot.length] == s.bytes
  }

  /** A table filled from stored sections of distinct kinds gives each back, and nothing else. */
  lemma TableGives(hash: Hash, b: seq<byte>, dirEnd: nat, flags: u16, owner: seq<byte>, es: seq<DirEntry>, secs: seq<Section>)
    returns (d: Dir)
    requires |es| == |secs| && forall i :: 0 <= i < |secs| ==> Stored(hash, b, dirEnd, es[i], secs[i]) && secs[i].bytes != []
    requires forall i, j :: 0 <= i < j < |secs| ==> secs[i].kind != secs[j].kind
    ensures Fill(EmptyDir(flags, owner), es) == Some(d) && d.flags == flags && d.owner == owner
    ensures forall i :: 0 <= i < |secs| ==>
      && SectionOf(d, b, secs[i].kind) == secs[i].bytes
      && Lookup(d, secs[i].kind).Some? && Lookup(d, secs[i].kind).value.flags == secs[i].flags
    ensures forall kind: nat :: (forall i :: 0 <= i < |secs| ==> secs[i].kind != kind) ==>
      Lookup(d, kind).None? && SectionOf(d, b, kind) == []
  {
    hide Fill, Lookup, EntryOk;
    forall i, j | 0 <= i < j < |es| ensures es[i].kind != es[j].kind {
      assert Stored(hash, b, dirEnd, es[i], secs[i]) && Stored(hash, b, dirEnd, es[j], secs[j]);
    }
    DistinctFill(flags, owner, es);
    d := Fill(EmptyDir(flags, owner), es).value;
    LookupFinds(flags, owner, es, 0);
    forall i | 0 <= i < |secs|
      ensures SectionOf(d, b, secs[i].kind) == secs[i].bytes && Lookup(d, secs[i].kind) == Some(es[i].slot)
    {
      assert Stored(hash, b, dirEnd, es[i], secs[i]);
      assert Findable(es[i], secs[i].kind);
      LookupFinds(flags, owner, es, secs[i].kind);
    }
    forall kind: nat | forall i :: 0 <= i < |secs| ==> secs[i].kind != kind
      ensures Lookup(d, kind).None? && SectionOf(d, b, kind) == []
    {
      LookupFinds(flags, owner, es, kind);
      forall i | 0 <= i < |es| ensures !Findable(es[i], kind) {
        assert Stored(hash, b, dirEnd, es[i], secs[i]);
      }
    }
  }

  /** Parsing a finished file gives back its flags, its owner bytes and every section, each
      with its own flags, and nothing for any other kind. */
  lemma FinishedParses(hash: Hash, f: Format, flags: u16, owner: seq<byte>, secs: seq<Section>) returns (d: Dir)
    requires Finishable(owner, secs)
    ensures var b := Finished(hash, f, flags, owner, secs);
            && Accepted(hash, f, b, d) && d.flags == flags && d.owner == owner
            && (forall i :: 0 <= i < |secs| ==>
                  && SectionOf(d, b, secs[i].kind) == secs[i].bytes
                  && Lookup(d, secs[i].kind).Some? && Lookup(d, secs[i].kind).value.flags == secs[i].flags)
            && (forall kind: nat :: (forall i :: 0 <= i < |secs| ==> secs[i].kind != kind) ==>
                  Lookup(d, kind).None? && SectionOf(d, b, kind) == [])
  {
    hide Finished, HeadBytes, Head, Payload, Directory, EntryAt, EndOf, EntriesOf, Fill, Lookup, Disjoint, ZeroOutside, AlignUp,
      EntryOk, DirEnd, Entries, SectionOf;
    var b, n := Finished(hash, f, flags, owner, secs), |secs|;
    FileParts(hash, f, flags, owner, secs);
    HeadReads(hash, f, flags, owner, secs);
    FinishedEntries(hash, f, flags, owner, secs);
    d := TableGives(hash, b, DirEnd(n), flags, owner, Entries(b, n), secs);
  }

  lemma SpansWithin(xs: seq<Span>, at: nat, len: nat)
    requires Within(xs, at, len)
    ensures Within(xs, 0, len)
  {
  }

  lemma SectionThere(hash: Hash, secs: seq<Section>, b: seq<byte>, i: nat)
    requires i < |secs| && DirEnd(|secs|) <= |b| && b[DirEnd(|secs|)..] == Payload(secs, DirEnd(|secs|))
    ensures var e := EntriesOf(hash, secs, DirEnd(|secs|))[i];
            Stored(hash, b, DirEnd(|secs|), e, secs[i])
  {
    hide EntriesOf, DirRows, Payload, EndOf, AlignUp, DirEnd, EntryOk, RowOf;
    var at := DirEnd(|secs|);
    EntriesAreSections(hash, secs, at, i);
    EntriesAligned(hash, secs, at, i);
    PayloadHolds(hash, secs, at, i);
    var e := EntriesOf(hash, secs, at)[i];
    BackSlice(b, at, e.slot.offset, e.slot.offset + e.slot.length);
    EntryIsOk(hash, b, at, e, secs[i].bytes);
  }

  lemma BackSlice(b: seq<byte>, at: nat, lo: nat, hi: nat)
    requires at <= lo <= hi && at <= |b| && hi - at <= |b[at..]|
    ensures hi <= |b| && b[lo..hi] == b[at..][lo - at..hi - at]
  {
  }

  lemma EntryIsOk(hash: Hash, b: seq<byte>, at: nat, e: DirEntry, bytes: seq<byte>)
    requires at <= e.slot.offset && e.slot.offset + e.slot.length <= |b| && e.slot.offset % ALIGN == 0
    requires b[e.slot.offset..e.slot.offset + e.slot.length] == bytes && e.sum == hash(bytes)
    ensures EntryOk(hash, b, at, e)
  {
  }

  // ---- the loops that finish a file ----------------------------------------------------------------------

  /** Pad with zeros to a length. */
  function Resized(b: seq<byte>, n: nat): seq<byte> { if |b| <= n then b + Zeros(n - |b|) else b[..n] }

  lemma RowsSnoc(hash: Hash, secs: seq<Section>, i: nat, at: nat)
    requires i < |secs|
    ensures DirRows(hash, secs[..i + 1], at) == DirRows(hash, secs[..i], at)
      + [[secs[i].kind as nat, secs[i].flags, 0, AlignUp(EndOf(secs[..i], at)), |secs[i].bytes|, hash(secs[i].bytes)]]
    ensures EndOf(secs[..i + 1], at) == AlignUp(EndOf(secs[..i], at)) + |secs[i].bytes|
    decreases i
  {
    if i == 0 {
      assert secs[..1] == [secs[0]] && secs[..1][1..] == [] && secs[..0] == [];
    } else {
      RowsSnoc(hash, secs[1..], i - 1, AlignUp(at) + |secs[0].bytes|);
      assert secs[..i + 1][1..] == secs[1..][..i] && secs[..i][1..] == secs[1..][..i - 1];
    }
  }

  /** The payload written so far, before the padding after its last section. */
  function Written(secs: seq<Section>, at: nat): (b: seq<byte>)
    ensures |b| == EndOf(secs, at) - at
  {
    Payload(secs, at)[..EndOf(secs, at) - at]
  }

  lemma WrittenStep(secs: seq<Section>, at: nat)
    requires secs != []
    ensures var next, front := AlignUp(at) + |secs[0].bytes|, Zeros(AlignUp(at) - at) + secs[0].bytes;
            && EndOf(secs, at) == EndOf(secs[1..], next)
            && Payload(secs, at) == front + Payload(secs[1..], next) && Written(secs, at) == front + Written(secs[1..], next)
  {
    hide Zeros, AlignUp;
  }

  lemma {:induction false} WrittenSnoc(secs: seq<Section>, i: nat, at: nat)
    requires i < |secs|
    ensures EndOf(secs[..i + 1], at) == AlignUp(EndOf(secs[..i], at)) + |secs[i].bytes|
    ensures Written(secs[..i + 1], at) == Payload(secs[..i], at) + secs[i].bytes
    decreases i
  {
    hide Zeros, AlignUp, Payload, EndOf, Written;
    WrittenStep(secs[..i + 1], at);
    var next, front := AlignUp(at) + |secs[0].bytes|, Zeros(AlignUp(at) - at) + secs[0].bytes;
    if i == 0 {
      assert secs[..1][1..] == [] && secs[..0] == [];
      NothingWritten(at);
      NothingWritten(next);
      assert front + [] == front;
    } else {
      WrittenSnoc(secs[1..], i - 1, next);
      WrittenStep(secs[..i], at);
      assert secs[..i + 1][1..] == secs[1..][..i] && secs[..i][1..] == secs[1..][..i - 1];
      assert front + (Payload(secs[1..][..i - 1], next) + secs[i].bytes) == front + Payload(secs[1..][..i - 1], next) + secs[i].bytes;
    }
  }

  lemma NothingWritten(at: nat)
    ensures EndOf([], at) == at && Written([], at) == [] && Payload([], at) == Zeros(AlignUp(at) - at)
  {
  }

  lemma PayloadPadded(secs: seq<Section>, at: nat, head: seq<byte>)
    requires |head| == at
    ensures Resized(head + Written(secs, at), AlignUp(EndOf(secs, at))) == head + Payload(secs, at)
  {
    hide Zeros, AlignUp, Payload, EndOf, Written;
    PayloadEndsZero(secs, at);
  }

  lemma {:induction false} PayloadEndsZero(secs: seq<Section>, at: nat)
    ensures Payload(secs, at) == Written(secs, at) + Zeros(AlignUp(EndOf(secs, at)) - EndOf(secs, at))
  {
    hide Zeros, AlignUp, Payload, EndOf, Written;
    if secs == [] {
      NothingWritten(at);
    } else {
      var next, front := AlignUp(at) + |secs[0].bytes|, Zeros(AlignUp(at) - at) + secs[0].bytes;
      PayloadEndsZero(secs[1..], next);
      WrittenStep(secs, at);
      assert front + (Written(secs[1..], next) + Zeros(AlignUp(EndOf(secs[1..], next)) - EndOf(secs[1..], next)))
          == front + Written(secs[1..], next) + Zeros(AlignUp(EndOf(secs[1..], next)) - EndOf(secs[1..], next));
    }
  }

  /** Lay out the directory and the sections: one pass for the offsets, one for the bytes. */
  method Finish(hash: Hash, f: Format, flags: u16, owner: seq<byte>, secs: seq<Section>) returns (out: seq<byte>)
    requires |owner| == OWNER_LEN
    ensures out == Finished(hash, f, flags, owner, secs)
  {
    hide Payload, PackAll, DirRows, EndOf, Zeros, Written, Pack, AlignUp, DirEnd, Resized;
    HeadWidths();
    DirEndIs(|secs|);
    var dirEnd := DirEnd(|secs|);
    var offset := AlignUp(dirEnd);
    var rows: seq<seq<nat>> := [];
    NoRowsYet(hash, dirEnd);
    for i := 0 to |secs|
      invariant rows == DirRows(hash, secs[..i], dirEnd) && offset == AlignUp(EndOf(secs[..i], dirEnd))
    {
      RowsSnoc(hash, secs, i, dirEnd);
      var s := secs[i];
      rows := rows + [[s.kind as nat, s.flags, 0, offset, |s.bytes|, hash(s.bytes)]];
      offset := AlignUp(offset + |s.bytes|);
    }
    assert secs[..|secs|] == secs;
    var dir := PackAll(ENTRY, rows);
    out := Pack(HEAD, [f.magic as nat, f.version, flags, HEADER_LEN, |secs|, offset, hash(dir)]);
    out := out + owner;
    out := out + LE(hash(out), 8);
    TimesIs(|secs|);
    out := out + dir;
    ghost var head := out;
    for i := 0 to |secs|
      invariant out == head + Written(secs[..i], dirEnd)
    {
      WrittenSnoc(secs, i, dirEnd);
      PayloadPadded(secs[..i], dirEnd, head);
      PaddedLength(head, secs[..i], dirEnd);
      out := Resized(out, AlignUp(|out|));
      out := out + secs[i].bytes;
    }
    PayloadPadded(secs, dirEnd, head);
    PaddedLength(head, secs, dirEnd);
    out := Resized(out, offset);
  }

  lemma NoRowsYet(hash: Hash, at: nat)
    ensures DirRows(hash, [], at) == [] && EndOf([], at) == at && Written([], at) == []
  {
  }

  lemma PaddedLength(head: seq<byte>, secs: seq<Section>, at: nat)
    requires |head| == at
    ensures |head + Written(secs, at)| == EndOf(secs, at)
  {
  }
}
