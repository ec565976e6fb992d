/** A sectioned file: header, directory, aligned sections, every byte under one checksum or
    zero. A finished file parses back to what was put in it. */
module Container {
  import opened Ops
  import opened ByteCodec
  import opened Spans

  type Hash = seq<byte> -> u64

  const HEADER_LEN := 128
  const OWNER_LEN := 88
  const ENTRY_LEN := 32
  const ALIGN := 64
  const FAST_KINDS := 32

  datatype Format = Format(magic: u32, version: u16)
  datatype Section = Section(kind: u16, flags: u16, bytes: seq<byte>)

  /** magic, version, flags, header width, section count, total length, directory checksum;
      the owner area and the header checksum follow */
  const HEAD: Layout := W(4, W(2, W(2, W(4, W(4, W(8, W(8, End)))))))
  /** kind, flags, zero, offset, length, checksum */
  const ENTRY: Layout := W(2, W(2, W(4, W(8, W(8, W(8, End))))))

  lemma HeadWidths()
    ensures Total(HEAD) == 32 && Len(HEAD) == 7 && Total(ENTRY) == 32 && Len(ENTRY) == 6
    ensures Width(HEAD, 0) == 4 && Width(HEAD, 1) == 2 && Width(HEAD, 2) == 2 && Width(HEAD, 3) == 4
    ensures Width(HEAD, 4) == 4 && Width(HEAD, 5) == 8 && Width(HEAD, 6) == 8
    ensures Width(ENTRY, 0) == 2 && Width(ENTRY, 1) == 2 && Width(ENTRY, 2) == 4 && Width(ENTRY, 3) == 8
    ensures Width(ENTRY, 4) == 8 && Width(ENTRY, 5) == 8
  {
  }

  function AlignUp(n: nat): (a: nat)
    ensures a >= n
  {
    (n + ALIGN - 1) / ALIGN * ALIGN
  }

  lemma AlignUpIs(n: nat)
    ensures n <= AlignUp(n) < n + ALIGN && AlignUp(n) % ALIGN == 0
  {
  }

  // ---- writing -------------------------------------------------------------------------------------

  /** Where sections laid from `at` on end. */
  function EndOf(secs: seq<Section>, at: nat): (e: nat)
    ensures e >= at
  {
    if secs == [] then at else EndOf(secs[1..], AlignUp(at) + |secs[0].bytes|)
  }

  function DirRows(hash: Hash, secs: seq<Section>, at: nat): (rows: seq<seq<nat>>)
    ensures |rows| == |secs| && forall i :: 0 <= i < |rows| ==> |rows[i]| == 6
  {
    if secs == [] then []
    else
      var s := secs[0];
      [[s.kind as nat, s.flags, 0, AlignUp(at), |s.bytes|, hash(s.bytes)]] + DirRows(hash, secs[1..], AlignUp(at) + |s.bytes|)
  }

  /** Every section, padded to alignment, and padding after the last. */
  function Payload(secs: seq<Section>, at: nat): (b: seq<byte>)
    ensures |b| == AlignUp(EndOf(secs, at)) - at
  {
    if secs == [] then Zeros(AlignUp(at) - at)
    else Zeros(AlignUp(at) - at) + secs[0].bytes + Payload(secs[1..], AlignUp(at) + |secs[0].bytes|)
  }

  function DirEnd(n: nat): nat { HEADER_LEN + ENTRY_LEN * n }

  function Directory(hash: Hash, secs: seq<Section>): (b: seq<byte>)
    ensures |b| == ENTRY_LEN * |secs|
  {
    HeadWidths();
    TimesIs(|secs|);
    PackAll(ENTRY, DirRows(hash, secs, DirEnd(|secs|)))
  }

  lemma {:induction false} TimesIs(n: nat)
    ensures Times(n, 32) == 32 * n
  {
    if n > 0 { TimesIs(n - 1); }
  }

  function HeadBytes(hash: Hash, f: Format, flags: u16, owner: seq<byte>, secs: seq<Section>): (b: seq<byte>)
    requires |owner| == OWNER_LEN
    ensures |b| == 120
  {
    HeadWidths();
    var total := AlignUp(EndOf(secs, DirEnd(|secs|)));
    Pack(HEAD, [f.magic as nat, f.version, flags, HEADER_LEN, |secs|, total, hash(Directory(hash, secs))]) + owner
  }

  /** The finished file. */
  function Finished(hash: Hash, f: Format, flags: u16, owner: seq<byte>, secs: seq<Section>): seq<byte>
    requires |owner| == OWNER_LEN
  {
    var head := HeadBytes(hash, f, flags, owner, secs);
    head + LE(hash(head), 8) + Directory(hash, secs) + Payload(secs, DirEnd(|secs|))
  }

  // ---- reading --------------------------------------------------------------------------------------

  datatype Slot = Slot(offset: nat, length: nat, flags: nat)

  /** Section ranges: by kind below `FAST_KINDS`, in directory order above. */
  datatype Dir = Dir(flags: nat, owner: seq<byte>, fast: seq<Slot>, other: seq<(nat, Slot)>)

  function FindOther(other: seq<(nat, Slot)>, kind: nat): Option<Slot> {
    if other == [] then None
    else if other[0].0 == kind then Some(other[0].1)
    else FindOther(other[1..], kind)
  }

  /** The entry of a kind: O(1) for small kinds, where an empty section is as good as none. */
  function Lookup(d: Dir, kind: nat): Option<Slot> {
    if kind < |d.fast| then if d.fast[kind].length > 0 then Some(d.fast[kind]) else None
    else FindOther(d.other, kind)
  }

  function Put(d: Dir, kind: nat, s: Slot): Dir {
    if kind < |d.fast| then d.(fast := d.fast[kind := s]) else d.(other := d.other + [(kind, s)])
  }

  function SectionOf(d: Dir, bytes: seq<byte>, kind: nat): seq<byte> {
    var s := Lookup(d, kind);
    if s.Some? && s.value.offset + s.value.length <= |bytes|
    then bytes[s.value.offset..s.value.offset + s.value.length] else []
  }

  datatype DirEntry = DirEntry(kind: nat, slot: Slot, sum: nat)

  function SpanOf(e: DirEntry): Span { Span(e.slot.offset, e.slot.offset + e.slot.length) }

  function SpansOf(es: seq<DirEntry>): (xs: seq<Span>)
    ensures |xs| == |es|
  {
    seq(|es|, i requires 0 <= i < |es| => SpanOf(es[i]))
  }

  /** Header fields, when the header is whole and right. */
  function Head(hash: Hash, f: Format, bytes: seq<byte>): (v: Option<seq<nat>>)
    ensures v.Some? ==> |bytes| >= HEADER_LEN && |v.value| == 7
  {
    HeadWidths();
    if |bytes| < HEADER_LEN then None
    else
      var v := Fields(HEAD, bytes[..32]);
      if v[0] != f.magic || v[1] != f.version || hash(bytes[..120]) != Num(bytes[120..128]) || v[3] != HEADER_LEN then None
      else Some(v)
  }

  function EntryAt(bytes: seq<byte>, i: nat): DirEntry
    requires DirEnd(i + 1) <= |bytes|
  {
    HeadWidths();
    var v := Fields(ENTRY, bytes[DirEnd(i)..DirEnd(i) + 32]);
    DirEntry(v[0], Slot(v[3], v[4], v[1]), v[5])
  }

  function Entries(bytes: seq<byte>, n: nat): (es: seq<DirEntry>)
    requires DirEnd(n) <= |bytes|
    ensures |es| == n
  {
    seq(n, i requires 0 <= i < n => EntryAt(bytes, i))
  }

  predicate EntryOk(hash: Hash, bytes: seq<byte>, dirEnd: nat, e: DirEntry) {
    && dirEnd <= e.slot.offset && e.slot.offset + e.slot.length <= |bytes| && e.slot.offset % ALIGN == 0
    && hash(bytes[e.slot.offset..e.slot.offset + e.slot.length]) == e.sum
  }

  /** The table filled entry by entry; `None` when a kind is found taken. */
  function Fill(d: Dir, es: seq<DirEntry>): Option<Dir> {
    if es == [] then Some(d)
    else
      var before := Fill(d, es[..|es| - 1]);
      var e := es[|es| - 1];
      if before.None? || Lookup(before.value, e.kind).Some? then None else Some(Put(before.value, e.kind, e.slot))
  }

  const NO_SLOT := Slot(0, 0, 0)

  function EmptyDir(flags: nat, owner: seq<byte>): Dir { Dir(flags, owner, seq(FAST_KINDS, _ => NO_SLOT), []) }

  /** A container this format accepts, and the directory it parses to. */
  ghost predicate Accepted(hash: Hash, f: Format, bytes: seq<byte>, d: Dir) {
    var v := Head(hash, f, bytes);
    && v.Some? && v.value[5] == |bytes| && DirEnd(v.value[4]) <= |bytes|
    && hash(bytes[HEADER_LEN..DirEnd(v.value[4])]) == v.value[6]
    && var es := Entries(bytes, v.value[4]);
       && (forall i :: 0 <= i < |es| ==> EntryOk(hash, bytes, DirEnd(|es|), es[i]))
       && Fill(EmptyDir(v.value[2], bytes[32..120]), es) == Some(d)
       && Disjoint(SpansOf(es)) && ZeroOutside(bytes, DirEnd(|es|), SpansOf(es))
  }

  /** Parse: every check of the reader, in its order. */
  method Parse(hash: Hash, f: Format, bytes: seq<byte>) returns (r: Option<Dir>)
    ensures r.Some? ==> Accepted(hash, f, bytes, r.value)
    ensures r.None? ==> forall d :: !Accepted(hash, f, bytes, d)
  {
    hide Head, Disjoint, ZeroOutside, EntryAt, Lookup, Put, EmptyDir;
    var v := Head(hash, f, bytes);
    if v.None? || v.value[5] != |bytes| {
      return None;
    }
    var count := v.value[4];
    var dirEnd := DirEnd(count);
    if dirEnd > |bytes| || hash(bytes[HEADER_LEN..dirEnd]) != v.value[6] {
      return None;
    }
    ghost var es := Entries(bytes, count);
    ghost var start := EmptyDir(v.value[2], bytes[32..120]);
    var dir := EmptyDir(v.value[2], bytes[32..120]);
    var spans: seq<Span> := [];
    for i := 0 to count
      invariant Fill(start, es[..i]) == Some(dir) && spans == SpansOf(es[..i])
      invariant forall j :: 0 <= j < i ==> EntryOk(hash, bytes, dirEnd, es[j])
    {
      var e := EntryAt(bytes, i);
      assert e == es[i] && es[..i + 1][..i] == es[..i];
      if !EntryOk(hash, bytes, dirEnd, e) {
        return None;
      }
      if Lookup(dir, e.kind).Some? {
        FillStops(start, es, i + 1);
        return None;
      }
      dir := Put(dir, e.kind, e.slot);
      spans := spans + [SpanOf(e)];
    }
    assert es[..count] == es;
    var ok := CheckSpans(bytes, dirEnd, spans);
    return if ok then Some(dir) else None;
  }

  lemma {:induction false} FillStops(d: Dir, es: seq<DirEntry>, i: nat)
    requires i <= |es| && Fill(d, es[..i]).None?
    ensures Fill(d, es).None?
    decreases |es| - i
  {
    if i < |es| {
      assert es[..i + 1][..i] == es[..i];
      FillStops(d, es, i + 1);
    } else {
      assert es[..i] == es;
    }
  }
}
