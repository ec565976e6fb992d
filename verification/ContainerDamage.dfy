/** A container read byte by byte: where its numbers stand, what each checksum is over, and that
    no byte of an accepted file can change without being noticed or fooling a checksum. */
module ContainerDamage {
  import opened Ops
  import opened ByteCodec
  import opened Spans
  import opened Container

  // ---- what an accepted file says, by position ---------------------------------------------------

  /** Row `i` of the directory: where its section starts and how long it is. */
  function RowAt(i: nat): nat { 128 + 32 * i }

  /** The row's section is aligned, in bounds behind the directory, and hashes to the row's sum. */
  predicate RowIntact(hash: Hash, b: seq<byte>, count: nat, i: nat)
    requires RowAt(i) + 32 <= |b|
  {
    var start, len := At8(b, RowAt(i) + 8), At8(b, RowAt(i) + 16);
    && RowAt(count) <= start && start % 64 == 0 && start + len <= |b|
    && At8(b, RowAt(i) + 24) == hash(b[start..start + len])
  }

  /** Magic and version, the header's own checksum, the file's length, the directory and its
      checksum, and every row. */
  predicate Intact(hash: Hash, f: Format, b: seq<byte>) {
    && |b| >= 128
    && At4(b, 0) == f.magic && At2(b, 4) == f.version && At4(b, 8) == 128
    && At8(b, 16) == |b| && At8(b, 120) == hash(b[..120])
    && var count := At4(b, 12);
       && RowAt(count) <= |b| && At8(b, 24) == hash(b[128..RowAt(count)])
       && forall i :: 0 <= i < count ==> RowIntact(hash, b, count, i)
  }

  lemma HeadAt(hash: Hash, f: Format, b: seq<byte>)
    requires Head(hash, f, b).Some?
    ensures |b| >= 128 && Head(hash, f, b).value == [At4(b, 0), At2(b, 4), At2(b, 6), At4(b, 8), At4(b, 12), At8(b, 16), At8(b, 24)]
    ensures At4(b, 0) == f.magic && At2(b, 4) == f.version && At4(b, 8) == 128 && At8(b, 120) == hash(b[..120])
  {
    hide At2, At4, At8, Fields;
    HeadWidths();
    HeadOffsets();
    assert b[0..0 + Total(HEAD)] == b[..32];
    forall k | 0 <= k < 7 ensures HeadField(b, k) { FieldAt(HEAD, b, 0, k); }
    assert HeadField(b, 0) && HeadField(b, 1) && HeadField(b, 2) && HeadField(b, 3) && HeadField(b, 4) && HeadField(b, 5)
           && HeadField(b, 6);
    NumEight(b, 120);
  }

  predicate HeadField(b: seq<byte>, k: nat)
    requires |b| >= 128 && k < 7
  {
    HeadWidths();
    HeadOffsets();
    var v := Fields(HEAD, b[..32])[k];
    v == match k
         case 0 => At4(b, 0)
         case 1 => At2(b, 4)
         case 2 => At2(b, 6)
         case 3 => At4(b, 8)
         case 4 => At4(b, 12)
         case 5 => At8(b, 16)
         case _ => At8(b, 24)
  }

  lemma HeadOffsets()
    ensures Len(HEAD) == 7 && Offset(HEAD, 0) == 0 && Offset(HEAD, 1) == 4 && Offset(HEAD, 2) == 6 && Offset(HEAD, 3) == 8
    ensures Offset(HEAD, 4) == 12 && Offset(HEAD, 5) == 16 && Offset(HEAD, 6) == 24
    ensures Len(ENTRY) == 6 && Offset(ENTRY, 0) == 0 && Offset(ENTRY, 1) == 2 && Offset(ENTRY, 3) == 8
    ensures Offset(ENTRY, 4) == 16 && Offset(ENTRY, 5) == 24
  {
  }

  lemma EntryIs(b: seq<byte>, i: nat)
    requires DirEnd(i + 1) <= |b|
    ensures RowAt(i) + 32 <= |b|
    ensures EntryAt(b, i) ==
      DirEntry(At2(b, RowAt(i)), Slot(At8(b, RowAt(i) + 8), At8(b, RowAt(i) + 16), At2(b, RowAt(i) + 2)), At8(b, RowAt(i) + 24))
  {
    hide Num, Fields, At8, At4, At2;
    var at := RowAt(i);
    HeadWidths();
    HeadOffsets();
    FieldAt(ENTRY, b, at, 0);
    FieldAt(ENTRY, b, at, 1);
    FieldAt(ENTRY, b, at, 3);
    FieldAt(ENTRY, b, at, 4);
    FieldAt(ENTRY, b, at, 5);
  }

  /** Every accepted file is intact. */
  lemma AcceptedIsIntact(hash: Hash, f: Format, b: seq<byte>, d: Dir)
    requires Accepted(hash, f, b, d)
    ensures Intact(hash, f, b)
  {
    hide Head, EntryAt, At8, At4, At2, Fill, Disjoint, ZeroOutside, SpansOf;
    HeadAt(hash, f, b);
    var count := At4(b, 12);
    forall i | 0 <= i < count ensures RowIntact(hash, b, count, i) {
      EntryIs(b, i);
      assert EntryOk(hash, b, DirEnd(count), Entries(b, count)[i]);
    }
  }

  // ---- a byte changed ------------------------------------------------------------------------------

  /** Byte `p` is in the section of row `i`. */
  predicate InRow(b: seq<byte>, i: nat, p: nat)
    requires RowAt(i) + 32 <= |b|
  {
    At8(b, RowAt(i) + 8) <= p < At8(b, RowAt(i) + 8) + At8(b, RowAt(i) + 16)
  }

  /** The checksums see a change of byte `p`: each that is over it comes out different. */
  predicate Noticed(hash: Hash, b: seq<byte>, b': seq<byte>, p: nat)
    requires |b'| == |b| >= 128 && RowAt(At4(b, 12)) <= |b|
  {
    var count := At4(b, 12);
    && (p < 120 ==> hash(b'[..120]) != hash(b[..120]))
    && (128 <= p < RowAt(count) ==> hash(b'[128..RowAt(count)]) != hash(b[128..RowAt(count)]))
    && forall i :: 0 <= i < count && InRow(b, i, p) ==>
         var start, end := At8(b, RowAt(i) + 8), At8(b, RowAt(i) + 8) + At8(b, RowAt(i) + 16);
         start <= end <= |b| && hash(b'[start..end]) != hash(b[start..end])
  }

  lemma SameNumbers(b: seq<byte>, b': seq<byte>, at: nat, w: nat)
    requires |b'| == |b| && at + w <= |b| && b'[at..at + w] == b[at..at + w]
    ensures w == 4 ==> At4(b', at) == At4(b, at)
    ensures w == 8 ==> At8(b', at) == At8(b, at)
  {
    if w == 4 { NumFour(b, at); NumFour(b', at); }
    if w == 8 { NumEight(b, at); NumEight(b', at); }
  }

  /** The number of eight bytes tells them. */
  lemma EightTell(b: seq<byte>, b': seq<byte>, at: nat)
    requires |b'| == |b| && at + 8 <= |b| && At8(b', at) == At8(b, at)
    ensures forall j :: at <= j < at + 8 ==> b'[j] == b[j]
  {
    assert forall j :: at <= j < at + 8 ==> b'[j] == b'[at..at + 8][j - at] && b[j] == b[at..at + 8][j - at];
    NumEight(b, at);
    NumEight(b', at);
    LEOfNum(b[at..at + 8]);
    LEOfNum(b'[at..at + 8]);
  }

  /** Beyond the header and directory nothing changed but byte `p`, and the file is intact: then
      `p` is in no section. */
  lemma SectionsUnchanged(hash: Hash, f: Format, b: seq<byte>, b': seq<byte>, p: nat)
    requires Intact(hash, f, b) && Intact(hash, f, b') && |b'| == |b|
    requires RowAt(At4(b, 12)) <= p < |b| && b'[..RowAt(At4(b, 12))] == b[..RowAt(At4(b, 12))]
    requires Noticed(hash, b, b', p)
    ensures At4(b', 12) == At4(b, 12)
    ensures forall i :: 0 <= i < At4(b, 12) ==>
      RowAt(i) + 32 <= |b| && !InRow(b, i, p) && !InRow(b', i, p)
  {
    hide At8, At4, At2, RowIntact, InRow;
    var end := RowAt(At4(b, 12));
    Part(b, 0, end, 12, 4);
    Part(b', 0, end, 12, 4);
    SameNumbers(b, b', 12, 4);
    forall i | 0 <= i < At4(b, 12) ensures !InRow(b, i, p) && !InRow(b', i, p) {
      RowUnchanged(b, b', end, i);
      assert RowIntact(hash, b, At4(b, 12), i) && RowIntact(hash, b', At4(b, 12), i);
      RowTells(hash, b, b', At4(b, 12), i, p);
    }
  }

  lemma RowUnchanged(b: seq<byte>, b': seq<byte>, end: nat, i: nat)
    requires |b'| == |b| && RowAt(i) + 32 <= end <= |b| && b'[..end] == b[..end]
    ensures At8(b', RowAt(i) + 8) == At8(b, RowAt(i) + 8) && At8(b', RowAt(i) + 16) == At8(b, RowAt(i) + 16)
    ensures At8(b', RowAt(i) + 24) == At8(b, RowAt(i) + 24)
  {
    hide At8;
    var at := RowAt(i);
    Part(b, 0, end, at + 8, 8);
    Part(b', 0, end, at + 8, 8);
    Part(b, 0, end, at + 16, 8);
    Part(b', 0, end, at + 16, 8);
    Part(b, 0, end, at + 24, 8);
    Part(b', 0, end, at + 24, 8);
    SameNumbers(b, b', at + 8, 8);
    SameNumbers(b, b', at + 16, 8);
    SameNumbers(b, b', at + 24, 8);
  }

  /** A row's sum tells its section. */
  lemma RowTells(hash: Hash, b: seq<byte>, b': seq<byte>, count: nat, i: nat, p: nat)
    requires |b'| == |b| && RowAt(i) + 32 <= |b| && RowIntact(hash, b, count, i) && RowIntact(hash, b', count, i)
    requires At8(b', RowAt(i) + 8) == At8(b, RowAt(i) + 8) && At8(b', RowAt(i) + 16) == At8(b, RowAt(i) + 16)
    requires At8(b', RowAt(i) + 24) == At8(b, RowAt(i) + 24)
    requires InRow(b, i, p) ==>
      var start, end := At8(b, RowAt(i) + 8), At8(b, RowAt(i) + 8) + At8(b, RowAt(i) + 16);
      start <= end <= |b| && hash(b'[start..end]) != hash(b[start..end])
    ensures !InRow(b, i, p) && !InRow(b', i, p)
  {
    hide At8;
  }

  /** Change any one byte of an accepted file: whether it lies in the header, the directory, a
      section or the padding, the file is refused unless a checksum over the byte comes out the
      same. */
  lemma ChangedByteIsRefused(hash: Hash, f: Format, b: seq<byte>, d: Dir, p: nat, x: byte, d': Dir)
    requires Accepted(hash, f, b, d) && p < |b| && x != b[p]
    ensures Intact(hash, f, b)
    ensures Noticed(hash, b, b[p := x], p) ==> !Accepted(hash, f, b[p := x], d')
  {
    hide Head, EntryAt, At8, At4, At2, Fill, Disjoint, SpansOf, Noticed;
    AcceptedIsIntact(hash, f, b, d);
    var b' := b[p := x];
    if Accepted(hash, f, b', d') {
      AcceptedIsIntact(hash, f, b', d');
      AcceptedUnnoticed(hash, f, b, d, b', d', p);
    }
  }

  lemma AcceptedUnnoticed(hash: Hash, f: Format, b: seq<byte>, d: Dir, b': seq<byte>, d': Dir, p: nat)
    requires Accepted(hash, f, b, d) && Accepted(hash, f, b', d') && Intact(hash, f, b) && Intact(hash, f, b')
    requires p < |b| && |b'| == |b| && b'[p] != b[p] && forall j :: 0 <= j < |b| && j != p ==> b'[j] == b[j]
    ensures !Noticed(hash, b, b', p)
  {
    hide Accepted, At8, At4, At2, RowIntact, InRow;
    if p < 120 {
      assert b'[120..128] == b[120..128];
      SameNumbers(b, b', 120, 8);
    } else if p < 128 {
      assert b'[..120] == b[..120];
      EightTell(b, b', 120);
    } else if p < RowAt(At4(b, 12)) {
      assert b'[12..16] == b[12..16] && b'[24..32] == b[24..32];
      SameNumbers(b, b', 12, 4);
      SameNumbers(b, b', 24, 8);
    } else if Noticed(hash, b, b', p) {
      var end := RowAt(At4(b, 12));
      assert b'[..end] == b[..end];
      SectionsUnchanged(hash, f, b, b', p);
      PaddingIsZero(hash, f, b, d, p);
      PaddingIsZero(hash, f, b', d', p);
    }
  }

  /** A byte past the directory in no row's section is zero. */
  lemma PaddingIsZero(hash: Hash, f: Format, b: seq<byte>, d: Dir, p: nat)
    requires Accepted(hash, f, b, d) && Intact(hash, f, b) && RowAt(At4(b, 12)) <= p < |b|
    requires forall i :: 0 <= i < At4(b, 12) ==> !InRow(b, i, p)
    ensures b[p] == 0
  {
    hide Head, EntryAt, At8, At4, At2, Fill, Disjoint, EntryOk;
    HeadAt(hash, f, b);
    var count := At4(b, 12);
    var spans := SpansOf(Entries(b, count));
    forall i | 0 <= i < count ensures !(spans[i].start <= p < spans[i].end) {
      EntryIs(b, i);
      assert spans[i] == SpanOf(EntryAt(b, i)) && !InRow(b, i, p);
    }
  }
}
