/** Scanning a log image: the longest run of whole records with rising sequence numbers.
    Cutting an image anywhere keeps exactly its whole records, and scanning composes. */
module WalScan {
  import opened Ops
  import opened ByteCodec
  import opened History
  import opened WalRecord

  type Hash = seq<byte> -> u64
  type Utf8 = text -> bool

  /** A run of sealed records, as the log holds it. */
  function Image(hash: Hash, recs: seq<Record>): seq<byte> {
    if recs == [] then [] else Sealed(hash, recs[0]) + Image(hash, recs[1..])
  }

  /** `last` is the last sequence number seen: 0, which no record has, for none. */
  datatype Scan = Scan(recs: seq<Record>, end: nat, last: nat, corrupt: bool)

  function ScanOf(hash: Hash, utf8: Utf8, b: seq<byte>, after: nat): Scan
    decreases |b|
  {
    match ReadRecord(hash, utf8, b)
    case Torn => Scan([], 0, after, false)
    case Corrupt => Scan([], 0, after, true)
    case Whole(r) =>
      WholeFits(hash, utf8, b);
      if r.first <= after then Scan([], 0, after, true)
      else
        var rest := ScanOf(hash, utf8, b[SizeOf(r)..], r.first + |r.ops| - 1);
        Scan([r] + rest.recs, SizeOf(r) + rest.end, rest.last, rest.corrupt)
  }

  lemma WholeFits(hash: Hash, utf8: Utf8, b: seq<byte>)
    requires ReadRecord(hash, utf8, b).Whole?
    ensures var r := ReadRecord(hash, utf8, b).rec;
            48 <= SizeOf(r) <= |b| && r.first >= 1 && |r.ops| >= 1 && b[..SizeOf(r)] == Sealed(hash, r)
  {
    hide ReadRecord, Sealed, AllLegal;
    var r := ReadRecord(hash, utf8, b).rec;
    RecordIsCanonical(hash, utf8, b);
    SealedSize(hash, r);
    HeadFits(utf8, r);
  }

  /** Legal records, their numbers rising from above `after`. */
  ghost predicate LegalRun(utf8: Utf8, recs: seq<Record>, after: nat) {
    recs == [] || (LegalRecord(utf8, recs[0]) && recs[0].first > after
                   && LegalRun(utf8, recs[1..], recs[0].first + |recs[0].ops| - 1))
  }

  function LastAfter(recs: seq<Record>, after: nat): nat {
    if recs == [] then after
    else LastAfter(recs[1..], if recs[0].first + |recs[0].ops| > 0 then recs[0].first + |recs[0].ops| - 1 else 0)
  }

  lemma {:induction false} ImageSize(hash: Hash, recs: seq<Record>)
    ensures |Image(hash, recs)| == Bytes(recs)
  {
    hide Sealed, SizeOf;
    if recs != [] {
      SealedSize(hash, recs[0]);
      ImageSize(hash, recs[1..]);
    }
  }

  // ---- what a scan finds -----------------------------------------------------------------------

  lemma ScanStep(hash: Hash, utf8: Utf8, r: Record, more: seq<byte>, after: nat)
    requires LegalRecord(utf8, r) && r.first > after
    ensures |Sealed(hash, r)| == SizeOf(r)
    ensures var rest := ScanOf(hash, utf8, more, r.first + |r.ops| - 1);
            ScanOf(hash, utf8, Sealed(hash, r) + more, after)
            == Scan([r] + rest.recs, SizeOf(r) + rest.end, rest.last, rest.corrupt)
  {
    hide ReadRecord, Sealed, AllLegal;
    RecordReadsBack(hash, utf8, r, more);
    SealedSize(hash, r);
    assert (Sealed(hash, r) + more)[SizeOf(r)..] == more;
  }

  lemma ScanTorn(hash: Hash, utf8: Utf8, b: seq<byte>, after: nat)
    requires ReadRecord(hash, utf8, b).Torn?
    ensures ScanOf(hash, utf8, b, after) == Scan([], 0, after, false)
  {
  }

  /** A run of sealed records, then anything: those records, then what the rest gives. */
  lemma {:induction false} ScanRunThen(hash: Hash, utf8: Utf8, recs: seq<Record>, b: seq<byte>, after: nat)
    requires LegalRun(utf8, recs, after)
    ensures var t := ScanOf(hash, utf8, b, LastAfter(recs, after));
            ScanOf(hash, utf8, Image(hash, recs) + b, after) == Scan(recs + t.recs, Bytes(recs) + t.end, t.last, t.corrupt)
    decreases |recs|
  {
    hide ReadRecord, Sealed, LegalRecord, ScanOf, SizeOf;
    var t := ScanOf(hash, utf8, b, LastAfter(recs, after));
    if recs == [] {
      assert Image(hash, recs) + b == b && recs + t.recs == t.recs;
    } else {
      var r, more := recs[0], Image(hash, recs[1..]) + b;
      RunHead(utf8, recs, after);
      ScanRunThen(hash, utf8, recs[1..], b, r.first + |r.ops| - 1);
      ScanStep(hash, utf8, r, more, after);
      assert Image(hash, recs) + b == Sealed(hash, r) + more;
      assert recs + t.recs == [r] + (recs[1..] + t.recs);
    }
  }

  /** A run of sealed records, then something torn: exactly those records. */
  lemma ScanFindsRun(hash: Hash, utf8: Utf8, recs: seq<Record>, tail: seq<byte>, after: nat)
    requires LegalRun(utf8, recs, after) && ReadRecord(hash, utf8, tail).Torn?
    ensures ScanOf(hash, utf8, Image(hash, recs) + tail, after) == Scan(recs, Bytes(recs), LastAfter(recs, after), false)
  {
    hide ReadRecord, LegalRun;
    ScanTorn(hash, utf8, tail, LastAfter(recs, after));
    ScanRunThen(hash, utf8, recs, tail, after);
    assert recs + [] == recs;
  }

  lemma RunHead(utf8: Utf8, recs: seq<Record>, after: nat)
    requires LegalRun(utf8, recs, after) && recs != []
    ensures LegalRecord(utf8, recs[0]) && recs[0].ops != [] && recs[0].first > after
    ensures LegalRun(utf8, recs[1..], recs[0].first + |recs[0].ops| - 1)
  {
    hide AllLegal, SizeOf;
  }

  lemma NothingIsTorn(hash: Hash, utf8: Utf8)
    ensures ReadRecord(hash, utf8, []).Torn?
  {
  }

  lemma ImageStep(hash: Hash, r: Record, rest: seq<Record>)
    ensures Image(hash, [r] + rest) == Sealed(hash, r) + Image(hash, rest) && |Sealed(hash, r)| == SizeOf(r)
    ensures Bytes([r] + rest) == SizeOf(r) + Bytes(rest)
  {
    hide Sealed, SizeOf;
    SealedSize(hash, r);
    assert ([r] + rest)[1..] == rest;
  }

  lemma RunStep(utf8: Utf8, r: Record, rest: seq<Record>, after: nat)
    requires LegalRecord(utf8, r) && r.first > after && LegalRun(utf8, rest, r.first + |r.ops| - 1)
    ensures LegalRun(utf8, [r] + rest, after)
    ensures LastAfter([r] + rest, after) == LastAfter(rest, r.first + |r.ops| - 1)
  {
    hide AllLegal, SizeOf;
    assert ([r] + rest)[1..] == rest;
  }

  lemma ScanWhole(hash: Hash, utf8: Utf8, b: seq<byte>, after: nat)
    requires ReadRecord(hash, utf8, b).Whole? && ReadRecord(hash, utf8, b).rec.first > after
    ensures var r := ReadRecord(hash, utf8, b).rec;
            && LegalRecord(utf8, r) && 48 <= SizeOf(r) <= |b| && b[..SizeOf(r)] == Sealed(hash, r) && r.ops != []
            && var rest := ScanOf(hash, utf8, b[SizeOf(r)..], r.first + |r.ops| - 1);
               ScanOf(hash, utf8, b, after) == Scan([r] + rest.recs, SizeOf(r) + rest.end, rest.last, rest.corrupt)
  {
    hide ReadRecord, Sealed, AllLegal;
    WholeFits(hash, utf8, b);
    RecordIsCanonical(hash, utf8, b);
  }

  lemma ScanStops(hash: Hash, utf8: Utf8, b: seq<byte>, after: nat)
    requires !(ReadRecord(hash, utf8, b).Whole? && ReadRecord(hash, utf8, b).rec.first > after)
    ensures ScanOf(hash, utf8, b, after) == Scan([], 0, after, !ReadRecord(hash, utf8, b).Torn?)
    ensures LegalRun(utf8, [], after) && Image(hash, []) == [] && Bytes([]) == 0 && LastAfter([], after) == after
  {
    hide ReadRecord;
  }

  /** Everything a scan accepts is a run of sealed records at the start of the image, and
      unless it met corruption nothing whole follows. */
  lemma {:induction false} ScanIsRun(hash: Hash, utf8: Utf8, b: seq<byte>, after: nat)
    ensures var s := ScanOf(hash, utf8, b, after);
            && LegalRun(utf8, s.recs, after) && s.end == Bytes(s.recs) <= |b| && b[..s.end] == Image(hash, s.recs)
            && s.last == LastAfter(s.recs, after)
            && (!s.corrupt ==> ReadRecord(hash, utf8, b[s.end..]).Torn?)
    decreases |b|
  {
    hide ReadRecord, Sealed, SizeOf, LegalRecord, ScanOf, LegalRun, LastAfter, Image, Bytes;
    var next := ReadRecord(hash, utf8, b);
    if next.Whole? && next.rec.first > after {
      var r := next.rec;
      ScanWhole(hash, utf8, b, after);
      var rest := b[SizeOf(r)..];
      ScanIsRun(hash, utf8, rest, r.first + |r.ops| - 1);
      var t := ScanOf(hash, utf8, rest, r.first + |r.ops| - 1);
      RunStep(utf8, r, t.recs, after);
      ImageStep(hash, r, t.recs);
      assert b[..SizeOf(r) + t.end] == b[..SizeOf(r)] + rest[..t.end];
      assert b[SizeOf(r) + t.end..] == rest[t.end..];
    } else {
      ScanStops(hash, utf8, b, after);
      assert b[0..] == b;
    }
  }

  // ---- crashes: cutting an image at any byte ------------------------------------------------------

  lemma CutStep(recs: seq<Record>, k: nat)
    requires recs != []
    ensures CutAt(recs, k) == if k < SizeOf(recs[0]) then [] else [recs[0]] + CutAt(recs[1..], k - SizeOf(recs[0]))
    ensures recs == [recs[0]] + recs[1..]
  {
  }

  /** What is left of a cut image: its whole records, then a strict prefix of the next. */
  lemma {:induction false} CutImage(hash: Hash, recs: seq<Record>, k: nat) returns (torn: seq<byte>)
    requires k <= Bytes(recs)
    ensures k <= |Image(hash, recs)| && Image(hash, recs)[..k] == Image(hash, CutAt(recs, k)) + torn
    ensures var c := |CutAt(recs, k)|;
            if c == |recs| then torn == []
            else |torn| < SizeOf(recs[c]) && |Sealed(hash, recs[c])| == SizeOf(recs[c]) && torn == Sealed(hash, recs[c])[..|torn|]
    decreases |recs|
  {
    hide Sealed, SizeOf, Image, CutAt, Bytes;
    ImageSize(hash, recs);
    if recs == [] {
      torn := [];
      NoImage(hash, k);
    } else {
      CutStep(recs, k);
      ImageStep(hash, recs[0], recs[1..]);
      var size, rest := SizeOf(recs[0]), recs[1..];
      if k < size {
        torn := Image(hash, recs)[..k];
        NoImage(hash, 0);
      } else {
        torn := CutImage(hash, rest, k - size);
        ImageStep(hash, recs[0], CutAt(rest, k - size));
        assert Image(hash, recs)[..k] == Sealed(hash, recs[0]) + Image(hash, rest)[..k - size];
      }
    }
  }

  lemma NoImage(hash: Hash, k: nat)
    ensures Image(hash, []) == [] && CutAt([], k) == [] && Bytes([]) == 0
  {
  }

  lemma {:induction false} CutIsRun(utf8: Utf8, recs: seq<Record>, k: nat, after: nat)
    requires LegalRun(utf8, recs, after)
    ensures LegalRun(utf8, CutAt(recs, k), after)
    ensures forall i :: 0 <= i < |recs| ==> LegalRecord(utf8, recs[i])
    decreases |recs|
  {
    hide LegalRecord, SizeOf;
    if recs != [] {
      RunHead(utf8, recs, after);
      CutIsRun(utf8, recs[1..], if k >= SizeOf(recs[0]) then k - SizeOf(recs[0]) else 0, recs[0].first + |recs[0].ops| - 1);
      if k >= SizeOf(recs[0]) {
        var kept := CutAt(recs[1..], k - SizeOf(recs[0]));
        assert ([recs[0]] + kept)[1..] == kept;
      }
      forall i | 0 <= i < |recs| ensures LegalRecord(utf8, recs[i]) {
        if i > 0 { assert recs[1..][i - 1] == recs[i]; }
      }
    }
  }

  /** A log of sealed, rising records cut at any byte at all: a scan keeps exactly the whole
      records before the cut, and reports no corruption. */
  lemma CutKeepsWholeRecords(hash: Hash, utf8: Utf8, recs: seq<Record>, k: nat, after: nat)
    requires LegalRun(utf8, recs, after) && k <= Bytes(recs)
    ensures k <= |Image(hash, recs)|
    ensures var kept := CutAt(recs, k);
            ScanOf(hash, utf8, Image(hash, recs)[..k], after) == Scan(kept, Bytes(kept), LastAfter(kept, after), false)
  {
    hide ReadRecord, Sealed, LegalRecord, ScanOf, SizeOf, LegalRun;
    var torn := CutImage(hash, recs, k);
    CutIsRun(utf8, recs, k, after);
    var c := |CutAt(recs, k)|;
    if c == |recs| {
      NothingIsTorn(hash, utf8);
    } else {
      PrefixIsTorn(hash, utf8, recs[c], |torn|);
    }
    ScanFindsRun(hash, utf8, CutAt(recs, k), torn, after);
  }

  // ---- composition -------------------------------------------------------------------------------------

  /** Scanning what was consumed, then what came after, is scanning the whole. */
  lemma ScanComposes(hash: Hash, utf8: Utf8, a: seq<byte>, b: seq<byte>, after: nat)
    requires ScanOf(hash, utf8, a, after).end == |a|
    ensures var s := ScanOf(hash, utf8, a, after);
            var t := ScanOf(hash, utf8, b, s.last);
            ScanOf(hash, utf8, a + b, after) == Scan(s.recs + t.recs, s.end + t.end, t.last, t.corrupt)
  {
    hide ScanOf, LegalRun;
    var s := ScanOf(hash, utf8, a, after);
    ScanIsRun(hash, utf8, a, after);
    assert a[..|a|] == a;
    ScanRunThen(hash, utf8, s.recs, b, after);
  }

  /** A tail read on its own, with no memory of the numbers before it, is the tail of the
      whole exactly when its first record, if it has one, carries on above them. */
  lemma TailAlone(hash: Hash, utf8: Utf8, b: seq<byte>, last: nat)
    requires last > 0
    ensures var alone := ScanOf(hash, utf8, b, 0);
            var after := ScanOf(hash, utf8, b, last);
            && (alone.recs != [] ==> ((alone.recs == after.recs && alone.end == after.end) <==> alone.recs[0].first > last))
            && (alone.recs == [] || alone.recs[0].first > last ==> after == alone.(last := after.last) && (after.last == alone.last || after.recs == []))
            && (alone.recs != [] && alone.recs[0].first <= last ==> after == Scan([], 0, last, true))
  {
    hide ReadRecord;
    if ReadRecord(hash, utf8, b).Whole? { WholeFits(hash, utf8, b); }
  }

  // ---- the log header -------------------------------------------------------------------------------------

  /** magic, version, zero, width, zero, base generation, creation time; zeros and the checksum follow */
  const HEADER_FIELDS: Layout := W(4, W(2, W(2, W(4, W(4, W(8, W(8, End)))))))
  const MAGIC := 0x5750_5247
  const VERSION := 3

  lemma HeaderWidthsAre()
    ensures Total(HEADER_FIELDS) == 32 && Len(HEADER_FIELDS) == 7
    ensures Width(HEADER_FIELDS, 0) == 4 && Width(HEADER_FIELDS, 1) == 2 && Width(HEADER_FIELDS, 2) == 2
    ensures Width(HEADER_FIELDS, 3) == 4 && Width(HEADER_FIELDS, 4) == 4 && Width(HEADER_FIELDS, 5) == 8
    ensures Width(HEADER_FIELDS, 6) == 8
  {
  }

  function HeaderBody(gen: u64, created: u64): (b: seq<byte>)
    ensures |b| == 56
  {
    HeaderWidthsAre();
    Pack(HEADER_FIELDS, [MAGIC, VERSION, 0, 64, 0, gen as nat, created as nat]) + LE(0, 24)
  }

  function EncodeHeader(hash: Hash, gen: u64, created: u64): (b: seq<byte>)
    ensures |b| == LOG_HEADER_LEN
  {
    HeaderBody(gen, created) + LE(hash(HeaderBody(gen, created)), 8)
  }

  /** The base generation a log extends, if its header is whole. */
  function ParseHeader(hash: Hash, b: seq<byte>): (gen: Option<nat>)
    ensures gen.Some? ==> |b| >= LOG_HEADER_LEN
  {
    HeaderWidthsAre();
    if |b| < LOG_HEADER_LEN then None
    else
      var v := Fields(HEADER_FIELDS, b[..32]);
      if v[0] != MAGIC || v[1] != VERSION || hash(b[..56]) != Num(b[56..64]) then None else Some(v[5])
  }

  lemma HeaderReadsBack(hash: Hash, gen: u64, created: u64, more: seq<byte>)
    ensures ParseHeader(hash, EncodeHeader(hash, gen, created) + more) == Some(gen as nat)
  {
    hide Pack, Fields, Fitting, LE;
    HeaderWidthsAre();
    Powers();
    var b, v := EncodeHeader(hash, gen, created) + more, [MAGIC, VERSION, 0, 64, 0, gen as nat, created as nat];
    FitsBounds(HEADER_FIELDS, v);
    assert b[..32] == Pack(HEADER_FIELDS, v) && b[..56] == HeaderBody(gen, created);
    assert b[56..64] == LE(hash(HeaderBody(gen, created)), 8);
    FieldsOfPack(HEADER_FIELDS, v, b[..32]);
    NumOfLE(hash(HeaderBody(gen, created)), 8);
  }

  // ---- replay and the committed prefix ----------------------------------------------------------------------

  datatype Replayed = Replayed(gen: nat, goodLen: nat, recs: seq<Record>)

  /** A replay: the header, then every whole record; `None` for a bad header or corruption. */
  function Replay(hash: Hash, utf8: Utf8, image: seq<byte>): Option<Replayed> {
    var gen := ParseHeader(hash, image);
    if gen.None? then None
    else
      var s := ScanOf(hash, utf8, image[LOG_HEADER_LEN..], 0);
      if s.corrupt then None else Some(Replayed(gen.value, LOG_HEADER_LEN + s.end, s.recs))
  }

  /** The length that is safe to copy elsewhere. */
  function CommittedLen(hash: Hash, utf8: Utf8, image: seq<byte>): nat {
    if ParseHeader(hash, image).None? then 0
    else LOG_HEADER_LEN + ScanOf(hash, utf8, image[LOG_HEADER_LEN..], 0).end
  }

  lemma HeaderOfPrefix(hash: Hash, image: seq<byte>, n: nat)
    requires LOG_HEADER_LEN <= n <= |image|
    ensures ParseHeader(hash, image[..n]) == ParseHeader(hash, image)
  {
    hide Fields;
    HeaderWidthsAre();
    assert image[..n][..32] == image[..32] && image[..n][..56] == image[..56] && image[..n][56..64] == image[56..64];
  }

  /** The committed prefix of any image with a good header replays cleanly, to exactly the
      records before the first tear or corruption; it is its own committed prefix; and when
      the image itself replays, it is the length the replay reports. */
  lemma CommittedPrefix(hash: Hash, utf8: Utf8, image: seq<byte>)
    requires ParseHeader(hash, image).Some?
    ensures var n := CommittedLen(hash, utf8, image);
            && LOG_HEADER_LEN <= n <= |image|
            && Replay(hash, utf8, image[..n])
               == Some(Replayed(ParseHeader(hash, image).value, n, ScanOf(hash, utf8, image[LOG_HEADER_LEN..], 0).recs))
            && CommittedLen(hash, utf8, image[..n]) == n
            && (Replay(hash, utf8, image).Some? ==> Replay(hash, utf8, image).value.goodLen == n)
  {
    hide ParseHeader, ScanOf, ReadRecord, LegalRun, Bytes, Image, LastAfter;
    var frames := image[LOG_HEADER_LEN..];
    var s := ScanOf(hash, utf8, frames, 0);
    ScanIsRun(hash, utf8, frames, 0);
    var n := LOG_HEADER_LEN + s.end;
    HeaderOfPrefix(hash, image, n);
    NothingIsTorn(hash, utf8);
    ScanFindsRun(hash, utf8, s.recs, [], 0);
    assert image[..n][LOG_HEADER_LEN..] == Image(hash, s.recs) + [];
  }

  // ---- the log file of the protocol, in bytes ----------------------------------------------------------------

  lemma ReplayFrames(hash: Hash, utf8: Utf8, gen: u64, created: u64, frames: seq<byte>)
    ensures var s := ScanOf(hash, utf8, frames, 0);
            Replay(hash, utf8, EncodeHeader(hash, gen, created) + frames)
            == if s.corrupt then None else Some(Replayed(gen, LOG_HEADER_LEN + s.end, s.recs))
  {
    hide ParseHeader, ScanOf, EncodeHeader;
    HeaderReadsBack(hash, gen, created, frames);
    assert (EncodeHeader(hash, gen, created) + frames)[LOG_HEADER_LEN..] == frames;
  }

  /** An image holding a header, sealed records and a torn tail is read as the protocol has
      it: replay finds the records and stops before the tear. */
  lemma LogReplays(hash: Hash, utf8: Utf8, gen: u64, created: u64, recs: seq<Record>, torn: seq<byte>)
    requires LegalRun(utf8, recs, 0) && ReadRecord(hash, utf8, torn).Torn?
    ensures Replay(hash, utf8, EncodeHeader(hash, gen, created) + Image(hash, recs) + torn)
         == Some(Replayed(gen, LOG_HEADER_LEN + Bytes(recs), recs))
  {
    hide *;
    var head, frames := EncodeHeader(hash, gen, created), Image(hash, recs) + torn;
    assert head + Image(hash, recs) + torn == head + frames;
    ReplayFrames(hash, utf8, gen, created, frames);
    ScanFindsRun(hash, utf8, recs, torn, 0);
  }

  /** What the protocol calls `torn`: any number of bytes of the next record, short of all of
      them. Replay stops before them; no property of the checksum is needed. */
  lemma TornAppendIsInvisible(hash: Hash, utf8: Utf8, gen: u64, created: u64, recs: seq<Record>, next: Record, k: nat)
    requires LegalRun(utf8, recs, 0) && LegalRecord(utf8, next) && k < SizeOf(next)
    ensures k <= |Sealed(hash, next)|
    ensures Replay(hash, utf8, EncodeHeader(hash, gen, created) + Image(hash, recs) + Sealed(hash, next)[..k])
         == Some(Replayed(gen, LOG_HEADER_LEN + Bytes(recs), recs))
  {
    hide *;
    PrefixIsTorn(hash, utf8, next, k);
    LogReplays(hash, utf8, gen, created, recs, Sealed(hash, next)[..k]);
  }

  lemma {:induction false} RunDrop(utf8: Utf8, recs: seq<Record>, after: nat, c: nat)
    requires LegalRun(utf8, recs, after) && c <= |recs|
    ensures LegalRun(utf8, recs[c..], 0)
    decreases |recs|
  {
    hide LegalRecord, LegalRun;
    if c == 0 {
      assert recs[0..] == recs;
      RunFromLower(utf8, recs, after);
    } else {
      RunHead(utf8, recs, after);
      RunDrop(utf8, recs[1..], recs[0].first + |recs[0].ops| - 1, c - 1);
      assert recs[1..][c - 1..] == recs[c..];
    }
  }

  lemma RunFromLower(utf8: Utf8, recs: seq<Record>, after: nat)
    requires LegalRun(utf8, recs, after)
    ensures LegalRun(utf8, recs, 0)
  {
    hide LegalRecord;
  }

  lemma {:induction false} ImageDrop(hash: Hash, recs: seq<Record>, c: nat)
    requires c <= |recs|
    ensures |Image(hash, recs[..c])| == Bytes(recs[..c]) <= |Image(hash, recs)|
    ensures Image(hash, recs)[Bytes(recs[..c])..] == Image(hash, recs[c..])
  {
    hide Sealed, SizeOf;
    ImageSize(hash, recs);
    ImageSize(hash, recs[..c]);
    if c == 0 {
      assert recs[0..] == recs && recs[..0] == [];
    } else {
      ImageDrop(hash, recs[1..], c - 1);
      ImageStep(hash, recs[0], recs[1..]);
      assert recs == [recs[0]] + recs[1..];
      assert recs[..c] == [recs[0]] + recs[1..][..c - 1];
      ImageStep(hash, recs[0], recs[1..][..c - 1]);
      assert recs[1..][c - 1..] == recs[c..];
    }
  }

  /** A catch-up that reads the frames from a record boundary finds exactly the records the
      protocol gives it, and where it stops is a record boundary again. */
  lemma TailReadsRecordsFrom(hash: Hash, utf8: Utf8, recs: seq<Record>, torn: seq<byte>, c: nat)
    requires LegalRun(utf8, recs, 0) && ReadRecord(hash, utf8, torn).Torn? && c <= |recs|
    ensures var frames, at := Image(hash, recs) + torn, Bytes(recs[..c]);
            && at <= |frames|
            && var s := ScanOf(hash, utf8, frames[at..], 0);
               && s.recs == RecordsFrom(recs, at) && !s.corrupt
               && at + s.end == Bytes(recs)
  {
    hide ScanOf, ReadRecord, LegalRun, RecordsFrom, Image;
    ImageDrop(hash, recs, c);
    RunDrop(utf8, recs, 0, c);
    FromBoundary(recs, c);
    var frames, at := Image(hash, recs) + torn, Bytes(recs[..c]);
    assert frames[at..] == Image(hash, recs)[at..] + torn;
    ScanFindsRun(hash, utf8, recs[c..], torn, 0);
    BytesPrefix(recs, c);
  }

  /** Truncating the file at any length at or past its header is the protocol's cut. */
  lemma TruncationIsCut(hash: Hash, utf8: Utf8, gen: u64, created: u64, recs: seq<Record>, k: nat)
    requires LegalRun(utf8, recs, 0) && k <= Bytes(recs)
    ensures var image := EncodeHeader(hash, gen, created) + Image(hash, recs);
            && LOG_HEADER_LEN + k <= |image|
            && Replay(hash, utf8, image[..LOG_HEADER_LEN + k])
               == Some(Replayed(gen, LOG_HEADER_LEN + Bytes(CutAt(recs, k)), CutAt(recs, k)))
  {
    hide *;
    CutKeepsWholeRecords(hash, utf8, recs, k, 0);
    var head := EncodeHeader(hash, gen, created);
    ReplayFrames(hash, utf8, gen, created, Image(hash, recs)[..k]);
    assert (head + Image(hash, recs))[..LOG_HEADER_LEN + k] == head + Image(hash, recs)[..k];
  }

  /** A legal run is what the protocol asks of a log: legal records whose numbers rise. */
  lemma {:induction false} RunIsRising(utf8: Utf8, recs: seq<Record>, after: nat)
    requires forall i :: 0 <= i < |recs| ==> LegalRecord(utf8, recs[i])
    ensures LegalRun(utf8, recs, after) <==> Rising(recs) && (recs != [] ==> recs[0].first > after)
    decreases |recs|
  {
    hide AllLegal, SizeOf;
    if recs != [] {
      var rest := recs[1..];
      RunIsRising(utf8, rest, recs[0].first + |recs[0].ops| - 1);
      if Rising(rest) && (rest != [] ==> rest[0].first > LastOf(recs[0])) {
        forall i | 0 < i < |recs| ensures recs[i].first > LastOf(recs[i - 1]) {
          if i > 1 { assert rest[i - 1].first > LastOf(rest[i - 2]); }
        }
      }
      if Rising(recs) {
        forall i | 0 < i < |rest| ensures rest[i].first > LastOf(rest[i - 1]) {
          assert recs[i + 1].first > LastOf(recs[i]);
        }
      }
    }
  }
}
