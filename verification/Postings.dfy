/** Variable-length numbers (unsigned LEB128) and the posting runs written in them. */
module Postings {
  import opened Ops

  function Pow128(k: nat): (p: nat)
    ensures p > 0
  {
    if k == 0 then 1 else 128 * Pow128(k - 1)
  }

  const BITS64: nat := 0x1_0000_0000_0000_0000

  lemma Powers128()
    ensures Pow128(1) == 0x80 && Pow128(5) == 0x8_0000_0000 && Pow128(9) == 0x8000_0000_0000_0000
  {
    assert Pow128(2) == 0x4000 && Pow128(3) == 0x20_0000 && Pow128(4) == 128 * Pow128(3) && Pow128(5) == 128 * Pow128(4);
    assert Pow128(6) == 128 * Pow128(5) && Pow128(7) == 128 * Pow128(6) && Pow128(8) == 128 * Pow128(7);
    assert Pow128(9) == 128 * Pow128(8);
  }

  // ---- varints -----------------------------------------------------------------------------------

  function PutVarint(v: nat): (b: seq<byte>)
    ensures |b| > 0
  {
    if v < 128 then [v] else [v % 128 + 128] + PutVarint(v / 128)
  }

  /** The loop that appends them. */
  method AppendVarint(out: seq<byte>, n: u64) returns (r: seq<byte>)
    ensures r == out + PutVarint(n)
  {
    r := out;
    var v: nat := n;
    while v >= 128
      invariant r + PutVarint(v) == out + PutVarint(n)
    {
      assert r + ([v % 128 + 128] + PutVarint(v / 128)) == r + [v % 128 + 128] + PutVarint(v / 128);
      r := r + [v % 128 + 128];
      v := v / 128;
    }
    r := r + [v];
  }

  /** What digit `k` adds to a 64-bit result: the tenth keeps only its low bit. */
  function Term(d: nat, k: nat): nat { if k < 9 then Scaled(d, k) else Scaled(d % 2, 9) }

  /** `w` at digit `k`. */
  function Scaled(w: nat, k: nat): nat { w * Pow128(k) }

  /** Value and length of the varint whose digit `k` is first in `b`. */
  function ReadVarint(b: seq<byte>, k: nat): (r: Option<(nat, nat)>)
    requires k <= 10
    ensures r.Some? ==> 0 < r.value.1 <= |b| && k + r.value.1 <= 10
    decreases 10 - k
  {
    if k == 10 || b == [] then None
    else if b[0] < 128 then Some((Term(b[0], k), 1))
    else
      var rest := ReadVarint(b[1..], k + 1);
      if rest.None? then None else Some((Term(b[0] - 128, k) + rest.value.0, 1 + rest.value.1))
  }

  lemma ReadStep(b: seq<byte>, k: nat)
    requires k < 10 && b != []
    ensures b[0] < 128 ==> ReadVarint(b, k) == Some((Term(b[0], k), 1))
    ensures b[0] >= 128 ==>
      var rest := ReadVarint(b[1..], k + 1);
      ReadVarint(b, k) == if rest.None? then None else Some((Term(b[0] - 128, k) + rest.value.0, 1 + rest.value.1))
  {
    hide Term;
  }

  lemma ScaledSplit(d: nat, q: nat, k: nat)
    ensures Scaled(d + 128 * q, k) == Scaled(d, k) + Scaled(q, k + 1)
  {
    var p := Pow128(k);
    assert (d + 128 * q) * p == d * p + 128 * q * p;
    assert 128 * q * p == q * (128 * p);
  }

  lemma {:induction false} Pow128Grows(j: nat, k: nat)
    requires j <= k
    ensures Pow128(j) <= Pow128(k)
  {
    if j < k { Pow128Grows(j, k - 1); }
  }

  /** A number short enough for what is left is read back, whatever follows. */
  lemma {:induction false} VarintReadsBack(w: nat, more: seq<byte>, k: nat)
    requires k <= 9 && Scaled(w, k) < BITS64
    ensures ReadVarint(PutVarint(w) + more, k) == Some((Scaled(w, k), |PutVarint(w)|))
    decreases w
  {
    hide ReadVarint, Scaled, PutVarint;
    PutStep(w);
    if k == 9 { TopDigit(w); }
    if w < 128 {
      ReadStep([w] + more, k);
    } else {
      var low, rest := w % 128, PutVarint(w / 128) + more;
      assert PutVarint(w) + more == [low + 128] + rest;
      assert ([low + 128] + rest)[1..] == rest;
      ReadStep([low + 128] + rest, k);
      assert w == low + 128 * (w / 128);
      ScaledSplit(low, w / 128, k);
      VarintReadsBack(w / 128, more, k + 1);
    }
  }

  lemma TopDigit(w: nat)
    requires Scaled(w, 9) < BITS64
    ensures w < 2
  {
    Powers128();
  }

  /** Every 64-bit number goes through unchanged, in at most ten bytes. */
  lemma VarintRoundTrip(v: u64, more: seq<byte>)
    ensures ReadVarint(PutVarint(v) + more, 0) == Some((v as nat, |PutVarint(v)|))
    ensures |PutVarint(v)| <= 10
  {
    assert Scaled(v, 0) == v;
    VarintReadsBack(v, more, 0);
  }

  // ---- which encodings are canonical ------------------------------------------------------------------

  /** The number the digits spell, with none cut off. */
  function Digits(b: seq<byte>): nat {
    if b == [] then 0 else b[0] % 128 + 128 * Digits(b[1..])
  }

  predicate Shape(b: seq<byte>) {
    b != [] && b[|b| - 1] < 128 && forall i :: 0 <= i < |b| - 1 ==> b[i] >= 128
  }

  lemma {:induction false} ReadShape(b: seq<byte>, k: nat)
    requires k <= 10 && ReadVarint(b, k).Some?
    ensures Shape(b[..ReadVarint(b, k).value.1])
    decreases 10 - k
  {
    if b[0] >= 128 {
      ReadShape(b[1..], k + 1);
      var n := ReadVarint(b[1..], k + 1).value.1;
      assert b[..1 + n] == [b[0]] + b[1..][..n];
    }
  }

  lemma OneDigit(d: byte)
    requires d < 128
    ensures Digits([d]) == d
  {
    assert [d][1..] == [];
    assert Digits([d]) == d + 128 * Digits([]);
  }

  lemma MoreDigits(d: byte, rest: seq<byte>)
    requires d >= 128
    ensures Digits([d] + rest) == d - 128 + 128 * Digits(rest)
  {
    assert ([d] + rest)[1..] == rest;
  }

  /** Digits spell the number read, unless a tenth one was cut. */
  lemma {:induction false} ReadIsDigits(b: seq<byte>, k: nat)
    requires k <= 9 && ReadVarint(b, k).Some?
    ensures var (v, n) := ReadVarint(b, k).value;
            k + n < 10 || b[n - 1] <= 1 ==> v == Scaled(Digits(b[..n]), k)
    decreases 10 - k
  {
    hide Digits, Scaled, ReadVarint;
    NonEmpty(b, k);
    if k == 9 { NoEleventh(b[1..]); }
    ReadStep(b, k);
    var n := ReadVarint(b, k).value.1;
    if b[0] < 128 {
      assert b[..1] == [b[0]];
      OneDigit(b[0]);
    } else if k < 9 {
      ReadIsDigits(b[1..], k + 1);
      var m := ReadVarint(b[1..], k + 1).value.1;
      assert b[..n] == [b[0]] + b[1..][..m];
      MoreDigits(b[0], b[1..][..m]);
      ScaledSplit(b[0] - 128, Digits(b[1..][..m]), k);
    }
  }

  lemma NonEmpty(b: seq<byte>, k: nat)
    requires k <= 10 && ReadVarint(b, k).Some?
    ensures b != [] && k < 10
  {
  }

  lemma NoEleventh(b: seq<byte>)
    ensures ReadVarint(b, 10) == None
  {
  }

  lemma {:induction false} DigitsNotZero(b: seq<byte>)
    requires b != [] && b[|b| - 1] % 128 != 0
    ensures Digits(b) >= 1
  {
    if |b| > 1 { DigitsNotZero(b[1..]); }
  }

  lemma Swap(x: nat, p: nat)
    ensures 128 * (x * p) == x * (128 * p)
  {
  }

  lemma {:induction false} LastDigitCounts(b: seq<byte>)
    requires b != []
    ensures Digits(b) >= (b[|b| - 1] % 128) * Pow128(|b| - 1)
  {
    if |b| > 1 {
      var rest := b[1..];
      LastDigitCounts(rest);
      Swap(b[|b| - 1] % 128, Pow128(|rest| - 1));
    }
  }

  /** Writing the number some digits spell gives the digits back unless they end in zero. */
  lemma {:induction false} PutOfDigits(b: seq<byte>)
    requires Shape(b)
    ensures PutVarint(Digits(b)) == b <==> |b| == 1 || b[|b| - 1] != 0
  {
    hide PutVarint, Digits;
    if |b| == 1 {
      OneDigit(b[0]);
      PutStep(b[0]);
      assert b == [b[0]];
    } else {
      var rest := b[1..];
      assert b == [b[0]] + rest;
      assert rest[|rest| - 1] == b[|b| - 1];
      PutOfDigits(rest);
      MoreDigits(b[0], rest);
      var v := Digits(b);
      assert v % 128 == b[0] - 128 && v / 128 == Digits(rest);
      if b[|b| - 1] != 0 { DigitsNotZero(rest); }
      if |rest| == 1 {
        assert rest == [rest[0]];
        OneDigit(rest[0]);
      }
      PutStep(v);
      if v >= 128 {
        assert PutVarint(v)[1..] == PutVarint(Digits(rest));
      }
    }
  }

  lemma PutStep(v: nat)
    ensures v >= 128 ==> PutVarint(v) == [v % 128 + 128] + PutVarint(v / 128)
    ensures v < 128 ==> PutVarint(v) == [v]
  {
  }

  lemma {:induction false} DigitsOfPut(v: nat)
    ensures Digits(PutVarint(v)) == v && Shape(PutVarint(v))
  {
    if v >= 128 {
      DigitsOfPut(v / 128);
      assert PutVarint(v)[1..] == PutVarint(v / 128);
    } else {
      assert PutVarint(v)[1..] == [];
    }
  }

  /** The reader also accepts longer spellings. Exactly the encoder's own are those that do
      not end in a zero digit and do not overflow in the tenth. */
  lemma CanonicalExactly(b: seq<byte>)
    requires ReadVarint(b, 0).Some?
    ensures var (v, n) := ReadVarint(b, 0).value;
            && v < BITS64
            && (PutVarint(v) == b[..n] <==> (n == 1 || b[n - 1] != 0) && (n == 10 ==> b[9] <= 1))
  {
    hide ReadVarint, Digits, PutVarint;
    Powers128();
    var (v, n) := ReadVarint(b, 0).value;
    ReadShape(b, 0);
    ReadIsDigits(b, 0);
    assert Scaled(Digits(b[..n]), 0) == Digits(b[..n]);
    ReadFits(b, 0);
    PutOfDigits(b[..n]);
    DigitsOfPut(v);
    LastDigitCounts(b[..n]);
    assert b[..n][n - 1] == b[n - 1];
    if n == 10 && b[9] > 1 { TenthTooLarge(b[9], Digits(b[..n])); }
  }

  lemma TenthTooLarge(d: byte, v: nat)
    requires 1 < d < 128 && v >= (d % 128) * Pow128(9)
    ensures v >= BITS64
  {
    Powers128();
  }

  lemma TermFits(d: nat, k: nat)
    requires d < 128 && k <= 9
    ensures k < 9 ==> Term(d, k) + Pow128(k) <= Pow128(k + 1)
    ensures k == 9 ==> Term(d, k) + Pow128(k) <= BITS64
  {
    Powers128();
    if k < 9 {
      assert (d + 1) * Pow128(k) <= 128 * Pow128(k);
      assert d * Pow128(k) + Pow128(k) == (d + 1) * Pow128(k);
    }
  }

  lemma {:induction false} ReadFits(b: seq<byte>, k: nat)
    requires k <= 9 && ReadVarint(b, k).Some?
    ensures ReadVarint(b, k).value.0 + Pow128(k) <= BITS64
    decreases 10 - k
  {
    hide Term, Pow128, ReadVarint;
    NonEmpty(b, k);
    if k == 9 { NoEleventh(b[1..]); }
    ReadStep(b, k);
    TermFits(b[0] % 128, k);
    if b[0] < 128 {
      Pow128Grows(k, 9);
      if k < 9 { Pow128Grows(k + 1, 9); }
      Powers128();
    } else if k < 9 {
      ReadFits(b[1..], k + 1);
    }
  }

  // ---- the reader -----------------------------------------------------------------------------------------

  /** A bounds-checked forward reader. */
  class Reader {
    const bytes: seq<byte>
    var pos: nat

    ghost predicate Valid()
      reads this
    {
      pos <= |bytes|
    }

    constructor (bytes: seq<byte>)
      ensures Valid() && this.bytes == bytes && pos == 0
    {
      this.bytes, pos := bytes, 0;
    }

    method U8() returns (r: Option<byte>)
      requires Valid()
      modifies this
      ensures Valid()
      ensures if old(pos) < |bytes| then r == Some(bytes[old(pos)]) && pos == old(pos) + 1 else r == None && pos == old(pos)
    {
      if pos >= |bytes| {
        return None;
      }
      pos := pos + 1;
      return Some(bytes[pos - 1]);
    }

    /** A varint, seven bits a byte; refused when the bytes run out or a tenth continues. */
    method Varint() returns (r: Option<u64>)
      requires Valid()
      modifies this
      ensures Valid() && pos >= old(pos)
      ensures var spec := ReadVarint(old(bytes[pos..]), 0);
              && r.Some? == spec.Some?
              && (spec.Some? ==> r.value as nat == spec.value.0 && pos == old(pos) + spec.value.1)
    {
      hide Term, Pow128, ReadVarint;
      ghost var start := pos;
      ghost var spec := ReadVarint(bytes[start..], 0);
      if spec.Some? { ReadFits(bytes[start..], 0); }
      var v: nat, k := 0, 0;
      while k < 10
        invariant Valid() && k <= 10 && pos == start + k
        invariant var rest := ReadVarint(bytes[pos..], k);
                  && rest.Some? == spec.Some?
                  && (spec.Some? ==> spec.value == (v + rest.value.0, k + rest.value.1))
      {
        ghost var here := bytes[pos..];
        var b := U8();
        if b.None? {
          NothingLeft(here, k);
          return None;
        }
        ReadStep(here, k);
        assert here[1..] == bytes[pos..];
        v := v + Term(b.value % 128, k);
        if b.value < 128 {
          return Some(v);
        }
        k := k + 1;
      }
      NoEleventh(bytes[pos..]);
      return None;
    }
  }

  lemma NothingLeft(b: seq<byte>, k: nat)
    requires k <= 10 && b == []
    ensures ReadVarint(b, k) == None
  {
  }

  // ---- postings -----------------------------------------------------------------------------------------------

  predicate Ascending(ids: seq<nat>) { forall i, j :: 0 <= i < j < |ids| ==> ids[i] < ids[j] }

  /** Ids above `floor - 1`, as gaps from what the one before leaves next. */
  function Encode(ids: seq<nat>, floor: nat): seq<byte>
    requires Ascending(ids) && (ids != [] ==> ids[0] >= floor)
  {
    if ids == [] then [] else PutVarint(ids[0] - floor) + Encode(ids[1..], ids[0] + 1)
  }

  /** The ids of a run of gaps; `None` for a bad varint or an id past 32 bits. */
  function Decode(b: seq<byte>, floor: nat): (ids: Option<seq<nat>>)
    decreases |b|
  {
    if b == [] then Some([])
    else
      var d := ReadVarint(b, 0);
      if d.None? || floor + d.value.0 >= 0x1_0000_0000 then None
      else
        var rest := Decode(b[d.value.1..], floor + d.value.0 + 1);
        if rest.None? then None else Some([floor + d.value.0] + rest.value)
  }

  /** Any ascending 32-bit ids come back. */
  lemma {:induction false} PostingsRoundTrip(ids: seq<nat>, floor: nat)
    requires Ascending(ids) && (ids != [] ==> ids[0] >= floor) && forall i :: 0 <= i < |ids| ==> ids[i] < 0x1_0000_0000
    ensures Decode(Encode(ids, floor), floor) == Some(ids)
    decreases |ids|
  {
    hide PutVarint, ReadVarint, Decode;
    if ids == [] {
      NoGaps(floor);
    } else {
      var rest := Encode(ids[1..], ids[0] + 1);
      PostingsRoundTrip(ids[1..], ids[0] + 1);
      OneGap(ids[0], floor, rest);
      assert ids == [ids[0]] + ids[1..];
    }
  }

  lemma NoGaps(floor: nat)
    ensures Encode([], floor) == [] && Decode([], floor) == Some([])
  {
  }

  lemma OneGap(id: nat, floor: nat, rest: seq<byte>)
    requires floor <= id < 0x1_0000_0000
    ensures var after := Decode(rest, id + 1);
            Decode(PutVarint(id - floor) + rest, floor) == if after.None? then None else Some([id] + after.value)
  {
    hide PutVarint, ReadVarint;
    VarintRoundTrip(id - floor, rest);
    assert (PutVarint(id - floor) + rest)[|PutVarint(id - floor)|..] == rest;
  }

  /** Whatever is accepted decodes to ascending 32-bit ids. */
  lemma {:induction false} DecodedAscend(b: seq<byte>, floor: nat)
    requires Decode(b, floor).Some?
    ensures var ids := Decode(b, floor).value;
            Ascending(ids) && forall i :: 0 <= i < |ids| ==> floor <= ids[i] < 0x1_0000_0000
    decreases |b|
  {
    hide ReadVarint;
    if b != [] {
      var d := ReadVarint(b, 0).value;
      DecodedAscend(b[d.1..], floor + d.0 + 1);
    }
  }

  lemma EncodeStep(ids: seq<nat>, i: nat, floor: nat, r: seq<byte>)
    requires Ascending(ids) && i < |ids| && floor <= ids[i]
    ensures Ascending(ids[i..]) && Ascending(ids[i + 1..])
    ensures r + Encode(ids[i..], floor) == (r + PutVarint(ids[i] - floor)) + Encode(ids[i + 1..], ids[i] + 1)
  {
    hide PutVarint;
    assert ids[i..][1..] == ids[i + 1..];
    var rest := Encode(ids[i + 1..], ids[i] + 1);
    assert r + (PutVarint(ids[i] - floor) + rest) == (r + PutVarint(ids[i] - floor)) + rest;
  }

  /** The loop that encodes a run. */
  method EncodePostings(ids: seq<u32>, out: seq<byte>) returns (r: seq<byte>)
    requires Ascending(ids)
    ensures r == out + Encode(ids, 0)
  {
    hide PutVarint, Encode;
    r := out;
    ghost var all: seq<nat> := ids;
    assert all[0..] == ids;
    var prev: Option<u32> := None;
    NoGaps(if all == [] then 0 else all[|all| - 1] + 1);
    for i := 0 to |ids|
      invariant prev == if i == 0 then None else Some(ids[i - 1])
      invariant Ascending(all[i..])
      invariant r + Encode(all[i..], if i == 0 then 0 else all[i - 1] + 1) == out + Encode(all, 0)
    {
      var delta: u64 := if prev.None? then ids[i] else ids[i] - prev.value - 1;
      EncodeStep(all, i, if i == 0 then 0 else all[i - 1] + 1, r);
      r := AppendVarint(r, delta);
      prev := Some(ids[i]);
    }
    assert all[|ids|..] == [];
  }

  function After(ids: seq<nat>, rest: Option<seq<nat>>): Option<seq<nat>> {
    if rest.None? then None else Some(ids + rest.value)
  }

  lemma NothingBefore(rest: Option<seq<nat>>)
    ensures After([], rest) == rest
  {
    if rest.Some? { assert [] + rest.value == rest.value; }
  }

  lemma Prepended(a: seq<nat>, id: nat, rest: seq<nat>)
    ensures a + ([id] + rest) == (a + [id]) + rest
  {
  }

  /** The loop that decodes one. */
  method DecodePostings(bytes: seq<byte>) returns (r: Option<seq<nat>>)
    ensures r == Decode(bytes, 0)
  {
    hide ReadVarint;
    var reader := new Reader(bytes);
    var out: seq<nat> := [];
    var floor: nat := 0;
    assert bytes[0..] == bytes;
    NothingBefore(Decode(bytes, 0));
    while reader.pos < |bytes|
      invariant reader.Valid() && reader.bytes == bytes
      invariant out == [] ==> floor == 0
      invariant var rest := Decode(bytes[reader.pos..], floor);
                Decode(bytes, 0) == After(out, rest)
      decreases |bytes| - reader.pos
    {
      ghost var here := bytes[reader.pos..];
      var delta := reader.Varint();
      if delta.None? {
        return None;
      }
      var id := floor + delta.value;
      if id >= 0x1_0000_0000 {
        return None;
      }
      ghost var n := ReadVarint(here, 0).value.1;
      assert here[n..] == bytes[reader.pos..];
      ghost var rest := Decode(bytes[reader.pos..], id + 1);
      if rest.Some? { Prepended(out, id, rest.value); }
      out := out + [id];
      floor := id + 1;
    }
    assert out + [] == out;
    return Some(out);
  }
}
