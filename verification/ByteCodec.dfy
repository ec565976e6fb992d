/** Little-endian fields, fixed layouts of them, and runs of texts laid end to end: what
    every format here is made of. Each has a reader and a writer, inverse to each other. */
module ByteCodec {
  import opened Ops

  // ---- one field --------------------------------------------------------------------------

  function Pow256(w: nat): (p: nat)
    ensures p > 0
  {
    if w == 0 then 1 else 256 * Pow256(w - 1)
  }

  /** The `w` low bytes of `n`, least significant first. */
  function LE(n: nat, w: nat): (b: seq<byte>)
    ensures |b| == w
  {
    if w == 0 then [] else [n % 256] + LE(n / 256, w - 1)
  }

  /** The number a run of bytes holds. */
  function Num(b: seq<byte>): nat {
    if b == [] then 0 else b[0] + 256 * Num(b[1..])
  }

  lemma {:induction false} NumBound(b: seq<byte>)
    ensures Num(b) < Pow256(|b|)
  {
    if b != [] { NumBound(b[1..]); }
  }

  lemma {:induction false} NumOfLE(n: nat, w: nat)
    requires n < Pow256(w)
    ensures Num(LE(n, w)) == n
  {
    if w > 0 {
      NumOfLE(n / 256, w - 1);
      assert LE(n, w)[1..] == LE(n / 256, w - 1);
    }
  }

  lemma {:induction false} LEOfNum(b: seq<byte>)
    ensures LE(Num(b), |b|) == b
  {
    if b != [] {
      LEOfNum(b[1..]);
      assert Num(b) % 256 == b[0] && Num(b) / 256 == Num(b[1..]);
      assert b == [b[0]] + b[1..];
    }
  }

  // ---- a fixed layout of fields --------------------------------------------------------------

  /** The widths of a record's fields, in order. */
  datatype Layout = End | W(w: nat, rest: Layout)

  function Total(ws: Layout): nat { if ws.End? then 0 else ws.w + Total(ws.rest) }

  function Len(ws: Layout): nat { if ws.End? then 0 else 1 + Len(ws.rest) }

  /** One value a field, each within its width. */
  predicate Fitting(ws: Layout, vs: seq<nat>) {
    if ws.End? then vs == []
    else vs != [] && vs[0] < Pow256(ws.w) && Fitting(ws.rest, vs[1..])
  }

  function Pack(ws: Layout, vs: seq<nat>): (b: seq<byte>)
    requires |vs| == Len(ws)
    ensures |b| == Total(ws)
  {
    if ws.End? then [] else LE(vs[0], ws.w) + Pack(ws.rest, vs[1..])
  }

  function Unpack(ws: Layout, b: seq<byte>): (vs: seq<nat>)
    requires |b| == Total(ws)
    ensures |vs| == Len(ws)
  {
    if ws.End? then [] else [Num(b[..ws.w])] + Unpack(ws.rest, b[ws.w..])
  }

  lemma {:induction false} UnpackPack(ws: Layout, vs: seq<nat>)
    requires Fitting(ws, vs)
    ensures |vs| == Len(ws) && Unpack(ws, Pack(ws, vs)) == vs
  {
    if ws.W? {
      UnpackPack(ws.rest, vs[1..]);
      NumOfLE(vs[0], ws.w);
      var b := Pack(ws, vs);
      assert b[..ws.w] == LE(vs[0], ws.w) && b[ws.w..] == Pack(ws.rest, vs[1..]);
    }
  }

  lemma {:induction false} PackUnpack(ws: Layout, b: seq<byte>)
    requires |b| == Total(ws)
    ensures Pack(ws, Unpack(ws, b)) == b && Fitting(ws, Unpack(ws, b))
  {
    if ws.W? {
      PackUnpack(ws.rest, b[ws.w..]);
      LEOfNum(b[..ws.w]);
      NumBound(b[..ws.w]);
      var vs := Unpack(ws, b);
      assert vs[1..] == Unpack(ws.rest, b[ws.w..]);
      assert b == b[..ws.w] + b[ws.w..];
    }
  }

  /** Where field `i` starts, and how wide it is. */
  function Offset(ws: Layout, i: nat): nat
    requires i < Len(ws)
  {
    if i == 0 then 0 else ws.w + Offset(ws.rest, i - 1)
  }

  function Width(ws: Layout, i: nat): nat
    requires i < Len(ws)
  {
    if i == 0 then ws.w else Width(ws.rest, i - 1)
  }

  /** A field is read at the offset the widths before it add up to. */
  lemma {:induction false} FieldOffset(ws: Layout, b: seq<byte>, i: nat)
    requires |b| == Total(ws) && i < Len(ws)
    ensures var at := Offset(ws, i);
            at + Width(ws, i) <= |b| && Unpack(ws, b)[i] == Num(b[at..at + Width(ws, i)])
  {
    hide Num;
    if i > 0 {
      FieldOffset(ws.rest, b[ws.w..], i - 1);
      var at := Offset(ws.rest, i - 1);
      var w := Width(ws, i);
      assert b[ws.w..][at..at + w] == b[ws.w + at..ws.w + at + w];
    }
  }

  lemma Powers()
    ensures Pow256(1) == 0x100 && Pow256(2) == 0x1_0000 && Pow256(3) == 0x100_0000 && Pow256(4) == 0x1_0000_0000
    ensures Pow256(6) == 0x1_0000_0000_0000 && Pow256(7) == 0x100_0000_0000_0000
    ensures Pow256(8) == 0x1_0000_0000_0000_0000
  {
    assert Pow256(2) == 256 * Pow256(1) && Pow256(3) == 256 * Pow256(2) && Pow256(4) == 256 * Pow256(3);
    assert Pow256(5) == 256 * Pow256(4) && Pow256(6) == 256 * Pow256(5) && Pow256(7) == 256 * Pow256(6);
    assert Pow256(8) == 256 * Pow256(7);
  }

  // ---- numbers by position ---------------------------------------------------------------------

  /** The little-endian numbers at a place. */
  function At2(b: seq<byte>, at: nat): nat
    requires at + 2 <= |b|
  {
    (b[at] as nat) + 0x100 * (b[at + 1] as nat)
  }

  function At4(b: seq<byte>, at: nat): nat
    requires at + 4 <= |b|
  {
    At2(b, at) + 0x1_0000 * At2(b, at + 2)
  }

  function At8(b: seq<byte>, at: nat): nat
    requires at + 8 <= |b|
  {
    At4(b, at) + 0x1_0000_0000 * At4(b, at + 4)
  }

  lemma NumTwo(b: seq<byte>, at: nat)
    requires at + 2 <= |b|
    ensures Num(b[at..at + 2]) == At2(b, at)
  {
    var s := b[at..at + 2];
    assert s[1..][1..] == [];
    assert Num(s) == s[0] + 256 * Num(s[1..]) && Num(s[1..]) == s[1] + 256 * Num([]);
  }

  lemma {:induction false} NumJoins(a: seq<byte>, b: seq<byte>)
    ensures Num(a + b) == Num(a) + Pow256(|a|) * Num(b)
  {
    if a == [] {
      assert a + b == b;
    } else {
      NumJoins(a[1..], b);
      assert (a + b)[1..] == a[1..] + b;
      assert 256 * (Pow256(|a| - 1) * Num(b)) == Pow256(|a|) * Num(b);
    }
  }

  lemma NumFour(b: seq<byte>, at: nat)
    requires at + 4 <= |b|
    ensures Num(b[at..at + 4]) == At4(b, at)
  {
    Powers();
    NumTwo(b, at);
    NumTwo(b, at + 2);
    NumJoins(b[at..at + 2], b[at + 2..at + 4]);
    assert b[at..at + 4] == b[at..at + 2] + b[at + 2..at + 4];
  }

  lemma NumEight(b: seq<byte>, at: nat)
    requires at + 8 <= |b|
    ensures Num(b[at..at + 8]) == At8(b, at)
  {
    Powers();
    NumFour(b, at);
    NumFour(b, at + 4);
    NumJoins(b[at..at + 4], b[at + 4..at + 8]);
    assert b[at..at + 8] == b[at..at + 4] + b[at + 4..at + 8];
  }

  lemma Part(b: seq<byte>, at: nat, n: nat, o: nat, w: nat)
    requires at + n <= |b| && o + w <= n
    ensures b[at..at + n][o..o + w] == b[at + o..at + o + w]
  {
    var l, r := b[at..at + n][o..o + w], b[at + o..at + o + w];
    forall k | 0 <= k < w ensures l[k] == r[k] { assert l[k] == b[at + o + k]; }
  }

  /** A field of a layout that starts at `at`, by position. */
  lemma FieldAt(ws: Layout, b: seq<byte>, at: nat, i: nat)
    requires at + Total(ws) <= |b| && i < Len(ws)
    ensures var o, w := at + Offset(ws, i), Width(ws, i);
            && o + w <= at + Total(ws)
            && (w == 1 ==> Fields(ws, b[at..at + Total(ws)])[i] == b[o] as nat)
            && (w == 2 ==> Fields(ws, b[at..at + Total(ws)])[i] == At2(b, o))
            && (w == 4 ==> Fields(ws, b[at..at + Total(ws)])[i] == At4(b, o))
            && (w == 8 ==> Fields(ws, b[at..at + Total(ws)])[i] == At8(b, o))
  {
    hide At2, At4, At8, Total, Len, Unpack;
    var o, w := Offset(ws, i), Width(ws, i);
    FieldOffset(ws, b[at..at + Total(ws)], i);
    Part(b, at, Total(ws), o, w);
    if w == 1 { OneByte(b, at + o); }
    if w == 2 { NumTwo(b, at + o); }
    if w == 4 { NumFour(b, at + o); }
    if w == 8 { NumEight(b, at + o); }
  }

  lemma OneByte(b: seq<byte>, at: nat)
    requires at < |b|
    ensures Num(b[at..at + 1]) == b[at] as nat
  {
    var s := b[at..at + 1];
    assert s[1..] == [];
    assert Num(s) == s[0] + 256 * Num([]);
  }

  /** Fields read at their widths. */
  function Fields(ws: Layout, b: seq<byte>): (vs: seq<nat>)
    requires |b| == Total(ws)
    ensures |vs| == Len(ws) && Fitting(ws, vs)
  {
    PackUnpack(ws, b);
    Unpack(ws, b)
  }

  lemma FieldsOfPack(ws: Layout, vs: seq<nat>, b: seq<byte>)
    requires |b| == Total(ws)
    ensures Fields(ws, b) == vs <==> Fitting(ws, vs) && |vs| == Len(ws) && b == Pack(ws, vs)
  {
    PackUnpack(ws, b);
    if Fitting(ws, vs) { UnpackPack(ws, vs); }
  }

  /** Values read at their widths, one by one. */
  lemma {:induction false} FieldBounds(ws: Layout, vs: seq<nat>)
    requires Fitting(ws, vs)
    ensures |vs| == Len(ws) && forall i :: 0 <= i < |vs| ==> vs[i] < Pow256(Width(ws, i))
  {
    if ws.W? {
      FieldBounds(ws.rest, vs[1..]);
      forall i | 0 <= i < |vs| ensures vs[i] < Pow256(Width(ws, i)) {
        if i > 0 { assert vs[1..][i - 1] == vs[i]; }
      }
    }
  }

  lemma {:induction false} FitsBounds(ws: Layout, vs: seq<nat>)
    requires |vs| == Len(ws) && forall i :: 0 <= i < |vs| ==> vs[i] < Pow256(Width(ws, i))
    ensures Fitting(ws, vs)
  {
    if ws.W? {
      assert vs[0] < Pow256(Width(ws, 0));
      forall i | 0 <= i < |vs[1..]| ensures vs[1..][i] < Pow256(Width(ws.rest, i)) {
        assert vs[1..][i] == vs[i + 1] && Width(ws, i + 1) == Width(ws.rest, i);
      }
      FitsBounds(ws.rest, vs[1..]);
    }
  }

  // ---- tables of rows -------------------------------------------------------------------------

  /** The width of `n` rows of width `w`. */
  function Times(n: nat, w: nat): nat { if n == 0 then 0 else w + Times(n - 1, w) }

  function PackAll(ws: Layout, rows: seq<seq<nat>>): (b: seq<byte>)
    requires forall i :: 0 <= i < |rows| ==> |rows[i]| == Len(ws)
    ensures |b| == Times(|rows|, Total(ws))
  {
    if rows == [] then [] else Pack(ws, rows[0]) + PackAll(ws, rows[1..])
  }

  function UnpackAll(ws: Layout, b: seq<byte>, n: nat): (rows: seq<seq<nat>>)
    requires |b| == Times(n, Total(ws))
    ensures |rows| == n && forall i :: 0 <= i < n ==> |rows[i]| == Len(ws)
  {
    if n == 0 then [] else [Unpack(ws, b[..Total(ws)])] + UnpackAll(ws, b[Total(ws)..], n - 1)
  }

  lemma {:induction false} UnpackAllPackAll(ws: Layout, rows: seq<seq<nat>>)
    requires forall i :: 0 <= i < |rows| ==> |rows[i]| == Len(ws) && Fitting(ws, rows[i])
    ensures UnpackAll(ws, PackAll(ws, rows), |rows|) == rows
  {
    hide Pack, Unpack, Total, Fitting;
    if rows != [] {
      UnpackAllPackAll(ws, rows[1..]);
      UnpackPack(ws, rows[0]);
      var b := PackAll(ws, rows);
      assert b[..Total(ws)] == Pack(ws, rows[0]) && b[Total(ws)..] == PackAll(ws, rows[1..]);
    }
  }

  lemma {:induction false} PackAllUnpackAll(ws: Layout, b: seq<byte>, n: nat)
    requires |b| == Times(n, Total(ws))
    ensures PackAll(ws, UnpackAll(ws, b, n)) == b
    ensures forall i :: 0 <= i < n ==> Fitting(ws, UnpackAll(ws, b, n)[i])
  {
    hide Pack, Unpack, Total, Fitting;
    if n > 0 {
      var w := Total(ws);
      PackAllUnpackAll(ws, b[w..], n - 1);
      PackUnpack(ws, b[..w]);
      var rows := UnpackAll(ws, b, n);
      assert rows[1..] == UnpackAll(ws, b[w..], n - 1);
      assert b == b[..w] + b[w..];
      forall i | 0 <= i < n ensures Fitting(ws, rows[i]) {
        if i > 0 { assert rows[1..][i - 1] == rows[i]; }
      }
    }
  }

  /** Row `i` starts `i` widths in. */
  lemma {:induction false} RowOffset(ws: Layout, b: seq<byte>, n: nat, i: nat)
    requires |b| == Times(n, Total(ws)) && i < n
    ensures var at := Times(i, Total(ws));
            at + Total(ws) <= |b| && UnpackAll(ws, b, n)[i] == Unpack(ws, b[at..at + Total(ws)])
  {
    hide Unpack, Total;
    var w := Total(ws);
    if i == 0 {
      assert b[0..0 + w] == b[..w];
    } else {
      RowOffset(ws, b[w..], n - 1, i - 1);
      var at := Times(i - 1, w);
      assert Times(i, w) == w + at;
      assert b[w..][at..at + w] == b[w + at..w + at + w];
    }
  }

  /** Rows read at their widths. */
  function Rows(ws: Layout, b: seq<byte>, n: nat): (rows: seq<seq<nat>>)
    requires |b| == Times(n, Total(ws))
    ensures |rows| == n && forall i :: 0 <= i < n ==> |rows[i]| == Len(ws) && Fitting(ws, rows[i])
  {
    PackAllUnpackAll(ws, b, n);
    UnpackAll(ws, b, n)
  }

  lemma RowsOfPack(ws: Layout, rows: seq<seq<nat>>, b: seq<byte>)
    requires |b| == Times(|rows|, Total(ws))
    requires forall i :: 0 <= i < |rows| ==> |rows[i]| == Len(ws) && Fitting(ws, rows[i])
    ensures Rows(ws, b, |rows|) == rows <==> b == PackAll(ws, rows)
  {
    PackAllUnpackAll(ws, b, |rows|);
    UnpackAllPackAll(ws, rows);
  }

  function Zeros(n: nat): (b: seq<byte>)
    ensures |b| == n
  {
    seq(n, _ => 0)
  }

  // ---- texts laid end to end --------------------------------------------------------------------

  function Concat(ts: seq<text>): text {
    if ts == [] then [] else ts[0] + Concat(ts[1..])
  }

  function Lens(ts: seq<text>): (ls: seq<nat>) { seq(|ts|, i requires 0 <= i < |ts| => |ts[i]|) }

  function Sum(ls: seq<nat>): nat { if ls == [] then 0 else ls[0] + Sum(ls[1..]) }

  lemma SumStep(ls: seq<nat>)
    ensures ls != [] ==> Sum(ls) == ls[0] + Sum(ls[1..])
  {
  }

  lemma SumEmpty(ls: seq<nat>)
    requires ls == []
    ensures Sum(ls) == 0
  {
  }

  /** Texts of the given lengths, cut one after the other. */
  function Split(b: text, ls: seq<nat>): (ts: seq<text>)
    requires |b| == Sum(ls)
    ensures |ts| == |ls|
  {
    if ls == [] then [] else [b[..ls[0]]] + Split(b[ls[0]..], ls[1..])
  }

  lemma {:induction false} SplitConcat(ts: seq<text>)
    ensures Sum(Lens(ts)) == |Concat(ts)|
    ensures Split(Concat(ts), Lens(ts)) == ts
  {
    if ts != [] {
      SplitConcat(ts[1..]);
      assert Lens(ts)[1..] == Lens(ts[1..]);
      assert Concat(ts)[..|ts[0]|] == ts[0] && Concat(ts)[|ts[0]|..] == Concat(ts[1..]);
    }
  }

  lemma ConcatCons(t: text, ts: seq<text>)
    ensures Concat([t] + ts) == t + Concat(ts) && Lens([t] + ts) == [|t|] + Lens(ts)
  {
    assert ([t] + ts)[1..] == ts;
  }

  lemma {:induction false} ConcatSplit(b: text, ls: seq<nat>)
    requires |b| == Sum(ls)
    ensures Concat(Split(b, ls)) == b && Lens(Split(b, ls)) == ls
  {
    hide Sum, Concat, Lens;
    SumStep(ls);
    if ls == [] {
      SumEmpty(ls);
      NoTexts();
    } else {
      var rest := Split(b[ls[0]..], ls[1..]);
      ConcatSplit(b[ls[0]..], ls[1..]);
      ConcatCons(b[..ls[0]], rest);
      assert b == b[..ls[0]] + b[ls[0]..];
    }
  }

  lemma NoTexts()
    ensures Concat([]) == [] && Lens([]) == []
  {
  }

  /** Where text `i` starts. */
  lemma {:induction false} SplitOffset(b: text, ls: seq<nat>, i: nat)
    requires |b| == Sum(ls) && i < |ls|
    ensures var at := Sum(ls[..i]); at + ls[i] <= |b| && Split(b, ls)[i] == b[at..at + ls[i]]
  {
    hide Sum;
    SumStep(ls);
    if i == 0 {
      SumEmpty(ls[..0]);
    } else {
      SplitOffset(b[ls[0]..], ls[1..], i - 1);
      var at := Sum(ls[1..][..i - 1]);
      SumStep(ls[..i]);
      assert ls[..i][1..] == ls[1..][..i - 1];
      assert b[ls[0]..][at..at + ls[i]] == b[ls[0] + at..ls[0] + at + ls[i]];
    }
  }

  lemma {:induction false} SumSnoc(ls: seq<nat>, i: nat)
    requires i < |ls|
    ensures Sum(ls[..i + 1]) == Sum(ls[..i]) + ls[i] <= Sum(ls)
    decreases i
  {
    if i == 0 {
      assert ls[..1] == [ls[0]] && ls[..1][1..] == [] && ls[..0] == [];
    } else {
      SumSnoc(ls[1..], i - 1);
      assert ls[..i + 1][1..] == ls[1..][..i] && ls[..i][1..] == ls[1..][..i - 1];
    }
  }
}
