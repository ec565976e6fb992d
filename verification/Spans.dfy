/** Byte spans of a file that must not overlap, with nothing but zeros between them: the
    sort-and-sweep check is exactly that. */
module Spans {
  import opened Ops

  /** Bytes `start..end`. */
  datatype Span = Span(start: nat, end: nat)

  ghost predicate Apart(a: Span, b: Span) { a.end <= b.start || b.end <= a.start }

  ghost predicate Disjoint(spans: seq<Span>) {
    forall i, j :: 0 <= i < j < |spans| ==> Apart(spans[i], spans[j])
  }

  predicate Covers(spans: seq<Span>, p: nat) { exists i :: 0 <= i < |spans| && spans[i].start <= p < spans[i].end }

  ghost predicate ZeroOutside(bytes: seq<byte>, at: nat, spans: seq<Span>) {
    forall p :: at <= p < |bytes| && !Covers(spans, p) ==> bytes[p] == 0
  }

  predicate Within(spans: seq<Span>, at: nat, len: nat) {
    forall i :: 0 <= i < |spans| ==> at <= spans[i].start <= spans[i].end <= len
  }

  // ---- sorting ------------------------------------------------------------------------------------

  predicate Leq(a: Span, b: Span) { a.start < b.start || (a.start == b.start && a.end <= b.end) }

  function InsertSpan(xs: seq<Span>, x: Span): seq<Span> {
    if xs == [] || Leq(xs[|xs| - 1], x) then xs + [x] else InsertSpan(xs[..|xs| - 1], x) + [xs[|xs| - 1]]
  }

  function SortSpans(xs: seq<Span>): seq<Span> {
    if xs == [] then [] else InsertSpan(SortSpans(xs[..|xs| - 1]), xs[|xs| - 1])
  }

  ghost predicate Sorted(xs: seq<Span>) { forall i, j :: 0 <= i < j < |xs| ==> Leq(xs[i], xs[j]) }

  lemma {:induction false} InsertPermutes(xs: seq<Span>, x: Span)
    ensures multiset(InsertSpan(xs, x)) == multiset(xs) + multiset{x}
  {
    if xs != [] {
      assert xs == xs[..|xs| - 1] + [xs[|xs| - 1]];
      if !Leq(xs[|xs| - 1], x) { InsertPermutes(xs[..|xs| - 1], x); }
    }
  }

  lemma {:induction false} InsertSorts(xs: seq<Span>, x: Span)
    requires Sorted(xs)
    ensures Sorted(InsertSpan(xs, x))
  {
    if xs != [] && !Leq(xs[|xs| - 1], x) {
      var most, last := xs[..|xs| - 1], xs[|xs| - 1];
      InsertSorts(most, x);
      InsertPermutes(most, x);
      var rest := InsertSpan(most, x);
      forall i | 0 <= i < |rest| ensures Leq(rest[i], last) {
        assert rest[i] in multiset(most) + multiset{x};
      }
    }
  }

  lemma {:induction false} SortSorts(xs: seq<Span>)
    ensures Sorted(SortSpans(xs)) && multiset(SortSpans(xs)) == multiset(xs)
  {
    hide InsertSpan;
    if xs != [] {
      var most, last := xs[..|xs| - 1], xs[|xs| - 1];
      assert xs == most + [last];
      SortSorts(most);
      InsertSorts(SortSpans(most), last);
      InsertPermutes(SortSpans(most), last);
    }
  }

  // ---- what a permutation keeps ----------------------------------------------------------------------

  lemma SameCover(xs: seq<Span>, ys: seq<Span>, p: nat)
    requires multiset(xs) == multiset(ys)
    ensures Covers(xs, p) == Covers(ys, p)
  {
    if i :| 0 <= i < |xs| && xs[i].start <= p < xs[i].end {
      assert xs[i] in multiset(ys);
      var j :| 0 <= j < |ys| && ys[j] == xs[i];
    }
    if i :| 0 <= i < |ys| && ys[i].start <= p < ys[i].end {
      assert ys[i] in multiset(xs);
      var j :| 0 <= j < |xs| && xs[j] == ys[i];
    }
  }

  ghost predicate AllApart(xs: seq<Span>, x: Span) { forall i :: 0 <= i < |xs| ==> Apart(xs[i], x) }

  lemma DisjointSnoc(xs: seq<Span>, x: Span)
    ensures Disjoint(xs + [x]) <==> Disjoint(xs) && AllApart(xs, x)
  {
    var all := xs + [x];
    if Disjoint(all) {
      forall i, j | 0 <= i < j < |xs| ensures Apart(xs[i], xs[j]) { assert Apart(all[i], all[j]); }
      forall i | 0 <= i < |xs| ensures Apart(xs[i], x) { assert Apart(all[i], all[|xs|]); }
    }
  }

  lemma AllApartOf(xs: seq<Span>, ys: seq<Span>, y: Span, x: Span)
    requires multiset(ys) == multiset(xs) + multiset{y}
    ensures AllApart(ys, x) <==> AllApart(xs, x) && Apart(y, x)
  {
    if AllApart(ys, x) {
      forall i | 0 <= i < |xs| ensures Apart(xs[i], x) { AtSome(ys, xs[i]); }
      AtSome(ys, y);
    }
    if AllApart(xs, x) && Apart(y, x) {
      forall i | 0 <= i < |ys| ensures Apart(ys[i], x) {
        assert ys[i] in multiset(xs) + multiset{y};
        if ys[i] != y { AtSome(xs, ys[i]); }
      }
    }
  }

  lemma AtSome(xs: seq<Span>, x: Span)
    requires x in multiset(xs)
    ensures exists i :: 0 <= i < |xs| && xs[i] == x
  {
    assert x in xs;
  }

  lemma {:induction false} InsertDisjoint(xs: seq<Span>, x: Span)
    ensures Disjoint(InsertSpan(xs, x)) <==> Disjoint(xs) && AllApart(xs, x)
  {
    hide Disjoint, AllApart;
    DisjointSnoc(xs, x);
    if xs != [] && !Leq(xs[|xs| - 1], x) {
      var most, last := xs[..|xs| - 1], xs[|xs| - 1];
      assert xs == most + [last];
      InsertDisjoint(most, x);
      InsertPermutes(most, x);
      DisjointSnoc(most, last);
      DisjointSnoc(InsertSpan(most, x), last);
      AllApartOf(most, InsertSpan(most, x), x, last);
      AllApartOf(most, xs, last, x);
    }
  }

  lemma {:induction false} SortDisjoint(xs: seq<Span>)
    ensures Disjoint(SortSpans(xs)) <==> Disjoint(xs)
  {
    hide Disjoint, AllApart, InsertSpan;
    if xs != [] {
      var most, last := xs[..|xs| - 1], xs[|xs| - 1];
      assert xs == most + [last];
      SortDisjoint(most);
      SortSorts(most);
      InsertDisjoint(SortSpans(most), last);
      DisjointSnoc(most, last);
      SameApart(most, SortSpans(most), last);
    }
  }

  lemma SameApart(xs: seq<Span>, ys: seq<Span>, x: Span)
    requires multiset(xs) == multiset(ys)
    ensures AllApart(xs, x) <==> AllApart(ys, x)
  {
    if AllApart(ys, x) {
      forall i | 0 <= i < |xs| ensures Apart(xs[i], x) {
        assert xs[i] in multiset(ys);
        AtSome(ys, xs[i]);
      }
    }
    if AllApart(xs, x) {
      forall i | 0 <= i < |ys| ensures Apart(ys[i], x) {
        assert ys[i] in multiset(xs);
        AtSome(xs, ys[i]);
      }
    }
  }

  // ---- the sweep --------------------------------------------------------------------------------------

  predicate ZeroRun(bytes: seq<byte>, a: nat, b: nat)
    requires b <= |bytes|
  {
    forall p :: a <= p < b ==> bytes[p] == 0
  }

  /** Each span starts no earlier than the one before ended, with zeros between; and zeros
      after the last. */
  predicate Swept(bytes: seq<byte>, at: nat, xs: seq<Span>)
    requires Within(xs, 0, |bytes|)
    decreases |xs|
  {
    if xs == [] then at <= |bytes| && ZeroRun(bytes, at, |bytes|)
    else at <= xs[0].start && ZeroRun(bytes, at, xs[0].start) && Swept(bytes, xs[0].end, xs[1..])
  }

  lemma {:induction false} SweptApart(bytes: seq<byte>, at: nat, xs: seq<Span>)
    requires Within(xs, 0, |bytes|) && Swept(bytes, at, xs)
    ensures Disjoint(xs) && (forall i :: 0 <= i < |xs| ==> at <= xs[i].start)
    ensures at <= |bytes|
    decreases |xs|
  {
    if xs != [] {
      SweptApart(bytes, xs[0].end, xs[1..]);
      forall i, j | 0 <= i < j < |xs| ensures Apart(xs[i], xs[j]) {
        if i > 0 { assert Apart(xs[1..][i - 1], xs[1..][j - 1]); } else { assert xs[1..][j - 1] == xs[j]; }
      }
      forall i | 0 <= i < |xs| ensures at <= xs[i].start {
        if i > 0 { assert xs[1..][i - 1] == xs[i]; }
      }
    }
  }

  /** What passes the sweep is zero outside its spans, sorted or not. */
  lemma {:induction false} SweptZero(bytes: seq<byte>, at: nat, xs: seq<Span>)
    requires Within(xs, 0, |bytes|) && Swept(bytes, at, xs)
    ensures ZeroOutside(bytes, at, xs)
    decreases |xs|
  {
    if xs != [] {
      SweptZero(bytes, xs[0].end, xs[1..]);
      forall p | at <= p < |bytes| && !Covers(xs, p) ensures bytes[p] == 0 { CoversTail(xs, p); }
    }
  }

  lemma CoversTail(xs: seq<Span>, p: nat)
    requires xs != []
    ensures Covers(xs, p) <==> xs[0].start <= p < xs[0].end || Covers(xs[1..], p)
  {
    if i :| 0 <= i < |xs| && xs[i].start <= p < xs[i].end {
      if i > 0 { assert xs[1..][i - 1] == xs[i]; }
    }
    if i :| 0 <= i < |xs[1..]| && xs[1..][i].start <= p < xs[1..][i].end {
      assert xs[i + 1] == xs[1..][i];
    }
  }

  /** Sorted, disjoint and zero outside is what the sweep checks. */
  lemma {:induction false} SweepIs(bytes: seq<byte>, at: nat, xs: seq<Span>)
    requires Within(xs, 0, |bytes|) && Sorted(xs) && at <= |bytes|
    ensures Swept(bytes, at, xs) <==>
      Disjoint(xs) && (forall i :: 0 <= i < |xs| ==> at <= xs[i].start) && ZeroOutside(bytes, at, xs)
    decreases |xs|
  {
    hide Covers;
    if Swept(bytes, at, xs) { SweptApart(bytes, at, xs); }
    if xs == [] {
      forall p ensures !Covers(xs, p) { NoCover(p); }
    } else {
      var head, rest := xs[0], xs[1..];
      SweepIs(bytes, head.end, rest);
      forall p: nat ensures Covers(xs, p) <==> head.start <= p < head.end || Covers(rest, p) { CoversTail(xs, p); }
      if Disjoint(xs) {
        forall i, j | 0 <= i < j < |rest| ensures Apart(rest[i], rest[j]) { assert Apart(xs[i + 1], xs[j + 1]); }
        forall i | 0 <= i < |rest| ensures head.end <= rest[i].start {
          assert Leq(head, xs[i + 1]) && Apart(head, xs[i + 1]);
        }
      }
      forall p: nat | Covers(rest, p) && forall i :: 0 <= i < |rest| ==> head.end <= rest[i].start ensures p >= head.end {
        CoveredAt(rest, p);
      }
    }
  }

  lemma NoCover(p: nat)
    ensures !Covers([], p)
  {
  }

  lemma CoveredAt(xs: seq<Span>, p: nat)
    requires Covers(xs, p)
    ensures exists i :: 0 <= i < |xs| && xs[i].start <= p < xs[i].end
  {
  }

  /** Sort, then sweep: accepts exactly the disjoint spans with zeros everywhere else. */
  method CheckSpans(bytes: seq<byte>, at: nat, spans: seq<Span>) returns (ok: bool)
    requires at <= |bytes| && Within(spans, at, |bytes|)
    ensures ok <==> Disjoint(spans) && ZeroOutside(bytes, at, spans)
  {
    hide Swept, InsertSpan, Covers, SortSpans, Disjoint, Sorted, ZeroRun;
    var xs := SortSpans(spans);
    SortSorts(spans);
    SortedWithin(spans, at, |bytes|);
    SweepIs(bytes, at, xs);
    SortDisjoint(spans);
    forall p: nat ensures Covers(xs, p) == Covers(spans, p) { SameCover(xs, spans, p); }
    ghost var whole := Swept(bytes, at, xs);
    var pos: nat := at;
    assert xs[0..] == xs;
    for i := 0 to |xs|
      invariant Within(xs[i..], 0, |bytes|) && whole == Swept(bytes, pos, xs[i..])
    {
      assert xs[i..][1..] == xs[i + 1..];
      SweepStep(bytes, pos, xs[i..]);
      if xs[i].start < pos || !ZeroRun(bytes, pos, xs[i].start) {
        return false;
      }
      pos := xs[i].end;
    }
    SweepEnd(bytes, pos);
    assert xs[|xs|..] == [];
    return pos <= |bytes| && ZeroRun(bytes, pos, |bytes|);
  }

  lemma SweepStep(bytes: seq<byte>, at: nat, xs: seq<Span>)
    requires xs != [] && Within(xs, 0, |bytes|)
    ensures Within(xs[1..], 0, |bytes|)
    ensures Swept(bytes, at, xs) <==>
      at <= xs[0].start && ZeroRun(bytes, at, xs[0].start) && Swept(bytes, xs[0].end, xs[1..])
  {
  }

  lemma SweepEnd(bytes: seq<byte>, at: nat)
    ensures Within([], 0, |bytes|) && (Swept(bytes, at, []) <==> at <= |bytes| && ZeroRun(bytes, at, |bytes|))
  {
  }

  lemma SortedWithin(spans: seq<Span>, at: nat, len: nat)
    requires Within(spans, at, len)
    ensures Within(SortSpans(spans), at, len) && Within(SortSpans(spans), 0, len)
  {
    hide InsertSpan, SortSpans;
    var xs := SortSpans(spans);
    SortSorts(spans);
    forall i | 0 <= i < |xs| ensures at <= xs[i].start <= xs[i].end <= len {
      assert xs[i] in multiset(spans);
    }
  }
}
