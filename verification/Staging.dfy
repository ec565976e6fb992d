/** What a writer does to sets before it stages them: edges are deduplicated, capped and
    sorted so that the encoder cannot refuse them; named attributes become a last-wins map
    in name order, and read back as one. */
module Staging {
  import opened Ops
  import opened WalOps
  import opened WalBuffer
  import opened TextOrder
  import C = Compaction
  import M = Merge

  // ---- edges -------------------------------------------------------------------------------------

  /** The tag of a semantic-similarity edge; such edges are marked inferred. */
  const RELATED: byte := 2

  function WithInferred(flags: byte): byte { if (flags / 2) % 2 == 1 then flags else flags + 2 }

  function Marked(e: Edge): Edge { if e.etype == RELATED then e.(flags := WithInferred(e.flags)) else e }

  /** Bit `k` of a flag byte. */
  function Bit(flags: byte, k: nat): bool
    requires k < 8
  {
    (flags / [1, 2, 4, 8, 16, 32, 64, 128][k]) % 2 == 1
  }

  /** Exactly the similarity edges gain the inferred bit; no other bit or field of any edge
      changes. */
  lemma MarkedExactly(e: Edge, k: nat)
    requires k < 8
    ensures var m := Marked(e);
            && m.dst == e.dst && m.etype == e.etype && m.weight == e.weight
            && (Bit(m.flags, k) <==> Bit(e.flags, k) || (k == 1 && e.etype == RELATED))
            && (e.etype != RELATED ==> m == e)
  {
    var f := e.flags;
    if f / 2 % 2 == 0 { BitTwoSet(f, k); }
  }

  lemma BitTwoSet(f: byte, k: nat)
    requires k < 8 && f / 2 % 2 == 0
    ensures f + 2 < 0x100 && (Bit(f + 2, k) <==> Bit(f, k) || k == 1)
  {
    var q, r := f / 4, f % 4;
    assert f == 4 * q + r && r < 2 && f + 2 == 4 * q + (r + 2);
    match k
    case 0 =>
    case 1 =>
    case 2 => assert f / 4 == q && (f + 2) / 4 == q;
    case 3 => assert f / 8 == q / 2 && (f + 2) / 8 == q / 2;
    case 4 => assert f / 16 == q / 4 && (f + 2) / 16 == q / 4;
    case 5 => assert f / 32 == q / 8 && (f + 2) / 32 == q / 8;
    case 6 => assert f / 64 == q / 16 && (f + 2) / 64 == q / 16;
    case 7 => assert f / 128 == q / 32 && (f + 2) / 128 == q / 32;
  }

  predicate Points(edges: seq<Edge>, dst: u64) { exists i :: 0 <= i < |edges| && edges[i].dst == dst }

  /** The first edge to each destination, in order, none to the node itself. */
  function Firsts(key: u64, edges: seq<Edge>): seq<Edge> {
    if edges == [] then []
    else
      var before, e := Firsts(key, edges[..|edges| - 1]), edges[|edges| - 1];
      if e.dst == key || Points(before, e.dst) then before else before + [Marked(e)]
  }

  function Capped(es: seq<Edge>): seq<Edge> { if |es| <= MAX_EDGES then es else es[..MAX_EDGES] }

  /** The edge set that is staged. */
  function StagedEdges(key: u64, edges: seq<Edge>): seq<Edge> { C.SortByDst(Capped(Firsts(key, edges))) }

  ghost predicate DistinctDsts(es: seq<Edge>) { forall i, j :: 0 <= i < j < |es| ==> es[i].dst != es[j].dst }

  lemma {:induction false} FirstsDistinct(key: u64, edges: seq<Edge>)
    ensures DistinctDsts(Firsts(key, edges)) && !Points(Firsts(key, edges), key)
  {
    if edges != [] { FirstsDistinct(key, edges[..|edges| - 1]); }
  }

  lemma FirstsStep(key: u64, edges: seq<Edge>, i: nat)
    requires i < |edges|
    ensures var before := Firsts(key, edges[..i]);
            Firsts(key, edges[..i + 1]) ==
              if edges[i].dst == key || Points(before, edges[i].dst) then before else before + [Marked(edges[i])]
  {
    assert edges[..i + 1][..i] == edges[..i];
  }

  lemma {:induction false} FirstsGrow(key: u64, edges: seq<Edge>, i: nat)
    requires i <= |edges|
    ensures Firsts(key, edges[..i]) <= Firsts(key, edges)
    decreases |edges| - i
  {
    hide Points, Firsts;
    if i < |edges| {
      FirstsStep(key, edges, i);
      FirstsGrow(key, edges, i + 1);
    } else {
      assert edges[..i] == edges;
    }
  }

  /** Exactly: an edge is kept when it is marked from the first edge given to its destination. */
  lemma {:induction false} FirstsAreFirst(key: u64, edges: seq<Edge>, e: Edge)
    ensures e in Firsts(key, edges) <==>
      exists i :: 0 <= i < |edges| && e == Marked(edges[i]) && edges[i].dst != key && !Points(edges[..i], edges[i].dst)
    ensures Points(Firsts(key, edges), e.dst) <==> e.dst != key && Points(edges, e.dst)
  {
    if edges != [] {
      var n := |edges| - 1;
      var most, last := edges[..n], edges[n];
      FirstsAreFirst(key, most, e);
      FirstsAreFirst(key, most, last);
      var before := Firsts(key, most);
      assert forall i :: 0 <= i < n ==> most[..i] == edges[..i];
      PointsSnoc(most, last, e.dst);
      assert edges == most + [last];
      if last.dst != key && !Points(before, last.dst) { PointsSnoc(before, Marked(last), e.dst); }
    }
  }

  lemma PointsSnoc(es: seq<Edge>, e: Edge, dst: u64)
    ensures Points(es + [e], dst) <==> Points(es, dst) || e.dst == dst
  {
    if i :| 0 <= i < |es| && es[i].dst == dst { assert (es + [e])[i].dst == dst; }
    assert (es + [e])[|es|] == e;
  }

  lemma {:induction false} InsertPermutes(es: seq<Edge>, e: Edge)
    ensures multiset(C.Insert(es, e)) == multiset(es) + multiset{e}
  {
    if es != [] {
      assert es == es[..|es| - 1] + [es[|es| - 1]];
      if es[|es| - 1].dst > e.dst { InsertPermutes(es[..|es| - 1], e); }
    }
  }

  lemma {:induction false} InsertSorted(es: seq<Edge>, e: Edge)
    requires Ascending(es) && !Points(es, e.dst)
    ensures Ascending(C.Insert(es, e))
  {
    if es != [] && es[|es| - 1].dst > e.dst {
      var most, last := es[..|es| - 1], es[|es| - 1];
      InsertSorted(most, e);
      InsertPermutes(most, e);
      var rest := C.Insert(most, e);
      forall i | 0 <= i < |rest| ensures rest[i].dst < last.dst {
        assert rest[i] in multiset(most) + multiset{e};
      }
      hide C.Insert, Points;
    }
  }

  lemma {:induction false} SortSorts(es: seq<Edge>)
    requires DistinctDsts(es)
    ensures Ascending(C.SortByDst(es)) && multiset(C.SortByDst(es)) == multiset(es)
  {
    hide C.Insert;
    if es != [] {
      var most, last := es[..|es| - 1], es[|es| - 1];
      assert es == most + [last];
      SortSorts(most);
      var sorted := C.SortByDst(most);
      forall i | 0 <= i < |sorted| ensures sorted[i].dst != last.dst {
        assert sorted[i] in multiset(most);
      }
      InsertSorted(sorted, last);
      InsertPermutes(sorted, last);
    }
  }

  /** The staged set ascends, is within the cap and holds exactly the first edges to the
      first destinations: the encoder has nothing to refuse. */
  lemma StagedEdgesAreLegal(utf8: text -> bool, key: u64, edges: seq<Edge>)
    ensures var out := StagedEdges(key, edges);
            && Legal(utf8, Edges(key, out)) && !Points(out, key)
            && multiset(out) == multiset(Capped(Firsts(key, edges)))
  {
    hide Firsts, C.SortByDst, Legal;
    FirstsDistinct(key, edges);
    var kept := Capped(Firsts(key, edges));
    SortSorts(kept);
    var out := StagedEdges(key, edges);
    assert |out| == |multiset(out)| == |kept|;
    EdgesLegal(utf8, key, out);
    forall i | 0 <= i < |out| ensures out[i].dst != key {
      assert out[i] in multiset(kept);
    }
  }

  /** The first edge to each destination, until the cap. */
  method KeepFirsts(key: u64, edges: seq<Edge>) returns (owned: seq<Edge>)
    ensures owned == Capped(Firsts(key, edges))
  {
    hide Firsts, Points;
    var seen: set<u64> := {};
    owned := [];
    NoFirsts(key);
    for i := 0 to |edges|
      invariant owned == Firsts(key, edges[..i]) && |owned| < MAX_EDGES
      invariant forall d :: d in seen <==> Points(owned, d)
    {
      FirstsStep(key, edges, i);
      var e := edges[i];
      if e.dst != key && e.dst !in seen {
        forall d ensures Points(owned + [Marked(e)], d) <==> Points(owned, d) || Marked(e).dst == d {
          PointsSnoc(owned, Marked(e), d);
        }
        seen := seen + {e.dst};
        owned := owned + [Marked(e)];
        if |owned| == MAX_EDGES {
          FirstsGrow(key, edges, i + 1);
          return;
        }
      }
    }
    assert edges[..|edges|] == edges;
  }

  /** Deduplicate, cap, sort, stage. */
  method StageEdges(buf: RecordBuf, key: u64, edges: seq<Edge>)
    requires buf.Valid()
    modifies buf
    ensures buf.Valid() && buf.staged == old(buf.staged) + [Edges(key, StagedEdges(key, edges))]
  {
    hide Legal, C.SortByDst, Capped;
    var owned := KeepFirsts(key, edges);
    owned := C.SortByDst(owned);
    StagedEdgesAreLegal(buf.utf8, key, edges);
    var staged := buf.PushEdges(key, owned);
  }

  /** Of the flags a caller gives an edge, only "an unchanged copy" is kept. */
  function ExactOnly(flags: byte): byte { flags / 4 % 2 * 4 }

  function Masked(edges: seq<Edge>): (es: seq<Edge>)
    ensures |es| == |edges|
  {
    seq(|edges|, i requires 0 <= i < |edges| => edges[i].(flags := ExactOnly(edges[i].flags)))
  }

  /** Stage `key`'s edges with the flags of each that a caller may set. */
  method SetEdgesWithFlags(buf: RecordBuf, key: u64, edges: seq<Edge>)
    requires buf.Valid()
    modifies buf
    ensures buf.Valid() && buf.staged == old(buf.staged) + [Edges(key, StagedEdges(key, Masked(edges)))]
  {
    StageEdges(buf, key, Masked(edges));
  }

  lemma MaskedPoints(edges: seq<Edge>, n: nat, dst: u64)
    requires n <= |edges|
    ensures Points(Masked(edges)[..n], dst) <==> Points(edges[..n], dst)
  {
    if i :| 0 <= i < n && edges[..n][i].dst == dst { assert Masked(edges)[..n][i].dst == dst; }
    if i :| 0 <= i < n && Masked(edges)[..n][i].dst == dst { assert edges[..n][i].dst == dst; }
  }

  /** Every edge staged is the first one given to its destination, with its type and weight; of
      its flags "an unchanged copy" is as given, "inferred" marks a similarity edge, and nothing
      else is set. */
  lemma StagedFrom(key: u64, edges: seq<Edge>, out: Edge) returns (i: nat)
    requires out in StagedEdges(key, Masked(edges))
    ensures i < |edges| && edges[i].dst == out.dst != key && !Points(edges[..i], out.dst)
    ensures out.etype == edges[i].etype && out.weight == edges[i].weight
    ensures forall k: nat :: k < 8 ==>
      (Bit(out.flags, k) <==> (k == 2 && Bit(edges[i].flags, 2)) || (k == 1 && edges[i].etype == RELATED))
  {
    hide Firsts, C.SortByDst, Bit, Points, ExactOnly, WithInferred;
    var masked := Masked(edges);
    var kept := Capped(Firsts(key, masked));
    FirstsDistinct(key, masked);
    SortSorts(kept);
    assert out in multiset(StagedEdges(key, masked)) && out in multiset(kept);
    assert out in Firsts(key, masked);
    FirstsAreFirst(key, masked, out);
    i :| 0 <= i < |masked| && out == Marked(masked[i]) && masked[i].dst != key && !Points(masked[..i], masked[i].dst);
    MaskedPoints(edges, i, out.dst);
    forall k: nat | k < 8
      ensures Bit(out.flags, k) <==> (k == 2 && Bit(edges[i].flags, 2)) || (k == 1 && edges[i].etype == RELATED)
    {
      MarkedExactly(masked[i], k);
      ExactBit(edges[i].flags, k);
    }
  }

  lemma ExactBit(flags: byte, k: nat)
    requires k < 8
    ensures Bit(ExactOnly(flags), k) <==> k == 2 && Bit(flags, 2)
  {
  }

  lemma NoFirsts(key: u64)
    ensures Firsts(key, []) == [] && forall d :: !Points([], d)
  {
  }

  // ---- segments ---------------------------------------------------------------------------------------

  /** What a caller stages for a node's segments is what a snapshot that has the op returns:
      each one's heading, range and importance, its depth or 1 for none, and the key its
      heading derives. */
  lemma SegmentsReadBack(c: M.Config, b: Option<M.BaseDoc>, ops: seq<Op>, key: u64, segs: seq<SegmentRecord>)
    requires !M.Fold(ops, key).removed
    ensures var read := M.Segments(c, b, M.PatchOf(ops + [Segs(key, StoredAll(segs))], key));
            && |read| == |segs|
            && forall i :: 0 <= i < |segs| ==>
                 && read[i].heading == segs[i].heading && read[i].range == segs[i].range
                 && read[i].importance == segs[i].importance
                 && read[i].depth == (if segs[i].depth == 0 then 1 else segs[i].depth)
                 && read[i].segKey == c.segKey(key, segs[i].heading)
  {
    var op := Segs(key, StoredAll(segs));
    var all := ops + [op];
    assert all[|ops|].key == key && all[..|ops|] == ops;
    assert M.PatchOf(all, key) == Some(M.FoldOne(M.Fold(ops, key), op));
    forall i | 0 <= i < |segs| ensures M.SegRefs(c, key, op.segs)[i].range == segs[i].range {
      M.SegRefsAre(c, key, op.segs, i);
    }
  }

  // ---- named attributes -------------------------------------------------------------------------------

  const MAX_ATTR_NAME := 255
  const MAX_ATTR_BYTES := MAX_OP - 24 - MAX_ATTRS * 8

  datatype Named = Named(name: text, value: text)

  function Bytes(a: Named): nat { |a.name| + 1 + |a.value| }

  predicate Nameable(a: Named) {
    1 <= |a.name| <= MAX_ATTR_NAME && 0 !in a.name && Bytes(a) <= MAX_ATTR_LEN
  }

  predicate Has(attrs: seq<Named>, name: text) { exists i :: 0 <= i < |attrs| && attrs[i].name == name }

  /** The last attribute of each name, latest first. */
  function Lasts(attrs: seq<Named>): seq<Named> {
    if attrs == [] then []
    else
      var after := Lasts(attrs[1..]);
      if Has(after, attrs[0].name) then after else after + [attrs[0]]
  }

  function TotalBytes(attrs: seq<Named>): nat {
    if attrs == [] then 0 else TotalBytes(attrs[..|attrs| - 1]) + Bytes(attrs[|attrs| - 1])
  }

  function InsertNamed(xs: seq<Named>, x: Named): seq<Named> {
    if xs == [] || !Before(x.name, xs[|xs| - 1].name) then xs + [x]
    else InsertNamed(xs[..|xs| - 1], x) + [xs[|xs| - 1]]
  }

  function SortNamed(xs: seq<Named>): seq<Named> {
    if xs == [] then [] else InsertNamed(SortNamed(xs[..|xs| - 1]), xs[|xs| - 1])
  }

  ghost predicate NamesAscend(xs: seq<Named>) { forall i, j :: 0 <= i < j < |xs| ==> Before(xs[i].name, xs[j].name) }
  ghost predicate NamesDiffer(xs: seq<Named>) { forall i, j :: 0 <= i < j < |xs| ==> xs[i].name != xs[j].name }

  lemma {:induction false} InsertNamedPermutes(xs: seq<Named>, x: Named)
    ensures multiset(InsertNamed(xs, x)) == multiset(xs) + multiset{x}
  {
    if xs != [] {
      assert xs == xs[..|xs| - 1] + [xs[|xs| - 1]];
      if Before(x.name, xs[|xs| - 1].name) { InsertNamedPermutes(xs[..|xs| - 1], x); }
    }
  }

  lemma {:induction false} InsertNamedSorts(xs: seq<Named>, x: Named)
    requires NamesAscend(xs) && !Has(xs, x.name)
    ensures NamesAscend(InsertNamed(xs, x))
  {
    hide Before;
    if xs != [] {
      var most, last := xs[..|xs| - 1], xs[|xs| - 1];
      if Before(x.name, last.name) {
        InsertNamedSorts(most, x);
        InsertNamedPermutes(most, x);
        var rest := InsertNamed(most, x);
        forall i | 0 <= i < |rest| ensures Before(rest[i].name, last.name) {
          assert rest[i] in multiset(most) + multiset{x};
        }
      } else {
        BeforeIsTotal(x.name, last.name);
        forall i | 0 <= i < |xs| ensures Before(xs[i].name, x.name) {
          if i < |most| { BeforeIsTransitive(xs[i].name, last.name, x.name); }
        }
      }
    }
  }

  lemma {:induction false} SortNamedSorts(xs: seq<Named>)
    requires NamesDiffer(xs)
    ensures NamesAscend(SortNamed(xs)) && multiset(SortNamed(xs)) == multiset(xs)
  {
    hide InsertNamed, Before;
    if xs != [] {
      var most, last := xs[..|xs| - 1], xs[|xs| - 1];
      assert xs == most + [last];
      SortNamedSorts(most);
      var sorted := SortNamed(most);
      forall i | 0 <= i < |sorted| ensures sorted[i].name != last.name { assert sorted[i] in multiset(most); }
      InsertNamedSorts(sorted, last);
      InsertNamedPermutes(sorted, last);
    }
  }

  /** The map that is staged: last value of each name, in name order. */
  function NamedMap(attrs: seq<Named>): seq<Named> { SortNamed(Lasts(attrs)) }

  lemma {:induction false} LastsAreLast(attrs: seq<Named>, a: Named)
    ensures NamesDiffer(Lasts(attrs)) && |Lasts(attrs)| <= |attrs|
    ensures a in Lasts(attrs) <==> exists i :: 0 <= i < |attrs| && attrs[i] == a && !Has(attrs[i + 1..], a.name)
    ensures Has(Lasts(attrs), a.name) <==> Has(attrs, a.name)
  {
    if attrs != [] {
      var head, rest := attrs[0], attrs[1..];
      LastsAreLast(rest, a);
      LastsAreLast(rest, head);
      assert forall i :: 0 <= i < |rest| ==> rest[i + 1..] == attrs[i + 2..] && rest[i] == attrs[i + 1];
      HasCons(head, rest, a.name);
      if !Has(Lasts(rest), head.name) { HasSnoc(Lasts(rest), head, a.name); }
      LastCons(head, rest, a);
      assert attrs == [head] + rest;
    }
  }

  lemma HasCons(head: Named, rest: seq<Named>, name: text)
    ensures Has([head] + rest, name) <==> head.name == name || Has(rest, name)
  {
    var all := [head] + rest;
    if i :| 0 <= i < |rest| && rest[i].name == name { assert all[i + 1].name == name; }
    assert all[0] == head;
  }

  lemma HasSnoc(xs: seq<Named>, x: Named, name: text)
    ensures Has(xs + [x], name) <==> Has(xs, name) || x.name == name
  {
    if i :| 0 <= i < |xs| && xs[i].name == name { assert (xs + [x])[i].name == name; }
    assert (xs + [x])[|xs|] == x;
  }

  ghost predicate LastOfName(attrs: seq<Named>, a: Named) {
    exists i :: 0 <= i < |attrs| && attrs[i] == a && !Has(attrs[i + 1..], a.name)
  }

  lemma LastCons(head: Named, rest: seq<Named>, a: Named)
    ensures LastOfName([head] + rest, a) <==> LastOfName(rest, a) || (head == a && !Has(rest, a.name))
  {
    var all := [head] + rest;
    assert all[1..] == rest;
    if LastOfName(rest, a) {
      var i :| 0 <= i < |rest| && rest[i] == a && !Has(rest[i + 1..], a.name);
      assert all[i + 1] == a && all[i + 2..] == rest[i + 1..];
    }
    if head == a && !Has(rest, a.name) { assert all[0] == a; }
    if LastOfName(all, a) {
      var i :| 0 <= i < |all| && all[i] == a && !Has(all[i + 1..], a.name);
      if i > 0 { assert rest[i - 1] == a && rest[i..] == all[i + 1..]; }
    }
  }

  // ---- storing and reading names -----------------------------------------------------------------------

  function AsParts(named: seq<Named>): (parts: seq<Parts>)
    requires |named| <= MAX_ATTRS
    ensures |parts| == |named|
  {
    seq(|named|, i requires 0 <= i < |named| => Parts(i, named[i].name, [0], named[i].value))
  }

  /** A stored value split at its first zero byte. */
  function SplitOnce(v: text): Option<Named> {
    if v == [] then None
    else if v[0] == 0 then Some(Named([], v[1..]))
    else
      var rest := SplitOnce(v[1..]);
      if rest.None? then None else Some(Named([v[0]] + rest.value.name, rest.value.value))
  }

  /** What a reader of named attributes is shown. */
  function NamedAttrs(attrs: seq<Attr>): seq<Named> {
    if attrs == [] then []
    else
      var before, n := NamedAttrs(attrs[..|attrs| - 1]), SplitOnce(attrs[|attrs| - 1].value);
      if n.Some? && n.value.name != [] then before + [n.value] else before
  }

  lemma {:induction false} SplitJoined(name: text, value: text)
    requires 0 !in name
    ensures SplitOnce(name + [0] + value) == Some(Named(name, value))
  {
    var v := name + [0] + value;
    if name == [] {
      assert v[1..] == value;
    } else {
      assert v[1..] == name[1..] + [0] + value && v[0] == name[0];
      SplitJoined(name[1..], value);
      assert [name[0]] + name[1..] == name;
    }
  }

  lemma {:induction false} PartsReadBack(named: seq<Named>, n: nat)
    requires n <= |named| <= MAX_ATTRS && forall i :: 0 <= i < |named| ==> Nameable(named[i])
    ensures NamedAttrs(JoinedAll(AsParts(named))[..n]) == named[..n]
  {
    hide SplitOnce;
    if n > 0 {
      PartsReadBack(named, n - 1);
      var stored, a := JoinedAll(AsParts(named)), named[n - 1];
      assert stored[..n][..n - 1] == stored[..n - 1] && stored[n - 1].value == a.name + [0] + a.value;
      SplitJoined(a.name, a.value);
      assert named[..n] == named[..n - 1] + [a];
    }
  }

  /** Named attributes come back as they were meant: each name once, in name order, with the
      last value given for it. */
  lemma NamedReadBack(attrs: seq<Named>, a: Named)
    requires |attrs| <= MAX_ATTRS && forall i :: 0 <= i < |attrs| ==> Nameable(attrs[i])
    ensures |NamedMap(attrs)| <= MAX_ATTRS
    ensures var read := NamedAttrs(JoinedAll(AsParts(NamedMap(attrs))));
            && NamesAscend(read)
            && (a in read <==> LastOfName(attrs, a))
            && (Has(read, a.name) <==> Has(attrs, a.name))
  {
    hide SortNamed, Lasts, NamedAttrs, SplitOnce, Nameable, Before;
    LastsAreLast(attrs, a);
    var lasts, m := Lasts(attrs), NamedMap(attrs);
    SortNamedSorts(lasts);
    assert |m| == |multiset(m)| == |lasts|;
    forall i | 0 <= i < |m| ensures Nameable(m[i]) {
      assert m[i] in multiset(lasts);
      LastsAreLast(attrs, m[i]);
    }
    PartsReadBack(m, |m|);
    var stored := JoinedAll(AsParts(m));
    assert stored[..|m|] == stored && m[..|m|] == m;
    assert a in m <==> a in multiset(m);
    SameNames(m, lasts, a.name);
  }

  lemma SameNames(xs: seq<Named>, ys: seq<Named>, name: text)
    requires multiset(xs) == multiset(ys)
    ensures Has(xs, name) <==> Has(ys, name)
  {
    if i :| 0 <= i < |xs| && xs[i].name == name {
      assert xs[i] in multiset(ys);
      var j :| 0 <= j < |ys| && ys[j] == xs[i];
      assert ys[j].name == name;
    }
    if i :| 0 <= i < |ys| && ys[i].name == name {
      assert ys[i] in multiset(xs);
      var j :| 0 <= j < |xs| && xs[j] == ys[i];
      assert xs[j].name == name;
    }
  }

  // ---- staging named attributes -------------------------------------------------------------------------

  /** UTF-8 as this needs it: a zero byte is, and joining keeps it. */
  ghost predicate Joinable(utf8: text -> bool) {
    utf8([0]) && forall a: text, b: text :: utf8(a) && utf8(b) ==> utf8(a + b)
  }

  lemma LastsStep(attrs: seq<Named>, i: nat)
    requires i < |attrs|
    ensures var after := Lasts(attrs[i + 1..]);
            Lasts(attrs[i..]) == if Has(after, attrs[i].name) then after else after + [attrs[i]]
  {
    assert attrs[i..][1..] == attrs[i + 1..];
  }

  /** Walk the attributes from the last, refusing a bad one and keeping each name once. */
  method KeepLasts(attrs: seq<Named>) returns (kept: Option<seq<Named>>)
    ensures kept.Some? <==> forall i :: 0 <= i < |attrs| ==> Nameable(attrs[i])
    ensures kept.Some? ==> kept.value == Lasts(attrs)
  {
    hide Lasts, Has;
    var named: seq<Named> := [];
    var i := |attrs|;
    assert Lasts(attrs[i..]) == [] by { NoLasts(attrs[i..]); }
    while i > 0
      invariant 0 <= i <= |attrs|
      invariant named == Lasts(attrs[i..]) && forall j :: i <= j < |attrs| ==> Nameable(attrs[j])
    {
      i := i - 1;
      var a := attrs[i];
      if a.name == [] || |a.name| > MAX_ATTR_NAME || 0 in a.name || |a.name| + 1 + |a.value| > MAX_ATTR_LEN {
        assert !Nameable(attrs[i]);
        return None;
      }
      LastsStep(attrs, i);
      if !Has(named, a.name) {
        named := named + [a];
      }
    }
    assert attrs[0..] == attrs;
    return Some(named);
  }

  lemma NoLasts(attrs: seq<Named>)
    requires attrs == []
    ensures Lasts(attrs) == []
  {
  }

  lemma {:induction false} ValueBytesAre(named: seq<Named>, n: nat)
    requires n <= |named| <= MAX_ATTRS
    ensures ValueBytes(JoinedAll(AsParts(named))[..n]) == TotalBytes(named[..n])
  {
    hide ValueBytes;
    if n == 0 {
      NoValues();
    } else {
      ValueBytesAre(named, n - 1);
      ValuesSnoc(JoinedAll(AsParts(named)), n - 1);
      assert named[..n][..n - 1] == named[..n - 1];
    }
  }

  /** Keys 0, 1, ... in name order, within the byte budget: the encoder has nothing to refuse. */
  lemma NamedIsLegal(utf8: text -> bool, key: u64, attrs: seq<Named>)
    requires Joinable(utf8) && forall i :: 0 <= i < |attrs| ==> utf8(attrs[i].name) && utf8(attrs[i].value)
    requires |attrs| <= MAX_ATTRS && forall i :: 0 <= i < |attrs| ==> Nameable(attrs[i])
    requires TotalBytes(NamedMap(attrs)) <= MAX_ATTR_BYTES
    ensures |NamedMap(attrs)| <= MAX_ATTRS
    ensures var parts := AsParts(NamedMap(attrs));
            && (forall i :: 0 <= i < |parts| ==> utf8(Joined(parts[i]).value))
            && Legal(utf8, Attrs(key, JoinedAll(parts)))
  {
    hide SortNamed, Lasts, Legal, ValueBytes, TotalBytes;
    var m := NamedMap(attrs);
    MapIsFrom(attrs);
    var parts := AsParts(m);
    var stored := JoinedAll(parts);
    forall i | 0 <= i < |parts|
      ensures utf8(Joined(parts[i]).value) && utf8(stored[i].value) && |stored[i].value| <= MAX_ATTR_LEN
    {
      assert m[i] in attrs;
      assert utf8(m[i].name + [0]);
    }
    ValueBytesAre(m, |m|);
    assert stored[..|m|] == stored && m[..|m|] == m;
    AttrsLegal(utf8, key, stored);
  }

  lemma MapIsFrom(attrs: seq<Named>)
    ensures |NamedMap(attrs)| <= |attrs| && forall a :: a in NamedMap(attrs) ==> a in attrs
  {
    hide SortNamed, Lasts;
    var lasts, m := Lasts(attrs), NamedMap(attrs);
    LastsAreLast(attrs, Named([], []));
    SortNamedSorts(lasts);
    assert |m| == |multiset(m)| == |lasts|;
    forall a | a in m ensures a in attrs {
      assert a in multiset(lasts);
      LastsAreLast(attrs, a);
    }
  }

  /** Stage `key`'s attributes as a last-wins map from names, or refuse them. */
  method SetNamedAttrs(buf: RecordBuf, key: u64, attrs: seq<Named>) returns (ok: bool)
    requires buf.Valid() && Joinable(buf.utf8)
    requires forall i :: 0 <= i < |attrs| ==> buf.utf8(attrs[i].name) && buf.utf8(attrs[i].value)
    modifies buf
    ensures buf.Valid()
    ensures ok <==> |attrs| <= MAX_ATTRS && (forall i :: 0 <= i < |attrs| ==> Nameable(attrs[i]))
                    && TotalBytes(NamedMap(attrs)) <= MAX_ATTR_BYTES
    ensures ok ==> |NamedMap(attrs)| <= MAX_ATTRS
    ensures buf.staged == if ok then old(buf.staged) + [Attrs(key, JoinedAll(AsParts(NamedMap(attrs))))] else old(buf.staged)
  {
    hide SortNamed, Lasts, Legal, Nameable;
    if |attrs| > MAX_ATTRS {
      return false;
    }
    var kept := KeepLasts(attrs);
    if kept.None? {
      return false;
    }
    var named := SortNamed(kept.value);
    if TotalBytes(named) > MAX_ATTR_BYTES {
      return false;
    }
    NamedIsLegal(buf.utf8, key, attrs);
    ok := buf.PushAttrParts(key, AsParts(named));
  }
}
