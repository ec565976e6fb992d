/** The three whole-set operations in the log: segments, edges and attributes, each a count,
    entry rows and, but for edges, the texts the rows give lengths for. */
module WalSets {
  import opened Ops
  import opened ByteCodec
  import opened WalOps

  lemma {:induction false} TimesAre(n: nat)
    ensures Times(n, 8) == 8 * n && Times(n, 12) == 12 * n && Times(n, 16) == 16 * n
  {
    if n > 0 { TimesAre(n - 1); }
  }

  // ---- edges --------------------------------------------------------------------------------------

  function EdgeOf(row: seq<nat>): Edge
    requires Fitting(EDGE_ENTRY, row)
  {
    FieldBounds(EDGE_ENTRY, row);
    Powers();
    EdgeWidthsAre();
    Edge(row[0], row[1], row[2], row[3])
  }

  lemma EdgeWidthsAre()
    ensures Len(EDGE_ENTRY) == 4 && Width(EDGE_ENTRY, 0) == 8 && Width(EDGE_ENTRY, 1) == 1
    ensures Width(EDGE_ENTRY, 2) == 1 && Width(EDGE_ENTRY, 3) == 2
  {
  }

  lemma EdgeRowsFit(edges: seq<Edge>)
    ensures |EdgeRows(edges)| == |edges|
    ensures forall i :: 0 <= i < |edges| ==> Fitting(EDGE_ENTRY, EdgeRows(edges)[i]) && EdgeOf(EdgeRows(edges)[i]) == edges[i]
  {
    hide Fitting;
    Powers();
    EdgeWidthsAre();
    forall i | 0 <= i < |edges| ensures Fitting(EDGE_ENTRY, EdgeRows(edges)[i]) {
      FitsBounds(EDGE_ENTRY, EdgeRows(edges)[i]);
    }
  }

  function ParseEdges(key: u64, body: seq<byte>): (r: Option<Op>)
    ensures r.Some? ==> r.value.Edges? && r.value.key == key
  {
    Widths();
    if |body| < 8 then None
    else
      var v := Fields(COUNT16, body[..8]);
      if v[1] != 0 || v[0] > MAX_EDGES || |body| - 8 != Times(v[0], 12) then None
      else
        var rows := Rows(EDGE_ENTRY, body[8..], v[0]);
        var edges := seq(v[0], i requires 0 <= i < v[0] => EdgeOf(rows[i]));
        if Ascending(edges) then Some(Edges(key, edges)) else None
  }

  lemma CountFits(n: nat)
    requires n < 256
    ensures Fitting(COUNT8, [n, 0])
  {
    Powers();
  }

  lemma Count16Fits(n: nat)
    requires n < 0x1_0000
    ensures Fitting(COUNT16, [n, 0])
  {
    Powers();
  }

  lemma EdgesReadBack(key: u64, edges: seq<Edge>)
    requires |edges| <= MAX_EDGES && Ascending(edges)
    ensures ParseEdges(key, EdgesBody(edges)) == Some(Edges(key, edges))
  {
    hide Pack, PackAll, Fields, Fitting, Rows, EdgeOf, Ascending, EdgeRows;
    Widths();
    EdgeRowsFit(edges);
    var body, rows := EdgesBody(edges), EdgeRows(edges);
    assert body[..8] == Pack(COUNT16, [|edges|, 0]) && body[8..] == PackAll(EDGE_ENTRY, rows);
    Count16Fits(|edges|);
    FieldsOfPack(COUNT16, [|edges|, 0], body[..8]);
    RowsOfPack(EDGE_ENTRY, rows, body[8..]);
    var read := seq(|edges|, i requires 0 <= i < |edges| => EdgeOf(rows[i]));
    assert read == edges;
  }

  lemma EdgeRowOf(row: seq<nat>)
    requires Fitting(EDGE_ENTRY, row) && |row| == 4
    ensures var e := EdgeOf(row); [e.dst as nat, e.etype, e.flags, e.weight] == row
  {
  }

  lemma EdgesAreCanonical(key: u64, body: seq<byte>)
    requires ParseEdges(key, body).Some?
    ensures var edges := ParseEdges(key, body).value.edges;
            |edges| <= MAX_EDGES && Ascending(edges) && EdgesBody(edges) == body
  {
    hide Pack, PackAll, Fields, Fitting, Rows, EdgeOf, Ascending;
    Widths();
    EdgeWidthsAre();
    var v := Fields(COUNT16, body[..8]);
    var rows := Rows(EDGE_ENTRY, body[8..], v[0]);
    var edges := ParseEdges(key, body).value.edges;
    assert EdgeRows(edges) == rows by {
      forall i | 0 <= i < |rows| ensures EdgeRows(edges)[i] == rows[i] { EdgeRowOf(rows[i]); }
    }
    FieldsOfPack(COUNT16, v, body[..8]);
    assert v == [|edges|, 0];
    RowsOfPack(EDGE_ENTRY, rows, body[8..]);
    assert body == body[..8] + body[8..];
  }

  // ---- rows followed by texts ------------------------------------------------------------------------

  /** One column of a table of rows. */
  function Column(rows: seq<seq<nat>>, c: nat): (ls: seq<nat>)
    requires forall i :: 0 <= i < |rows| ==> c < |rows[i]|
  {
    seq(|rows|, i requires 0 <= i < |rows| => rows[i][c])
  }

  /** The texts after a table, cut at the lengths in its column `c`, if they add up, are
      short enough and are UTF-8. */
  function Texts(utf8: text -> bool, rows: seq<seq<nat>>, c: nat, tail: seq<byte>, max: nat): (ts: Option<seq<text>>)
    requires forall i :: 0 <= i < |rows| ==> c < |rows[i]|
    ensures ts.Some? ==> |ts.value| == |rows|
  {
    var lens := Column(rows, c);
    if (exists l :: l in lens && l > max) || Sum(lens) != |tail| then None
    else
      var ts := Split(tail, lens);
      if exists t :: t in ts && !utf8(t) then None else Some(ts)
  }

  lemma TextsReadBack(utf8: text -> bool, rows: seq<seq<nat>>, c: nat, ts: seq<text>, max: nat)
    requires forall i :: 0 <= i < |rows| ==> c < |rows[i]|
    requires |ts| == |rows| && forall i :: 0 <= i < |rows| ==> rows[i][c] == |ts[i]| && Label(utf8, ts[i], max)
    ensures Texts(utf8, rows, c, Concat(ts), max) == Some(ts)
  {
    hide Split, Sum, Concat;
    SplitConcat(ts);
    assert Column(rows, c) == Lens(ts);
  }

  lemma TextsAreCanonical(utf8: text -> bool, rows: seq<seq<nat>>, c: nat, tail: seq<byte>, max: nat)
    requires forall i :: 0 <= i < |rows| ==> c < |rows[i]|
    requires Texts(utf8, rows, c, tail, max).Some?
    ensures var ts := Texts(utf8, rows, c, tail, max).value;
            && Concat(ts) == tail
            && forall i :: 0 <= i < |rows| ==> rows[i][c] == |ts[i]| && Label(utf8, ts[i], max)
  {
    hide Split, Sum, Concat;
    var lens := Column(rows, c);
    ConcatSplit(tail, lens);
    var ts := Split(tail, lens);
    forall i | 0 <= i < |rows| ensures rows[i][c] == |ts[i]| && Label(utf8, ts[i], max) {
      assert Lens(ts)[i] == lens[i] && lens[i] in lens && ts[i] in ts;
    }
  }

  // ---- segments ----------------------------------------------------------------------------------------

  lemma SegWidthsAre()
    ensures Len(SEG_ENTRY) == 7 && Width(SEG_ENTRY, 0) == 4 && Width(SEG_ENTRY, 1) == 4 && Width(SEG_ENTRY, 2) == 2
    ensures Width(SEG_ENTRY, 3) == 2 && Width(SEG_ENTRY, 4) == 1 && Width(SEG_ENTRY, 5) == 1 && Width(SEG_ENTRY, 6) == 2
  {
  }

  function SegOf(row: seq<nat>, heading: text): Seg
    requires Fitting(SEG_ENTRY, row)
  {
    FieldBounds(SEG_ENTRY, row);
    Powers();
    SegWidthsAre();
    Seg(row[0], row[1], row[2], row[4], row[5], heading)
  }

  predicate SegRowsOk(rows: seq<seq<nat>>)
    requires forall i :: 0 <= i < |rows| ==> |rows[i]| == 7
  {
    forall i :: 0 <= i < |rows| ==> rows[i][6] == 0
  }

  function ParseSegs(utf8: text -> bool, key: u64, body: seq<byte>): (r: Option<Op>)
    ensures r.Some? ==> r.value.Segs? && r.value.key == key
  {
    Widths();
    SegWidthsAre();
    if |body| < 8 then None
    else
      var v := Fields(COUNT8, body[..8]);
      var w := Times(v[0], 16);
      if v[1] != 0 || v[0] > MAX_SEGS || |body| - 8 < w then None
      else
        var rows := Rows(SEG_ENTRY, body[8..8 + w], v[0]);
        var ts := Texts(utf8, rows, 3, body[8 + w..], MAX_LABEL);
        if !SegRowsOk(rows) || ts.None? then None
        else Some(Segs(key, seq(v[0], i requires 0 <= i < v[0] => SegOf(rows[i], ts.value[i]))))
  }

  lemma SegRowsFit(segs: seq<Seg>)
    requires forall i :: 0 <= i < |segs| ==> |segs[i].heading| <= MAX_LABEL
    ensures |SegRows(segs)| == |segs|
    ensures forall i :: 0 <= i < |segs| ==>
      var row := SegRows(segs)[i];
      |row| == 7 && Fitting(SEG_ENTRY, row) && row[3] == |segs[i].heading| && row[6] == 0
      && SegOf(row, segs[i].heading) == segs[i]
  {
    hide Fitting;
    Powers();
    SegWidthsAre();
    forall i | 0 <= i < |segs| ensures Fitting(SEG_ENTRY, SegRows(segs)[i]) {
      FitsBounds(SEG_ENTRY, SegRows(segs)[i]);
    }
  }

  lemma SegsReadBack(utf8: text -> bool, key: u64, segs: seq<Seg>)
    requires LegalBody(utf8, Segs(key, segs))
    ensures ParseSegs(utf8, key, SegsBody(segs)) == Some(Segs(key, segs))
  {
    hide Pack, PackAll, Fields, Fitting, Rows, SegOf, Texts, SegRows, Concat;
    Widths();
    SegWidthsAre();
    SegRowsFit(segs);
    var body, rows, ts := SegsBody(segs), SegRows(segs), Headings(segs);
    var w := Times(|segs|, 16);
    assert body[..8] == Pack(COUNT8, [|segs|, 0]) && body[8..8 + w] == PackAll(SEG_ENTRY, rows) && body[8 + w..] == Concat(ts);
    CountFits(|segs|);
    FieldsOfPack(COUNT8, [|segs|, 0], body[..8]);
    RowsOfPack(SEG_ENTRY, rows, body[8..8 + w]);
    TextsReadBack(utf8, rows, 3, ts, MAX_LABEL);
    var read := seq(|segs|, i requires 0 <= i < |segs| => SegOf(rows[i], ts[i]));
    assert read == segs;
  }

  lemma SegRowOf(row: seq<nat>, heading: text)
    requires Fitting(SEG_ENTRY, row) && |row| == 7 && row[3] == |heading| && row[6] == 0
    ensures var s := SegOf(row, heading);
            [s.start as nat, s.len, s.importance, |s.heading|, s.depth, s.flags, 0] == row && s.heading == heading
  {
  }

  lemma SegsAreCanonical(utf8: text -> bool, key: u64, body: seq<byte>)
    requires ParseSegs(utf8, key, body).Some?
    ensures var op := ParseSegs(utf8, key, body).value; LegalBody(utf8, op) && SegsBody(op.segs) == body
  {
    hide Pack, PackAll, Fields, Fitting, Rows, SegOf, Texts, Concat;
    Widths();
    SegWidthsAre();
    var v := Fields(COUNT8, body[..8]);
    var w := Times(v[0], 16);
    var rows := Rows(SEG_ENTRY, body[8..8 + w], v[0]);
    var ts := Texts(utf8, rows, 3, body[8 + w..], MAX_LABEL).value;
    TextsAreCanonical(utf8, rows, 3, body[8 + w..], MAX_LABEL);
    var segs := ParseSegs(utf8, key, body).value.segs;
    forall i | 0 <= i < |rows| ensures SegRows(segs)[i] == rows[i] && segs[i].heading == ts[i] { SegRowOf(rows[i], ts[i]); }
    assert SegRows(segs) == rows && Headings(segs) == ts;
    FieldsOfPack(COUNT8, v, body[..8]);
    assert v == [|segs|, 0];
    RowsOfPack(SEG_ENTRY, rows, body[8..8 + w]);
    assert body == body[..8] + body[8..8 + w] + body[8 + w..];
  }

  // ---- attributes ------------------------------------------------------------------------------------------

  lemma AttrWidthsAre()
    ensures Len(ATTR_ENTRY) == 3 && Width(ATTR_ENTRY, 0) == 1 && Width(ATTR_ENTRY, 1) == 3 && Width(ATTR_ENTRY, 2) == 4
  {
  }

  function AttrOf(row: seq<nat>, value: text): Attr
    requires Fitting(ATTR_ENTRY, row)
  {
    FieldBounds(ATTR_ENTRY, row);
    Powers();
    AttrWidthsAre();
    Attr(row[0], value)
  }

  predicate AttrRowsOk(rows: seq<seq<nat>>)
    requires forall i :: 0 <= i < |rows| ==> |rows[i]| == 3
  {
    && (forall i :: 0 <= i < |rows| ==> rows[i][1] == 0)
    && (forall i, j :: 0 <= i < j < |rows| ==> rows[i][0] < rows[j][0])
  }

  function ParseAttrs(utf8: text -> bool, key: u64, body: seq<byte>): (r: Option<Op>)
    ensures r.Some? ==> r.value.Attrs? && r.value.key == key
  {
    Widths();
    AttrWidthsAre();
    if |body| < 8 then None
    else
      var v := Fields(COUNT8, body[..8]);
      var w := Times(v[0], 8);
      if v[1] != 0 || v[0] > MAX_ATTRS || |body| - 8 < w then None
      else
        var rows := Rows(ATTR_ENTRY, body[8..8 + w], v[0]);
        var ts := Texts(utf8, rows, 2, body[8 + w..], MAX_ATTR_LEN);
        if !AttrRowsOk(rows) || ts.None? then None
        else Some(Attrs(key, seq(v[0], i requires 0 <= i < v[0] => AttrOf(rows[i], ts.value[i]))))
  }

  lemma AttrRowsFit(attrs: seq<Attr>)
    requires forall i :: 0 <= i < |attrs| ==> |attrs[i].value| <= MAX_ATTR_LEN
    ensures |AttrRows(attrs)| == |attrs|
    ensures forall i :: 0 <= i < |attrs| ==>
      var row := AttrRows(attrs)[i];
      |row| == 3 && Fitting(ATTR_ENTRY, row) && row[0] == attrs[i].k && row[1] == 0 && row[2] == |attrs[i].value|
      && AttrOf(row, attrs[i].value) == attrs[i]
  {
    hide Fitting;
    Powers();
    AttrWidthsAre();
    forall i | 0 <= i < |attrs| ensures Fitting(ATTR_ENTRY, AttrRows(attrs)[i]) {
      FitsBounds(ATTR_ENTRY, AttrRows(attrs)[i]);
    }
  }

  lemma AttrsReadBack(utf8: text -> bool, key: u64, attrs: seq<Attr>)
    requires LegalBody(utf8, Attrs(key, attrs))
    ensures ParseAttrs(utf8, key, AttrsBody(attrs)) == Some(Attrs(key, attrs))
  {
    hide Pack, PackAll, Fields, Fitting, Rows, AttrOf, Texts, AttrRows, Concat;
    Widths();
    AttrWidthsAre();
    AttrRowsFit(attrs);
    var body, rows, ts := AttrsBody(attrs), AttrRows(attrs), Values(attrs);
    var w := Times(|attrs|, 8);
    assert body[..8] == Pack(COUNT8, [|attrs|, 0]) && body[8..8 + w] == PackAll(ATTR_ENTRY, rows) && body[8 + w..] == Concat(ts);
    CountFits(|attrs|);
    FieldsOfPack(COUNT8, [|attrs|, 0], body[..8]);
    RowsOfPack(ATTR_ENTRY, rows, body[8..8 + w]);
    TextsReadBack(utf8, rows, 2, ts, MAX_ATTR_LEN);
    var read := seq(|attrs|, i requires 0 <= i < |attrs| => AttrOf(rows[i], ts[i]));
    assert read == attrs;
  }

  lemma AttrRowOf(row: seq<nat>, value: text)
    requires Fitting(ATTR_ENTRY, row) && |row| == 3 && row[1] == 0 && row[2] == |value|
    ensures var a := AttrOf(row, value); [a.k as nat, 0, |a.value|] == row && a.value == value && a.k == row[0]
  {
  }

  lemma AttrsAreCanonical(utf8: text -> bool, key: u64, body: seq<byte>)
    requires ParseAttrs(utf8, key, body).Some?
    ensures var op := ParseAttrs(utf8, key, body).value; LegalBody(utf8, op) && AttrsBody(op.attrs) == body
  {
    hide Pack, PackAll, Fields, Fitting, Rows, AttrOf, Texts, Concat;
    Widths();
    AttrWidthsAre();
    var v := Fields(COUNT8, body[..8]);
    var w := Times(v[0], 8);
    var rows := Rows(ATTR_ENTRY, body[8..8 + w], v[0]);
    var ts := Texts(utf8, rows, 2, body[8 + w..], MAX_ATTR_LEN).value;
    TextsAreCanonical(utf8, rows, 2, body[8 + w..], MAX_ATTR_LEN);
    var attrs := ParseAttrs(utf8, key, body).value.attrs;
    forall i | 0 <= i < |rows|
      ensures AttrRows(attrs)[i] == rows[i] && attrs[i].value == ts[i] && attrs[i].k == rows[i][0]
    {
      AttrRowOf(rows[i], ts[i]);
    }
    assert AttrRows(attrs) == rows && Values(attrs) == ts;
    FieldsOfPack(COUNT8, v, body[..8]);
    assert v == [|attrs|, 0];
    RowsOfPack(ATTR_ENTRY, rows, body[8..8 + w]);
    assert body == body[..8] + body[8..8 + w] + body[8 + w..];
  }
}
