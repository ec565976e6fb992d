/** A base file by position: where each field of a record stands, what the owner bytes say, and
    that every text an opened file gives is UTF-8. */
module BaseLayout {
  import opened Ops
  import opened ByteCodec
  import opened Csr
  import opened BaseFile
  import opened BaseOpen
  import T = Tables
  import opened Merge
  import C = Container
  import I = InEdges

  /** Row `i` of a section, and where it starts. */
  lemma RowIs(ws: Layout, b: seq<byte>, n: nat, i: nat)
    requires |b| == Times(n, Total(ws)) && i < n
    ensures var p := Times(i, Total(ws)); p + Total(ws) <= |b| && Rows(ws, b, n)[i] == Fields(ws, b[p..p + Total(ws)])
  {
    hide Unpack, UnpackAll;
    RowOffset(ws, b, n, i);
  }

  // ---- records ---------------------------------------------------------------------------------

  lemma NodeField(b: seq<byte>, n: nat, i: nat, k: nat)
    requires |b| == 72 * n && i < n && k < 16
    ensures Len(NODE) == 16 && Total(NODE) == 72 && Times(n, 72) == 72 * n
    ensures var o, v := 72 * i + Offset(NODE, k), Rows(NODE, b, n)[i][k];
            && o + Width(NODE, k) <= |b|
            && (Width(NODE, k) == 2 ==> v == At2(b, o))
            && (Width(NODE, k) == 4 ==> v == At4(b, o))
            && (Width(NODE, k) == 8 ==> v == At8(b, o))
  {
    hide At2, At4, At8, Fields, Rows, Fitting, Total, Len, Offset, Width, Times;
    HeadLayout();
    Multiples(n);
    Multiples(i);
    RowIs(NODE, b, n, i);
    FieldAt(NODE, b, 72 * i, k);
  }

  /** A node record: key, hash, times, the four label offsets, the segment run, flags, interval,
      counters, in-degree. */
  lemma NodeAt(h: Header, s: Sections, i: nat)
    requires Lengths(h, s) && i < h.nodes
    ensures 72 * i + 72 <= |s.nodes|
    ensures var b, o, r := s.nodes, 72 * i, TablesOf(h, s).nodes[i];
            && r.key == At8(b, o) && r.hash == At8(b, o + 8) && r.fetched == At8(b, o + 16) && r.lastChange == At8(b, o + 24)
            && r.urlOff == At4(b, o + 32) && r.titleOff == At4(b, o + 36) && r.snippetOff == At4(b, o + 40) && r.etagOff == At4(b, o + 44)
            && r.segStart == At4(b, o + 48) && r.segCount == At2(b, o + 52) && r.flags == At2(b, o + 54)
            && r.interval == At4(b, o + 56) && r.checks == At2(b, o + 60) && r.changes == At2(b, o + 62) && r.inDegree == At4(b, o + 64)
  {
    hide At2, At4, At8, Fields, Rows, Fitting, Total, Len, Offset, Width, Times, NodeRows;
    var row := NodeRows(h, s)[i];
    NodeRowFields(h, s, i);
    NodeFromRow(h, s, i);
  }

  /** Field by field. */
  lemma NodeRowFields(h: Header, s: Sections, i: nat)
    requires Lengths(h, s) && i < h.nodes
    ensures 72 * i + 72 <= |s.nodes|
    ensures var b, o, v := s.nodes, 72 * i, NodeRows(h, s)[i];
            && v[0] == At8(b, o) && v[1] == At8(b, o + 8) && v[2] == At8(b, o + 16) && v[3] == At8(b, o + 24)
            && v[4] == At4(b, o + 32) && v[5] == At4(b, o + 36) && v[6] == At4(b, o + 40) && v[7] == At4(b, o + 44)
            && v[8] == At4(b, o + 48) && v[9] == At2(b, o + 52) && v[10] == At2(b, o + 54) && v[11] == At4(b, o + 56)
            && v[12] == At2(b, o + 60) && v[13] == At2(b, o + 62) && v[14] == At4(b, o + 64)
  {
    hide At2, At4, At8, Fields, Rows, Fitting, Total, Len, Offset, Width, Times;
    HeadLayout();
    forall k | 0 <= k < 16
      ensures var w, o, v := Width(NODE, k), 72 * i + Offset(NODE, k), NodeRows(h, s)[i][k];
              && o + w <= |s.nodes| && (w == 2 ==> v == At2(s.nodes, o)) && (w == 4 ==> v == At4(s.nodes, o))
              && (w == 8 ==> v == At8(s.nodes, o))
    {
      NodeField(s.nodes, h.nodes, i, k);
    }
    NodeOffsets();
    TailWidths();
    TailOffsets();
    NodeLayout(0);
    NodeLayout(1);
    NodeLayout(2);
    NodeLayout(3);
    NodeLayout(4);
    NodeLayout(5);
    NodeLayout(6);
    NodeLayout(7);
    NodeLayout(8);
    NodeLayout(9);
    NodeLayout(10);
    NodeLayout(11);
    NodeLayout(12);
    NodeLayout(13);
    NodeLayout(14);
  }

  lemma NodeFromRow(h: Header, s: Sections, i: nat)
    requires Lengths(h, s) && i < h.nodes
    ensures var r, v := TablesOf(h, s).nodes[i], NodeRows(h, s)[i];
            [r.key as nat, r.hash, r.fetched, r.lastChange, r.urlOff, r.titleOff, r.snippetOff, r.etagOff,
             r.segStart, r.segCount, r.flags, r.interval, r.checks, r.changes, r.inDegree] == v[..15]
  {
    hide Rows, Fitting;
  }

  lemma OtherOffsets()
    ensures Total(SEG) == 24 && Len(SEG) == 7 && Total(EDGE) == 8 && Len(EDGE) == 4 && Total(ATTR) == 12 && Len(ATTR) == 4
    ensures Offset(SEG, 0) == 0 && Offset(SEG, 1) == 8 && Offset(SEG, 2) == 12 && Offset(SEG, 3) == 16 && Offset(SEG, 4) == 20
    ensures Offset(SEG, 5) == 22 && Offset(SEG, 6) == 23
    ensures Offset(EDGE, 0) == 0 && Offset(EDGE, 1) == 4 && Offset(EDGE, 2) == 5 && Offset(EDGE, 3) == 6
    ensures Offset(ATTR, 0) == 0 && Offset(ATTR, 2) == 4 && Offset(ATTR, 3) == 8
    ensures Width(SEG, 0) == 8 && Width(SEG, 1) == 4 && Width(SEG, 2) == 4 && Width(SEG, 3) == 4 && Width(SEG, 4) == 2
    ensures Width(SEG, 5) == 1 && Width(SEG, 6) == 1
    ensures Width(EDGE, 0) == 4 && Width(EDGE, 1) == 1 && Width(EDGE, 2) == 1 && Width(EDGE, 3) == 2
    ensures Width(ATTR, 0) == 1 && Width(ATTR, 2) == 4 && Width(ATTR, 3) == 4
  {
  }

  /** A segment record: key, range, heading, importance, depth, flags. */
  lemma SegAt(h: Header, s: Sections, i: nat)
    requires Lengths(h, s) && i < h.segs
    ensures 24 * i + 24 <= |s.segs|
    ensures var b, o, r := s.segs, 24 * i, TablesOf(h, s).segs[i];
            && r.segKey == At8(b, o) && r.start == At4(b, o + 8) && r.len == At4(b, o + 12) && r.headingOff == At4(b, o + 16)
            && r.importance == At2(b, o + 20) && r.depth == b[o + 22] && r.flags == b[o + 23]
  {
    hide At2, At4, At8, Fields, Rows, Fitting, Total, Len, Offset, Width, Times;
    OtherOffsets();
    Multiples(h.segs);
    Multiples(i);
    RowIs(SEG, s.segs, h.segs, i);
    FieldAt(SEG, s.segs, 24 * i, 0);
    FieldAt(SEG, s.segs, 24 * i, 1);
    FieldAt(SEG, s.segs, 24 * i, 2);
    FieldAt(SEG, s.segs, 24 * i, 3);
    FieldAt(SEG, s.segs, 24 * i, 4);
    FieldAt(SEG, s.segs, 24 * i, 5);
    FieldAt(SEG, s.segs, 24 * i, 6);
  }

  /** An edge record of a run of `n`: the other node, type, flags, weight. */
  lemma EdgeAt(b: seq<byte>, n: nat, i: nat)
    requires |b| == 8 * n && i < n
    ensures 8 * i + 8 <= |b|
    ensures var o, e := 8 * i, EdgeRecOf(EdgeRowsOf(b, n)[i]);
            e.node == At4(b, o) && e.etype == b[o + 4] && e.flags == b[o + 5] && e.weight == At2(b, o + 6)
  {
    hide At2, At4, At8, Fields, Rows, Fitting, Total, Len, Offset, Width, Times;
    OtherOffsets();
    Multiples(n);
    Multiples(i);
    RowIs(EDGE, b, n, i);
    FieldAt(EDGE, b, 8 * i, 0);
    FieldAt(EDGE, b, 8 * i, 1);
    FieldAt(EDGE, b, 8 * i, 2);
    FieldAt(EDGE, b, 8 * i, 3);
  }

  /** An attribute record: key, where its value is and how long. */
  lemma AttrAt(b: seq<byte>, i: nat)
    requires |b| % 12 == 0 && i < |b| / 12
    ensures 12 * i + 12 <= |b|
    ensures var o, a := 12 * i, AttrRowOf(AttrRowsOf(b)[i]); a.k == b[o] && a.off == At4(b, o + 4) && a.len == At4(b, o + 8)
  {
    hide At2, At4, At8, Fields, Rows, Fitting, Total, Len, Offset, Width, Times;
    OtherOffsets();
    Multiples(|b| / 12);
    Multiples(i);
    RowIs(ATTR, b, |b| / 12, i);
    FieldAt(ATTR, b, 12 * i, 0);
    FieldAt(ATTR, b, 12 * i, 2);
    FieldAt(ATTR, b, 12 * i, 3);
  }

  lemma AttrPad()
    ensures Total(ATTR) == 12 && Len(ATTR) == 4 && Offset(ATTR, 1) == 1 && Width(ATTR, 1) == 3
  {
  }

  /** The three bytes between an attribute's key and its offset are zero in any base that opens. */
  lemma AttrReserved(utf8: Utf8, h: Header, s: Sections, i: nat)
    requires Lengths(h, s) && GraphOk(utf8, h, s) && h.nodes > 0 && i < |s.attrs| / 12
    ensures 12 * i + 12 <= |s.attrs| && s.attrs[12 * i + 1] == s.attrs[12 * i + 2] == s.attrs[12 * i + 3] == 0
  {
    hide LabelOk, NodeOk, Monotone, CsrOk, Words, NodeRows, SegRows, EdgeRowsOf, Fields, Rows, Fitting, Total, Len, Offset, Width, Times;
    AttrPad();
    assert AttrOk(utf8, s.blobs, AttrRowsOf(s.attrs)[i]);
    PadIsZero(s.attrs, i);
  }

  lemma PadIsZero(b: seq<byte>, i: nat)
    requires |b| % 12 == 0 && i < |b| / 12 && AttrRowsOf(b)[i][1] == 0
    ensures 12 * i + 12 <= |b| && b[12 * i + 1] == b[12 * i + 2] == b[12 * i + 3] == 0
  {
    hide Unpack, Rows, Fitting, Total, Len, Offset, Width, Times;
    AttrPad();
    Multiples(|b| / 12);
    Multiples(i);
    RowIs(ATTR, b, |b| / 12, i);
    var row := b[12 * i..12 * i + 12];
    FieldOffset(ATTR, row, 1);
    LEOfNum(row[1..4]);
    assert LE(0, 3) == [0, 0, 0];
    assert row[1..4][0] == row[1] && row[1..4][1] == row[2] && row[1..4][2] == row[3];
  }

  lemma WordOffsets()
    ensures Total(LEX) == 24 && Len(LEX) == 5 && Total(TRI) == 12 && Len(TRI) == 3
    ensures Offset(LEX, 0) == 0 && Offset(LEX, 1) == 8 && Offset(LEX, 2) == 12 && Offset(LEX, 3) == 16 && Offset(LEX, 4) == 20
    ensures Offset(TRI, 0) == 0 && Offset(TRI, 1) == 4 && Offset(TRI, 2) == 8
    ensures Total(OWNER) == 40 && Len(OWNER) == 7 && Offset(OWNER, 0) == 0 && Offset(OWNER, 1) == 4 && Offset(OWNER, 2) == 8
    ensures Offset(OWNER, 3) == 12 && Offset(OWNER, 4) == 16 && Offset(OWNER, 5) == 24 && Offset(OWNER, 6) == 32
  {
  }

  /** A token record: hash, node count, where its postings are and how long, its text. */
  lemma TokenAt(h: Header, s: Sections, i: nat)
    requires Lengths(h, s) && i < h.tokens
    ensures 24 * i + 24 <= |s.lexicon|
    ensures var b, o := s.lexicon, 24 * i;
            LexRows(h, s)[i] == [At8(b, o), At4(b, o + 8), At4(b, o + 12), At4(b, o + 16), At4(b, o + 20)]
  {
    hide At2, At4, At8, Fields, Rows, Fitting, Total, Len, Offset, Width, Times;
    LexWidths();
    WordOffsets();
    Multiples(h.tokens);
    Multiples(i);
    RowIs(LEX, s.lexicon, h.tokens, i);
    FieldAt(LEX, s.lexicon, 24 * i, 0);
    FieldAt(LEX, s.lexicon, 24 * i, 1);
    FieldAt(LEX, s.lexicon, 24 * i, 2);
    FieldAt(LEX, s.lexicon, 24 * i, 3);
    FieldAt(LEX, s.lexicon, 24 * i, 4);
  }

  /** A trigram record: the trigram, where its run is and how long. */
  lemma TrigramAt(b: seq<byte>, i: nat)
    requires |b| % 12 == 0 && i < |b| / 12
    ensures 12 * i + 12 <= |b| && TriRows(b)[i] == [At4(b, 12 * i), At4(b, 12 * i + 4), At4(b, 12 * i + 8)]
  {
    hide At2, At4, At8, Fields, Rows, Fitting, Total, Len, Offset, Width, Times;
    LexWidths();
    WordOffsets();
    Multiples(|b| / 12);
    Multiples(i);
    RowIs(TRI, b, |b| / 12, i);
    FieldAt(TRI, b, 12 * i, 0);
    FieldAt(TRI, b, 12 * i, 1);
    FieldAt(TRI, b, 12 * i, 2);
  }

  /** The owner bytes: counts, then generation, last folded sequence number, creation time. */
  lemma OwnerAt(owner: seq<byte>)
    requires |owner| == C.OWNER_LEN
    ensures CountsIn(owner) == Header(At4(owner, 0), At4(owner, 4), At4(owner, 8), At4(owner, 12))
    ensures OwnerFields(owner)[4..] == [At8(owner, 16), At8(owner, 24), At8(owner, 32)]
  {
    hide At2, At4, At8, Fields, Fitting, Total, Len, Offset, Width;
    OwnerWidths();
    WordOffsets();
    assert owner[0..0 + 40] == owner[..40];
    FieldAt(OWNER, owner, 0, 0);
    FieldAt(OWNER, owner, 0, 1);
    FieldAt(OWNER, owner, 0, 2);
    FieldAt(OWNER, owner, 0, 3);
    FieldAt(OWNER, owner, 0, 4);
    FieldAt(OWNER, owner, 0, 5);
    FieldAt(OWNER, owner, 0, 6);
  }

  // ---- texts --------------------------------------------------------------------------------------

  /** A text is UTF-8, or empty where a record has none. */
  predicate Readable(utf8: Utf8, t: text) { t == [] || utf8(t) }

  lemma LabelReadable(utf8: Utf8, labels: seq<byte>, off: nat)
    requires LabelOk(utf8, labels, off)
    ensures T.LabelFits(labels, off)
    ensures T.LabelAt(labels, off).Some? ==> utf8(T.LabelAt(labels, off).value)
    ensures Readable(utf8, T.Text(T.LabelAt(labels, off)))
  {
    hide T.PrefixAt;
  }

  /** Whatever file opens, every text read of it is UTF-8: a node's URL, title, snippet and etag,
      its headings and attribute values, and the tokens. */
  lemma OpenedTextsAreUtf8(hash: C.Hash, utf8: Utf8, bytes: seq<byte>, d: C.Dir)
    requires Opens(hash, utf8, bytes, d)
    ensures var h, s := CountsIn(d.owner), SectionsAt(d, bytes);
            var t := TablesOf(h, s);
            && T.InBounds(t) && |t.nodes| == h.nodes
            && (forall i :: 0 <= i < h.nodes ==> DocReadable(utf8, T.DocAt(t, i)))
            && forall i :: 0 <= i < h.tokens ==> Readable(utf8, VocabularyIn(h, s).tokens[i])
  {
    hide C.Accepted, T.InBounds, T.DocAt, LexOk, LabelOk, VocabularyIn, DocReadable, TablesOf, GraphOk, LexiconOk, Lengths;
    var h, s := CountsIn(d.owner), SectionsAt(d, bytes);
    CheckedInBounds(utf8, h, s);
    NodeCount(h, s);
    forall i | 0 <= i < h.nodes ensures DocReadable(utf8, T.DocAt(TablesOf(h, s), i)) { DocIsReadable(utf8, h, s, i); }
    forall i | 0 <= i < h.tokens ensures Readable(utf8, VocabularyIn(h, s).tokens[i]) { TokenIsReadable(utf8, h, s, i); }
  }

  predicate DocReadable(utf8: Utf8, d: BaseDoc) {
    && Readable(utf8, d.rec.url) && (d.rec.title.Some? ==> utf8(d.rec.title.value))
    && (d.rec.snippet.Some? ==> utf8(d.rec.snippet.value)) && (d.rec.etag.Some? ==> utf8(d.rec.etag.value))
    && (forall j :: 0 <= j < |d.segs| ==> Readable(utf8, d.segs[j].heading))
    && forall j :: 0 <= j < |d.attrs| ==> utf8(d.attrs[j].value)
  }

  lemma NodeCount(h: Header, s: Sections)
    requires Lengths(h, s)
    ensures |TablesOf(h, s).nodes| == h.nodes
  {
    hide Rows, Fitting;
  }

  lemma TokenIsReadable(utf8: Utf8, h: Header, s: Sections, i: nat)
    requires Lengths(h, s) && LexiconOk(utf8, h, s) && i < h.tokens
    ensures Readable(utf8, VocabularyIn(h, s).tokens[i])
  {
    hide LexRows, LabelOk, Rows, Words, TriRows, Post;
    assert LexOk(utf8, s.labels, |s.postings|, LexRows(h, s)[i]);
    LabelReadable(utf8, s.labels, LexRows(h, s)[i][4]);
  }

  lemma DocIsReadable(utf8: Utf8, h: Header, s: Sections, i: nat)
    requires Lengths(h, s) && GraphOk(utf8, h, s) && T.InBounds(TablesOf(h, s)) && |TablesOf(h, s).nodes| == h.nodes && i < h.nodes
    ensures DocReadable(utf8, T.DocAt(TablesOf(h, s), i))
  {
    hide LabelOk, T.LabelFits, T.LabelAt, TablesOf, T.InBounds, GraphOk, Lengths, T.EdgesAt, T.AttrsAt, T.SegAt;
    var t := TablesOf(h, s);
    var r := t.nodes[i];
    RecordReadable(utf8, h, s, i);
    RunInside(t, i);
    var doc := T.DocAt(t, i);
    forall j | 0 <= j < |doc.segs| ensures Readable(utf8, doc.segs[j].heading) {
      HeadingReadable(utf8, h, s, r.segStart + j);
    }
    AttrsReadable(utf8, h, s, i);
  }

  lemma RunInside(t: T.Tables, i: nat)
    requires T.InBounds(t) && i < |t.nodes|
    ensures t.nodes[i].segStart + t.nodes[i].segCount <= |t.segs|
  {
    hide T.LabelFits, T.HeadingsFit, T.IndexFits;
  }

  lemma RecordReadable(utf8: Utf8, h: Header, s: Sections, i: nat)
    requires Lengths(h, s) && GraphOk(utf8, h, s) && i < h.nodes
    ensures var r := TablesOf(h, s).nodes[i];
            && T.LabelFits(s.labels, r.urlOff) && Readable(utf8, T.Text(T.LabelAt(s.labels, r.urlOff)))
            && T.LabelFits(s.labels, r.titleOff) && LabelSound(utf8, s.labels, r.titleOff)
            && T.LabelFits(s.labels, r.snippetOff) && LabelSound(utf8, s.labels, r.snippetOff)
            && T.LabelFits(s.labels, r.etagOff) && LabelSound(utf8, s.labels, r.etagOff)
            && TablesOf(h, s).labels == s.labels
  {
    hide LabelOk, T.LabelFits, T.LabelAt, Rows, Fitting, NodeRows, SegRows, Monotone, CsrOk, AttrOk, Words, IndexOf;
    var v := NodeRows(h, s)[i];
    NodeFromRow(h, s, i);
    assert NodeOk(utf8, h, s.labels, v);
    LabelReadable(utf8, s.labels, v[4]);
    LabelReadable(utf8, s.labels, v[5]);
    LabelReadable(utf8, s.labels, v[6]);
    LabelReadable(utf8, s.labels, v[7]);
  }

  predicate LabelSound(utf8: Utf8, labels: seq<byte>, off: nat)
    requires T.LabelFits(labels, off)
  {
    T.LabelAt(labels, off).Some? ==> utf8(T.LabelAt(labels, off).value)
  }

  lemma HeadingReadable(utf8: Utf8, h: Header, s: Sections, j: nat)
    requires Lengths(h, s) && GraphOk(utf8, h, s) && T.InBounds(TablesOf(h, s)) && j < |TablesOf(h, s).segs|
    ensures Readable(utf8, T.SegAt(TablesOf(h, s), j).heading)
  {
    hide LabelOk, T.LabelFits, T.LabelAt, Rows, Fitting, NodeRows, SegRows, Monotone, CsrOk, AttrOk, NodeOk, Words, IndexOf, T.InBounds;
    HeadingField(h, s, j);
    assert LabelOk(utf8, s.labels, SegRows(h, s)[j][3]);
    LabelReadable(utf8, s.labels, SegRows(h, s)[j][3]);
  }

  lemma HeadingField(h: Header, s: Sections, j: nat)
    requires Lengths(h, s) && j < h.segs
    ensures TablesOf(h, s).segs[j].headingOff == SegRows(h, s)[j][3] && TablesOf(h, s).labels == s.labels
  {
    hide Rows, Fitting;
  }

  lemma AttrsReadable(utf8: Utf8, h: Header, s: Sections, i: nat)
    requires Lengths(h, s) && GraphOk(utf8, h, s) && T.InBounds(TablesOf(h, s)) && i < |TablesOf(h, s).nodes| == h.nodes
    ensures forall j :: 0 <= j < |T.AttrsAt(TablesOf(h, s), i)| ==> utf8(T.AttrsAt(TablesOf(h, s), i)[j].value)
  {
    hide T.InBounds, GraphOk, TablesOf, Lengths;
    var t := TablesOf(h, s);
    I.IndexInBounds(t, i);
    forall k | 0 <= k < |t.attrs|
      ensures t.attrs[k].off + t.attrs[k].len <= |t.blobs| && utf8(t.blobs[t.attrs[k].off..t.attrs[k].off + t.attrs[k].len])
    {
      AttrReadable(utf8, h, s, k);
    }
  }

  lemma AttrReadable(utf8: Utf8, h: Header, s: Sections, k: nat)
    requires Lengths(h, s) && GraphOk(utf8, h, s) && k < |TablesOf(h, s).attrs|
    ensures var t := TablesOf(h, s);
            t.attrs[k].off + t.attrs[k].len <= |t.blobs| && utf8(t.blobs[t.attrs[k].off..t.attrs[k].off + t.attrs[k].len])
  {
    hide LabelOk, Rows, Fitting, NodeRows, SegRows, Monotone, CsrOk, NodeOk, Words, IndexOf, NodeOf, SegRowOf, EdgeRecOf;
    var v := AttrRowsOf(s.attrs)[k];
    assert AttrOk(utf8, s.blobs, v);
    assert TablesOf(h, s).attrs[k] == AttrRowOf(v);
    AttrFields(v);
  }

  lemma AttrFields(v: seq<nat>)
    requires |v| == 4 && Fitting(ATTR, v)
    ensures AttrRowOf(v).off == v[2] && AttrRowOf(v).len == v[3]
  {
    hide Fitting;
  }
}
