/** The whole base file compaction writes: record tables, vocabulary and search indices as
    sections of one container. It opens, and everything it holds is read back. */
module BaseImage {
  import opened Ops
  import opened ByteCodec
  import opened Merge
  import opened Csr
  import opened BaseFile
  import opened BaseWrite
  import opened BaseOpen
  import opened T = Tables
  import I = InEdges
  import L = Lexicon
  import LB = LexiconBuild
  import O = TextOrder
  import C = Container
  import Trip = ContainerTrip
  import P = Postings
  import X = Indexing

  // ---- the vocabulary ------------------------------------------------------------------------------

  predicate WordOk(hash: text -> u64, utf8: Utf8, n: nat, w: X.Word) {
    && w.hash == hash(w.token) && |w.token| < 0x1_0000 && utf8(w.token)
    && w.ids != [] && P.Ascending(w.ids) && forall k :: 0 <= k < |w.ids| ==> w.ids[k] < n
  }

  /** What indexing collects: tokens in hash order, each with its nodes in order. */
  predicate Vocabulary(hash: text -> u64, utf8: Utf8, n: nat, words: seq<X.Word>) {
    && (forall i :: 0 <= i < |words| ==> WordOk(hash, utf8, n, words[i]))
    && X.HashesAscend(words)
  }

  function RunOf(w: X.Word): seq<byte>
    requires P.Ascending(w.ids)
  {
    P.Encode(w.ids, 0)
  }

  /** A token's record: hash, node count, where its postings and its text are. */
  predicate WordHeld(v: seq<nat>, w: X.Word, labels: seq<byte>, postings: seq<byte>)
    requires P.Ascending(w.ids)
  {
    && |v| == 5 && v[0] == w.hash && v[1] == |w.ids|
    && v[2] + v[3] <= |postings| && postings[v[2]..v[2] + v[3]] == RunOf(w)
    && Holds(labels, v[4], Some(w.token))
  }

  lemma WordHeldGrows(v: seq<nat>, w: X.Word, labels: seq<byte>, postings: seq<byte>, labels': seq<byte>, postings': seq<byte>)
    requires P.Ascending(w.ids) && WordHeld(v, w, labels, postings) && labels <= labels' && postings <= postings'
    ensures WordHeld(v, w, labels', postings')
  {
    hide Holds, RunOf;
    StillHeld(labels, labels', v[4], Some(w.token));
    assert postings'[v[2]..v[2] + v[3]] == postings[v[2]..v[2] + v[3]];
  }

  /** Every token's record. */
  predicate RowsHeld(words: seq<X.Word>, rows: seq<seq<nat>>, labels: seq<byte>, postings: seq<byte>) {
    && |rows| == |words|
    && forall i :: 0 <= i < |words| ==> P.Ascending(words[i].ids) && WordHeld(rows[i], words[i], labels, postings)
  }

  /** One token more: its text, its postings and its record behind those of the others. */
  lemma RowsHeldSnoc(words: seq<X.Word>, i: nat, rows: seq<seq<nat>>, labels: seq<byte>, postings: seq<byte>,
                     labels': seq<byte>, run: seq<byte>, off: nat)
    requires i < |words| && RowsHeld(words[..i], rows, labels, postings) && labels <= labels'
    requires P.Ascending(words[i].ids) && run == RunOf(words[i]) && Holds(labels', off, Some(words[i].token))
    ensures RowsHeld(words[..i + 1], rows + [[words[i].hash as nat, |words[i].ids|, |postings|, |run|, off]], labels', postings + run)
  {
    hide Holds, P.Ascending, RunOf, WordHeld;
    NewWordHeld(words[i], labels', postings, run, off);
    forall j | 0 <= j < i ensures P.Ascending(words[j].ids) && WordHeld(rows[j], words[j], labels', postings + run) {
      assert words[..i][j] == words[j];
      WordHeldGrows(rows[j], words[j], labels, postings, labels', postings + run);
    }
  }

  lemma NoRowsHeld(labels: seq<byte>)
    ensures RowsHeld([], [], labels, [])
  {
  }

  /** What a token adds to the label heap, and to the postings. */
  function TokenSize(w: X.Word): nat { LabelSize(Some(w.token)) }

  function RunSize(w: X.Word): nat { if P.Ascending(w.ids) then |RunOf(w)| else 0 }

  /** Token texts go to the label heap behind the nodes' own, postings to their own heap. Both
      grow by exactly what the tokens need; the records hold their tokens unless there are more
      labels than a 32-bit offset can tell apart. */
  method RenderWords(hash: text -> u64, utf8: Utf8, n: nat, words: seq<X.Word>, labels: seq<byte>)
    returns (rows: seq<seq<nat>>, labels': seq<byte>, postings: seq<byte>)
    requires Vocabulary(hash, utf8, n, words)
    ensures |rows| == |words| && TokenRows(rows) && labels <= labels'
    ensures |labels'| == |labels| + SumOf(words, TokenSize) && |postings| == SumOf(words, RunSize)
    ensures forall i :: 0 <= i < |words| ==> rows[i][0] == words[i].hash && rows[i][1] == |words[i].ids|
    ensures |labels| + SumOf(words, TokenSize) <= NO_LABEL ==> RowsHeld(words, rows, labels', postings)
  {
    hide Holds, P.Encode, P.Ascending, RunOf, Truncated, RowsHeld, SumOf;
    SumOfNone(words, TokenSize);
    SumOfNone(words, RunSize);
    rows, labels', postings := [], labels, [];
    NoRowsHeld(labels);
    for i := 0 to |words|
      invariant |rows| == i && TokenRows(rows) && labels <= labels'
      invariant |labels'| == |labels| + SumOf(words[..i], TokenSize) && |postings| == SumOf(words[..i], RunSize)
      invariant forall j :: 0 <= j < i ==> rows[j][0] == words[j].hash && rows[j][1] == |words[j].ids|
      invariant |labels'| <= NO_LABEL ==> RowsHeld(words[..i], rows, labels', postings)
    {
      var w := words[i];
      SumOfStep(words, TokenSize, i);
      SumOfStep(words, RunSize, i);
      assert WordOk(hash, utf8, n, w);
      var run := EncodedRun(w);
      var grown, off := PushLabel(labels', Some(w.token));
      if |grown| <= NO_LABEL { RowsHeldSnoc(words, i, rows, labels', postings, grown, run, off); }
      rows := rows + [[w.hash as nat, |w.ids|, |postings|, |run|, off]];
      labels', postings := grown, postings + run;
    }
    assert words[..|words|] == words;
  }

  lemma NewWordHeld(w: X.Word, labels: seq<byte>, postings: seq<byte>, run: seq<byte>, off: nat)
    requires P.Ascending(w.ids) && run == RunOf(w) && Holds(labels, off, Some(w.token))
    ensures WordHeld([w.hash as nat, |w.ids|, |postings|, |run|, off], w, labels, postings + run)
  {
    hide Holds, RunOf;
    assert (postings + run)[|postings|..|postings| + |run|] == run;
  }

  method EncodedRun(w: X.Word) returns (run: seq<byte>)
    requires P.Ascending(w.ids)
    ensures run == RunOf(w)
  {
    hide P.Encode, P.Ascending;
    run := P.EncodePostings(w.ids, []);
  }

  // ---- the vocabulary's sections ---------------------------------------------------------------------

  function TriRowOf(r: L.TriRec): (v: seq<nat>)
    ensures |v| == 3
  {
    [r.gram, r.off, r.len]
  }

  function TriRowsOf(tri: seq<L.TriRec>): (rows: seq<seq<nat>>)
    ensures |rows| == |tri| && forall i :: 0 <= i < |rows| ==> |rows[i]| == 3
  {
    seq(|tri|, i requires 0 <= i < |tri| => TriRowOf(tri[i]))
  }

  predicate TokenRows(rows: seq<seq<nat>>) { forall i :: 0 <= i < |rows| ==> |rows[i]| == 5 }

  function LexBytes(rows: seq<seq<nat>>): (b: seq<byte>)
    requires TokenRows(rows)
    ensures |b| == 24 * |rows|
  {
    RecordOffsets();
    Multiples(|rows|);
    PackAll(LEX, rows)
  }

  function TriBytes(tri: seq<L.TriRec>): (b: seq<byte>)
    ensures |b| == 12 * |tri|
  {
    RecordOffsets();
    Multiples(|tri|);
    PackAll(TRI, TriRowsOf(tri))
  }

  function TokenBytesOf(rows: seq<seq<nat>>, postings: seq<byte>, x: L.Index): (w: TokenBytes)
    requires TokenRows(rows) && |x.order| == |rows|
    ensures TokensFit(w, |rows|)
  {
    TokenBytes(LexBytes(rows), postings, WordBytes(x.order), TriBytes(x.tri), WordBytes(x.post))
  }

  lemma LexRowsBack(rows: seq<seq<nat>>)
    requires TokenRows(rows) && forall i :: 0 <= i < |rows| ==> Fitting(LEX, rows[i])
    ensures Total(LEX) == 24 && Times(|rows|, 24) == 24 * |rows|
    ensures Rows(LEX, LexBytes(rows), |rows|) == rows
  {
    hide Fitting, PackAll, UnpackAll;
    RecordOffsets();
    Multiples(|rows|);
    RowsOfPack(LEX, rows, LexBytes(rows));
  }

  predicate TriFits(tri: seq<L.TriRec>) {
    forall i :: 0 <= i < |tri| ==> tri[i].gram < 0x1_0000_0000 && tri[i].off < 0x1_0000_0000 && tri[i].len < 0x1_0000_0000
  }

  lemma TriRowsBack(tri: seq<L.TriRec>)
    requires TriFits(tri)
    ensures TriRows(TriBytes(tri)) == TriRowsOf(tri)
  {
    hide Fitting, PackAll, UnpackAll;
    RecordOffsets();
    Multiples(|tri|);
    var rows := TriRowsOf(tri);
    forall i | 0 <= i < |rows| ensures Fitting(TRI, rows[i]) { TriRowFits(tri[i]); }
    RowsOfPack(TRI, rows, TriBytes(tri));
  }

  lemma TriRowFits(r: L.TriRec)
    requires r.gram < 0x1_0000_0000 && r.off < 0x1_0000_0000 && r.len < 0x1_0000_0000
    ensures Fitting(TRI, TriRowOf(r))
  {
    hide Fitting;
    Powers();
    LexWidths();
    FitsBounds(TRI, TriRowOf(r));
  }

  lemma LexRowFits(v: seq<nat>, w: X.Word, labels: seq<byte>, postings: seq<byte>)
    requires P.Ascending(w.ids) && WordHeld(v, w, labels, postings)
    requires |labels| <= NO_LABEL && |postings| < 0x1_0000_0000 && |w.ids| < 0x1_0000_0000
    ensures Fitting(LEX, v)
  {
    hide Fitting, P.Ascending, RunOf;
    Powers();
    LexWidths();
    FitsBounds(LEX, v);
  }

  // ---- what is written --------------------------------------------------------------------------------

  /** The tables of the documents, the records of the tokens over the same label heap, and the
      search indices over the tokens. */
  ghost predicate Holding(
    hash: text -> u64, utf8: Utf8, t: T.Tables, keys: seq<u64>, docs: seq<BaseDoc>, attrRows: seq<seq<AttrRow>>,
    words: seq<X.Word>, rows: seq<seq<nat>>, postings: seq<byte>, x: L.Index) {
    && Represents(t, keys, docs, attrRows) && Vocabulary(hash, utf8, |docs|, words)
    && RowsHeld(words, rows, t.labels, postings) && TokenRows(rows)
    && L.Indexed(hash, x) && L.Below(x.post, |x.tokens|) && |x.tokens| == |words|
    && forall i :: 0 <= i < |words| ==> x.tokens[i] == words[i].token
  }

  /** Counts and heaps within the file's 32-bit fields, segment runs within 16. */
  predicate Sized(t: T.Tables, words: seq<X.Word>, postings: seq<byte>, x: L.Index) {
    && 0 < |t.nodes| < 0x1_0000_0000 && |t.segs| < 0x1_0000_0000 && |t.edges| < 0x1_0000_0000
    && |t.attrs| < 0x1_0000_0000 && |t.blobs| < 0x1_0000_0000 && |t.labels| <= NO_LABEL
    && |words| < 0x1_0000_0000 && |postings| < 0x1_0000_0000 && |x.post| < 0x1_0000_0000
    && forall i :: 0 <= i < |t.nodes| ==> t.nodes[i].segCount < 0x1_0000
  }

  /** Every text is UTF-8. */
  ghost predicate TextsOk(utf8: Utf8, docs: seq<BaseDoc>) {
    forall i :: 0 <= i < |docs| ==> DocTextsOk(utf8, docs[i])
  }

  predicate TextOk(utf8: Utf8, t: Option<text>) { t.Some? ==> utf8(t.value) }

  predicate DocTextsOk(utf8: Utf8, d: BaseDoc) {
    && TextOk(utf8, UrlLabel(d.rec.url)) && TextOk(utf8, d.rec.title) && TextOk(utf8, d.rec.snippet) && TextOk(utf8, d.rec.etag)
    && (forall i :: 0 <= i < |d.segs| ==> utf8(d.segs[i].heading))
    && forall i :: 0 <= i < |d.attrs| ==> utf8(d.attrs[i].value)
  }

  // ---- the vocabulary reads back -------------------------------------------------------------------------

  function IdSet(ids: seq<nat>): (s: set<nat>)
    ensures forall i :: i in s <==> i in ids
  {
    if ids == [] then {}
    else
      assert ids == ids[..|ids| - 1] + [ids[|ids| - 1]];
      IdSet(ids[..|ids| - 1]) + {ids[|ids| - 1]}
  }

  function FirstIds(n: nat): (s: set<nat>)
    ensures |s| == n && forall i :: i in s <==> 0 <= i < n
  {
    if n == 0 then {} else FirstIds(n - 1) + {n - 1}
  }

  lemma {:induction false} DistinctSize(ids: seq<nat>)
    requires L.Distinct(ids)
    ensures |IdSet(ids)| == |ids|
  {
    if ids != [] {
      var most := ids[..|ids| - 1];
      DistinctSize(most);
      assert ids[|ids| - 1] !in most;
    }
  }

  /** A string order names every token once. */
  lemma OrderLength(tokens: seq<text>, order: seq<nat>)
    requires L.StringOrder(tokens, order)
    ensures |order| == |tokens|
  {
    hide O.Before;
    DistinctSize(order);
    assert forall i :: i in FirstIds(|tokens|) ==> i in order;
    assert IdSet(order) == FirstIds(|tokens|);
  }

  lemma TrigramsFit(tokens: seq<text>, tri: seq<L.TriRec>, post: seq<nat>)
    requires L.Trigrams(tokens, tri, post) && |post| < 0x1_0000_0000
    ensures TriFits(tri)
  {
    hide L.RunLists;
    forall k | 0 <= k < |tri|
      ensures tri[k].gram < 0x1_0000_0000 && tri[k].off < 0x1_0000_0000 && tri[k].len < 0x1_0000_0000
    {
      var r := tri[k];
      assert L.TriRecOk(tokens, r, post);
      var run := post[r.off..r.off + r.len];
      GramSmall(tokens, r.gram, run);
    }
  }

  lemma GramSmall(tokens: seq<text>, gram: nat, run: seq<nat>)
    requires L.RunLists(tokens, gram, run) && run != []
    ensures gram < 0x100_0000
  {
    assert run[0] in run;
  }

  lemma WordsBelow(ws: seq<nat>, n: nat)
    requires L.Below(ws, n) && n <= 0x1_0000_0000
    ensures IndexOf(WordBytes(ws)) == ws && Words(WordBytes(ws), |ws|) == ws
  {
    WordsBack(ws);
  }

  function ImageOf(t: T.Tables, ranks: seq<byte>, rows: seq<seq<nat>>, postings: seq<byte>, x: L.Index): Sections
    requires TokenRows(rows) && |x.order| == |rows|
  {
    SectionsOf(t, ranks, TokenBytesOf(rows, postings, x))
  }

  lemma RowsFit(words: seq<X.Word>, rows: seq<seq<nat>>, labels: seq<byte>, postings: seq<byte>, n: nat,
                hash: text -> u64, utf8: Utf8)
    requires Vocabulary(hash, utf8, n, words) && n < 0x1_0000_0000 && RowsHeld(words, rows, labels, postings)
    requires |labels| <= NO_LABEL && |postings| < 0x1_0000_0000
    ensures forall i :: 0 <= i < |rows| ==> Fitting(LEX, rows[i])
  {
    hide Fitting, WordHeld, P.Ascending;
    forall i | 0 <= i < |rows| ensures Fitting(LEX, rows[i]) {
      AscendingCount(words[i].ids, n);
      LexRowFits(rows[i], words[i], labels, postings);
    }
  }

  /** Ascending ids below `n` are no more than `n`. */
  lemma {:induction false} AscendingCount(ids: seq<nat>, n: nat)
    requires P.Ascending(ids) && forall k :: 0 <= k < |ids| ==> ids[k] < n
    ensures |ids| <= n
  {
    if ids != [] {
      var last := ids[|ids| - 1];
      AscendingCount(ids[..|ids| - 1], last);
    }
  }

  /** The vocabulary's sections read back as the token records and the very indices. */
  lemma VocabularyBack(
    hash: text -> u64, utf8: Utf8, t: T.Tables, keys: seq<u64>, docs: seq<BaseDoc>, attrRows: seq<seq<AttrRow>>,
    words: seq<X.Word>, rows: seq<seq<nat>>, postings: seq<byte>, x: L.Index, ranks: seq<byte>)
    requires Holding(hash, utf8, t, keys, docs, attrRows, words, rows, postings, x)
    requires Sized(t, words, postings, x) && |ranks| == 2 * |t.nodes|
    requires |x.order| == |rows| && Writable(t)
    ensures var h, s := HeaderOf(t, |rows|), ImageOf(t, ranks, rows, postings, x);
            && Lengths(h, s) && TablesOf(h, s) == t
            && LexRows(h, s) == rows && TriRows(s.tri) == TriRowsOf(x.tri) && Post(s) == x.post && Words(s.order, h.tokens) == x.order
            && VocabularyIn(h, s) == x
  {
    hide Represents, Vocabulary, WordHeld, P.Ascending, Fitting, LexBytes, TriBytes, WordBytes, Writable, TablesOf, Words, PackAll, UnpackAll,
      L.StringOrder, L.Trigrams, TokenText, NodeBytes, SegBytes, EdgeBytes, AttrBytes, HashIn;
    var h, s := HeaderOf(t, |rows|), ImageOf(t, ranks, rows, postings, x);
    TablesRoundTrip(t, ranks, TokenBytesOf(rows, postings, x), |rows|);
    assert |docs| == |t.nodes| by { RepresentsCount(t, keys, docs, attrRows); }
    RowsFit(words, rows, t.labels, postings, |docs|, hash, utf8);
    LexRowsBack(rows);
    assert LexRows(h, s) == rows;
    TrigramsFit(x.tokens, x.tri, x.post);
    TriRowsBack(x.tri);
    L.IndexedIsSearchable(hash, x);
    WordsBelow(x.order, |x.tokens|);
    WordsBelow(x.post, |x.tokens|);
    var y := VocabularyIn(h, s);
    forall i | 0 <= i < |rows| ensures y.hashes[i] == x.hashes[i] && y.tokens[i] == x.tokens[i] {
      TokenBack(hash, utf8, |docs|, words, i, rows[i], t.labels, postings);
    }
    assert y.hashes == x.hashes && y.tokens == x.tokens;
    forall i | 0 <= i < |x.tri| ensures y.tri[i] == x.tri[i] { assert TriRowsOf(x.tri)[i] == TriRowOf(x.tri[i]); }
    assert y.tri == x.tri;
  }

  lemma RepresentsCount(t: T.Tables, keys: seq<u64>, docs: seq<BaseDoc>, attrRows: seq<seq<AttrRow>>)
    requires Represents(t, keys, docs, attrRows)
    ensures |docs| == |t.nodes| == |keys|
  {
  }

  lemma TokenBack(hash: text -> u64, utf8: Utf8, n: nat, words: seq<X.Word>, i: nat, v: seq<nat>, labels: seq<byte>, postings: seq<byte>)
    requires Vocabulary(hash, utf8, n, words) && i < |words| && P.Ascending(words[i].ids) && WordHeld(v, words[i], labels, postings)
    requires Fitting(LEX, v)
    ensures HashIn(v) == words[i].hash == hash(words[i].token) && TokenText(labels, v[4]) == words[i].token
    ensures LabelOk(utf8, labels, v[4])
  {
    hide Fitting, P.Ascending, RunOf, Holds, LabelFits, LabelAt, PrefixAt;
    LabelReadsBack(labels, v[4], Some(words[i].token));
    HeldLabelOk(utf8, labels, v[4], Some(words[i].token));
  }

  lemma HeldLabelOk(utf8: Utf8, labels: seq<byte>, off: nat, t: Option<text>)
    requires Holds(labels, off, t) && TextOk(utf8, t)
    ensures LabelOk(utf8, labels, off)
  {
    LabelReadsBack(labels, off, t);
  }

  /** They pass the checks made when a base is opened. */
  lemma VocabularyAccepted(
    hash: text -> u64, utf8: Utf8, t: T.Tables, keys: seq<u64>, docs: seq<BaseDoc>, attrRows: seq<seq<AttrRow>>,
    words: seq<X.Word>, rows: seq<seq<nat>>, postings: seq<byte>, x: L.Index, ranks: seq<byte>)
    requires Holding(hash, utf8, t, keys, docs, attrRows, words, rows, postings, x)
    requires Sized(t, words, postings, x) && |ranks| == 2 * |t.nodes|
    requires |x.order| == |rows| && Writable(t)
    ensures var h, s := HeaderOf(t, |rows|), ImageOf(t, ranks, rows, postings, x);
            Lengths(h, s) && LexiconOk(utf8, h, s)
  {
    hide Represents, Vocabulary, WordHeld, P.Ascending, Fitting, LexBytes, TriBytes, WordBytes, Writable, TablesOf, Words, LexRows, TriRows, Post,
      L.StringOrder, L.Trigrams, TokenText, NodeBytes, SegBytes, EdgeBytes, AttrBytes, HashIn, LabelOk, VocabularyIn, TriRowsOf;
    VocabularyBack(hash, utf8, t, keys, docs, attrRows, words, rows, postings, x, ranks);
    var h, s := HeaderOf(t, |rows|), ImageOf(t, ranks, rows, postings, x);
    L.IndexedIsSearchable(hash, x);
    forall i | 0 <= i < |x.tri| ensures |TriRows(s.tri)[i]| == 3 && TriOk(h.tokens, Post(s), TriRows(s.tri)[i]) {
      TriRowOk(h.tokens, x.tri, x.post, i);
    }
    assert |docs| == |t.nodes| by { RepresentsCount(t, keys, docs, attrRows); }
    RowsFit(words, rows, t.labels, postings, |docs|, hash, utf8);
    forall i | 0 <= i < |rows| ensures LexOk(utf8, s.labels, |s.postings|, rows[i]) && rows[i][0] == words[i].hash {
      TokenBack(hash, utf8, |docs|, words, i, rows[i], t.labels, postings);
      WordBounds(rows[i], words[i], t.labels, postings);
    }
    forall i, j | 0 <= i < j < |rows| ensures rows[i][0] < rows[j][0] { HashesAscend(hash, utf8, |docs|, words, i, j); }
  }

  lemma HashesAscend(hash: text -> u64, utf8: Utf8, n: nat, words: seq<X.Word>, i: nat, j: nat)
    requires Vocabulary(hash, utf8, n, words) && i < j < |words|
    ensures words[i].hash < words[j].hash
  {
  }

  lemma WordBounds(v: seq<nat>, w: X.Word, labels: seq<byte>, postings: seq<byte>)
    requires P.Ascending(w.ids) && WordHeld(v, w, labels, postings)
    ensures |v| == 5 && v[0] == w.hash && v[2] + v[3] <= |postings|
  {
  }

  lemma TriRowOk(n: nat, tri: seq<L.TriRec>, post: seq<nat>, i: nat)
    requires L.TriBounds(n, tri, post) && i < |tri|
    ensures TriOk(n, post, TriRowsOf(tri)[i])
  {
    var r := tri[i];
    var run := post[r.off..r.off + r.len];
    forall k | r.off <= k < r.off + r.len ensures post[k] < n { assert run[k - r.off] == post[k]; }
  }

  // ---- every field fits, every record passes the checks -----------------------------------------------------

  lemma HeldOffset(labels: seq<byte>, off: nat, t: Option<text>)
    requires Holds(labels, off, t) && |labels| <= NO_LABEL
    ensures off < 0x1_0000_0000
  {
  }

  lemma NodeFieldsFit(r: NodeRow, key: u64, d: BaseDoc, labels: seq<byte>, segs: seq<SegRow>)
    requires NodeHeld(r, key, d, labels, segs) && |labels| <= NO_LABEL && |segs| < 0x1_0000_0000
    requires r.segCount < 0x1_0000 && r.inDegree < 0x1_0000_0000
    ensures NodeFits(r)
  {
    hide Holds;
    HeldOffset(labels, r.urlOff, UrlLabel(d.rec.url));
    HeldOffset(labels, r.titleOff, d.rec.title);
    HeldOffset(labels, r.snippetOff, d.rec.snippet);
    HeldOffset(labels, r.etagOff, d.rec.etag);
  }

  lemma IndexFits32(index: seq<nat>, n: nat, total: nat)
    requires IndexFits(index, n, total) && total < 0x1_0000_0000
    ensures Fits32(index)
  {
  }

  /** As many inbound records as outbound ones, and no node has more than there are. */
  lemma InboundSizes(t: T.Tables, keys: seq<u64>, docs: seq<BaseDoc>, attrRows: seq<seq<AttrRow>>)
    requires Represents(t, keys, docs, attrRows)
    ensures |t.inEdges| == |t.edges| && |t.edgeIndex| == |t.nodes| + 1
    ensures forall i :: 0 <= i < |t.nodes| ==> t.nodes[i].inDegree <= |t.inEdges|
  {
    hide NodeHeld, HeadingsFit, SegsTile, AttrsHeld, InboundOf, EdgeRow;
    var rows := EdgeRows(keys, docs);
    EdgeRowsOk(keys, docs);
    InboundCount(rows, |docs|);
    assert InboundRows(rows, |docs|) == InRows(keys, docs);
    forall i | 0 <= i < |t.nodes| ensures t.nodes[i].inDegree <= |t.inEdges| {
      RowOf(t.inIndex, t.inEdges, InRows(keys, docs), i);
    }
  }

  lemma SizesSuffice(t: T.Tables, keys: seq<u64>, docs: seq<BaseDoc>, attrRows: seq<seq<AttrRow>>, words: seq<X.Word>,
                     postings: seq<byte>, x: L.Index)
    requires Represents(t, keys, docs, attrRows) && Sized(t, words, postings, x)
    ensures Writable(t)
  {
    hide NodeHeld, SegsTile, AttrsHeld, IsCsr, IndexFits, NodeFits, EdgeRows, InRows, Renderable, LabelFits, Fits32;
    RenderedInBounds(t, keys, docs, attrRows);
    InboundSizes(t, keys, docs, attrRows);
    RepresentsCount(t, keys, docs, attrRows);
    var n := |t.nodes|;
    forall i | 0 <= i < n ensures NodeFits(t.nodes[i]) {
      NodeFieldsFit(t.nodes[i], keys[i], docs[i], t.labels, t.segs);
    }
    forall i | 0 <= i < |t.segs| ensures t.segs[i].headingOff < 0x1_0000_0000 { FittingOffset(t.labels, t.segs[i].headingOff); }
    IndexFits32(t.edgeIndex, n, |t.edges|);
    IndexFits32(t.inIndex, n, |t.inEdges|);
    IndexFits32(t.attrIndex, n, |t.attrs|);
  }

  lemma FittingOffset(labels: seq<byte>, off: nat)
    requires LabelFits(labels, off) && |labels| <= NO_LABEL
    ensures off < 0x1_0000_0000
  {
  }

  lemma SegTextOk(utf8: Utf8, t: T.Tables, keys: seq<u64>, docs: seq<BaseDoc>, attrRows: seq<seq<AttrRow>>, j: nat)
    requires Represents(t, keys, docs, attrRows) && TextsOk(utf8, docs) && j < |t.segs|
    ensures LabelOk(utf8, t.labels, t.segs[j].headingOff)
  {
    hide Holds, LabelOk, Renderable, IsCsr, AttrsHeld, SegsTile, HeadingsFit, EdgeRows, InRows;
    RepresentsCount(t, keys, docs, attrRows);
    var i := SegOwner(t.nodes, |t.segs|, j);
    var r := t.nodes[i];
    assert NodeHeld(r, keys[i], docs[i], t.labels, t.segs) && DocTextsOk(utf8, docs[i]);
    assert SegHeld(t.segs[r.segStart + (j - r.segStart)], docs[i].segs[j - r.segStart], t.labels);
    HeldLabelOk(utf8, t.labels, t.segs[j].headingOff, Some(docs[i].segs[j - r.segStart].heading));
  }

  lemma NodeTextsOk(utf8: Utf8, h: Header, r: NodeRow, key: u64, d: BaseDoc, labels: seq<byte>, segs: seq<SegRow>)
    requires NodeHeld(r, key, d, labels, segs) && DocTextsOk(utf8, d) && |segs| == h.segs
    ensures NodeOk(utf8, h, labels, RowOfNode(r)) && RowOfNode(r)[0] == key
  {
    hide Holds, LabelOk;
    HeldLabelOk(utf8, labels, r.urlOff, UrlLabel(d.rec.url));
    HeldLabelOk(utf8, labels, r.titleOff, d.rec.title);
    HeldLabelOk(utf8, labels, r.snippetOff, d.rec.snippet);
    HeldLabelOk(utf8, labels, r.etagOff, d.rec.etag);
  }

  lemma AttrTextsOk(utf8: Utf8, t: T.Tables, keys: seq<u64>, docs: seq<BaseDoc>, attrRows: seq<seq<AttrRow>>, j: nat)
    requires Represents(t, keys, docs, attrRows) && TextsOk(utf8, docs) && j < |t.attrs|
    ensures AttrOk(utf8, t.blobs, RowOfAttr(t.attrs[j]))
  {
    hide NodeHeld, HeadingsFit, SegsTile, Renderable, EdgeRows, InRows;
    var blobs := t.blobs;
    var ok := (a: AttrRow) => a.off + a.len <= |blobs| && utf8(blobs[a.off..a.off + a.len]);
    forall i, k | 0 <= i < |attrRows| && 0 <= k < |attrRows[i]| ensures ok(attrRows[i][k]) {
      assert AttrsHeld(attrRows[i], docs[i].attrs, blobs) && DocTextsOk(utf8, docs[i]);
      assert utf8(docs[i].attrs[k].value);
    }
    FlatAll(attrRows, ok);
    assert ok(t.attrs[j]);
  }

  lemma CsrAccepted(index: seq<nat>, n: nat, total: nat)
    requires IndexFits(index, n, total) && Fits32(index)
    ensures CsrOk(WordBytes(index), n, total)
    ensures index != [] ==> |WordBytes(index)| == 4 * (n + 1) && Monotone(Words(WordBytes(index), n + 1), n, total)
  {
    hide Words, WordBytes;
    WordsBack(index);
    if index == [] {
      assert WordBytes(index) == [];
    } else {
      assert Words(WordBytes(index), n + 1) == index;
    }
  }

  /** The record sections pass the checks made when a base is opened. */
  lemma GraphAccepted(utf8: Utf8, t: T.Tables, keys: seq<u64>, docs: seq<BaseDoc>, attrRows: seq<seq<AttrRow>>,
                      ranks: seq<byte>, w: TokenBytes, tokens: nat)
    requires Represents(t, keys, docs, attrRows) && TextsOk(utf8, docs)
    requires Writable(t) && |ranks| == 2 * |t.nodes| && TokensFit(w, tokens)
    ensures var h, s := HeaderOf(t, tokens), SectionsOf(t, ranks, w);
            Lengths(h, s) && GraphOk(utf8, h, s)
  {
    hide NodeHeld, SegsTile, HeadingsFit, AttrsHeld, IsCsr, IndexFits, NodeFits, EdgeRows, InRows, LabelFits, Fits32, NodeOk, LabelOk, AttrOk,
      CsrOk, Monotone, Words, NodeBytes, SegBytes, EdgeBytes, AttrBytes, WordBytes, Fitting, TablesOf, RowOfNode, RowOfSeg, RowOfEdge, RowOfAttr,
      NodeOf, SegRowOf, EdgeRecOf, AttrRowOf, DocTextsOk, Represents, TextsOk;
    var h, s, n := HeaderOf(t, tokens), SectionsOf(t, ranks, w), |t.nodes|;
    TablesRoundTrip(t, ranks, w, tokens);
    RenderedInBounds(t, keys, docs, attrRows);
    NodesAccepted(utf8, t, keys, docs, attrRows, h);
    NodesBack(t.nodes);
    SegsBack(t.segs);
    forall i | 0 <= i < |t.segs| ensures LabelOk(utf8, s.labels, SegRows(h, s)[i][3]) {
      SegTextOk(utf8, t, keys, docs, attrRows, i);
      assert SegRows(h, s)[i] == RowOfSeg(t.segs[i]);
      SegHeadingField(t.segs[i]);
    }
    EdgesAccepted(t.edges, n);
    EdgesAccepted(t.inEdges, n);
    forall i | 0 <= i < |t.attrs| ensures AttrOk(utf8, t.blobs, RowOfAttr(t.attrs[i])) {
      AttrTextsOk(utf8, t, keys, docs, attrRows, i);
    }
    AttrsAccepted(utf8, t.attrs, t.blobs);
    CsrAccepted(t.edgeIndex, n, |t.edges|);
    CsrAccepted(t.inIndex, n, |t.inEdges|);
    CsrAccepted(t.attrIndex, n, |t.attrs|);
    forall i, j | 0 <= i < j < n ensures NodeRows(h, s)[i][0] < NodeRows(h, s)[j][0] {
      KeyOrder(t, keys, docs, attrRows, i, j);
    }
  }

  lemma EdgesAccepted(edges: seq<EdgeRec>, n: nat)
    requires forall i :: 0 <= i < |edges| ==> edges[i].node < n && edges[i].node < 0x1_0000_0000
    ensures forall i :: 0 <= i < |edges| ==> EdgeRowsOf(EdgeBytes(edges), |edges|)[i][0] < n
  {
    hide RowOfEdge, EdgeRecOf, EdgeBytes, EdgeRowsOf, Fitting;
    EdgesBack(edges);
    forall i | 0 <= i < |edges| ensures EdgeRowsOf(EdgeBytes(edges), |edges|)[i][0] < n { EdgeNodeField(edges[i]); }
  }

  lemma AttrsAccepted(utf8: Utf8, attrs: seq<AttrRow>, blobs: seq<byte>)
    requires forall i :: 0 <= i < |attrs| ==>
      attrs[i].off < 0x1_0000_0000 && attrs[i].len < 0x1_0000_0000 && AttrOk(utf8, blobs, RowOfAttr(attrs[i]))
    ensures forall i :: 0 <= i < |attrs| ==> AttrOk(utf8, blobs, AttrRowsOf(AttrBytes(attrs))[i])
  {
    hide AttrOk, RowOfAttr, AttrRowOf, AttrBytes, AttrRowsOf, Fitting;
    AttrsBack(attrs);
  }

  lemma SegHeadingField(r: SegRow)
    ensures RowOfSeg(r)[3] == r.headingOff
  {
  }

  lemma EdgeNodeField(e: EdgeRec)
    ensures RowOfEdge(e)[0] == e.node
  {
  }

  lemma NodesAccepted(utf8: Utf8, t: T.Tables, keys: seq<u64>, docs: seq<BaseDoc>, attrRows: seq<seq<AttrRow>>, h: Header)
    requires Represents(t, keys, docs, attrRows) && TextsOk(utf8, docs) && h.segs == |t.segs|
    ensures forall i :: 0 <= i < |t.nodes| ==> NodeOk(utf8, h, t.labels, RowOfNode(t.nodes[i]))
  {
    hide NodeHeld, DocTextsOk, NodeOk, RowOfNode, IsCsr, AttrsHeld, HeadingsFit, SegsTile;
    forall i | 0 <= i < |t.nodes| ensures NodeOk(utf8, h, t.labels, RowOfNode(t.nodes[i])) {
      NodeTextsOk(utf8, h, t.nodes[i], keys[i], docs[i], t.labels, t.segs);
    }
  }

  lemma KeyOrder(t: T.Tables, keys: seq<u64>, docs: seq<BaseDoc>, attrRows: seq<seq<AttrRow>>, i: nat, j: nat)
    requires Represents(t, keys, docs, attrRows) && i < j < |t.nodes|
    ensures RowOfNode(t.nodes[i])[0] < RowOfNode(t.nodes[j])[0]
  {
    assert NodeHeld(t.nodes[i], keys[i], docs[i], t.labels, t.segs) && NodeHeld(t.nodes[j], keys[j], docs[j], t.labels, t.segs);
  }

  // ---- the file ------------------------------------------------------------------------------------------------

  function OwnerBytes(h: Header, gen: nat, applied: nat, created: nat): (b: seq<byte>)
    ensures |b| == C.OWNER_LEN
  {
    OwnerWidths();
    Pack(OWNER, [h.nodes, h.segs, h.edges, h.tokens, gen, applied, created]) + Zeros(48)
  }

  lemma OwnerBack(h: Header, gen: nat, applied: nat, created: nat)
    requires h.nodes < 0x1_0000_0000 && h.segs < 0x1_0000_0000 && h.edges < 0x1_0000_0000 && h.tokens < 0x1_0000_0000
    requires gen < 0x1_0000_0000_0000_0000 && applied < 0x1_0000_0000_0000_0000 && created < 0x1_0000_0000_0000_0000
    ensures OwnerFields(OwnerBytes(h, gen, applied, created)) == [h.nodes, h.segs, h.edges, h.tokens, gen, applied, created]
    ensures CountsIn(OwnerBytes(h, gen, applied, created)) == h
  {
    hide Fitting, Pack, Fields;
    OwnerWidths();
    Powers();
    var v := [h.nodes, h.segs, h.edges, h.tokens, gen, applied, created];
    FitsBounds(OWNER, v);
    var b := OwnerBytes(h, gen, applied, created);
    assert b[..40] == Pack(OWNER, v);
    FieldsOfPack(OWNER, v, b[..40]);
  }

  /** The section of a kind, by its number in the file. */
  function ByKind(s: Sections, kind: nat): seq<byte> {
    match kind
    case 1 => s.nodes
    case 2 => s.segs
    case 3 => s.edgeIndex
    case 4 => s.edges
    case 5 => s.labels
    case 6 => s.lexicon
    case 7 => s.postings
    case 8 => s.ranks
    case 9 => s.inIndex
    case 10 => s.inEdges
    case 11 => s.attrIndex
    case 12 => s.attrs
    case 13 => s.blobs
    case 14 => s.order
    case 15 => s.tri
    case 16 => s.post
    case _ => []
  }

  /** The order sections are written in. */
  const ORDER: seq<u16> := [1, 2, 3, 4, 5, 6, 7, 9, 10, 11, 12, 13, 8, 14, 15, 16]

  /** Sections of the given kinds, empty ones left out. */
  function Present(s: Sections, kinds: seq<u16>): (secs: seq<C.Section>) {
    if kinds == [] then []
    else
      var most, k := Present(s, kinds[..|kinds| - 1]), kinds[|kinds| - 1];
      if ByKind(s, k) == [] then most else most + [C.Section.Section(k, 0, ByKind(s, k))]
  }

  ghost predicate DistinctKinds(kinds: seq<u16>) { forall i, j :: 0 <= i < j < |kinds| ==> kinds[i] != kinds[j] }

  lemma {:induction false} PresentIs(s: Sections, kinds: seq<u16>)
    requires DistinctKinds(kinds)
    ensures var secs := Present(s, kinds);
            && |secs| <= |kinds|
            && (forall i :: 0 <= i < |secs| ==> secs[i].bytes != [] && secs[i].kind in kinds && secs[i].bytes == ByKind(s, secs[i].kind))
            && (forall i, j :: 0 <= i < j < |secs| ==> secs[i].kind != secs[j].kind)
            && (forall k :: k in kinds && ByKind(s, k) != [] ==> exists i :: 0 <= i < |secs| && secs[i].kind == k)
  {
    hide ByKind;
    if kinds != [] {
      var most, k := kinds[..|kinds| - 1], kinds[|kinds| - 1];
      PresentIs(s, most);
      var before, secs := Present(s, most), Present(s, kinds);
      assert k !in most;
      assert kinds == most + [k];
      PresentAll(s, most, k, before, secs);
      hide Present, DistinctKinds;
      if ByKind(s, k) != [] {
        assert forall i :: 0 <= i < |before| ==> before[i].kind != k;
      }
    }
  }

  /** Every kind with something in it gets its section. */
  lemma PresentAll(s: Sections, most: seq<u16>, k: u16, before: seq<C.Section>, secs: seq<C.Section>)
    requires secs == if ByKind(s, k) == [] then before else before + [C.Section.Section(k, 0, ByKind(s, k))]
    requires forall j :: j in most && ByKind(s, j) != [] ==> exists i :: 0 <= i < |before| && before[i].kind == j
    ensures forall j :: j in most + [k] && ByKind(s, j) != [] ==> exists i :: 0 <= i < |secs| && secs[i].kind == j
  {
    hide ByKind;
    forall j | j in most + [k] && ByKind(s, j) != [] ensures exists i :: 0 <= i < |secs| && secs[i].kind == j {
      if j in most {
        var i :| 0 <= i < |before| && before[i].kind == j;
        assert secs[i].kind == j;
      } else {
        assert secs[|before|].kind == j;
      }
    }
  }

  lemma AllKinds()
    ensures DistinctKinds(ORDER) && |ORDER| == 16 && forall k: u16 :: 1 <= k <= 16 ==> k in ORDER
  {
    assert ORDER[0] == 1 && ORDER[1] == 2 && ORDER[2] == 3 && ORDER[3] == 4 && ORDER[4] == 5 && ORDER[5] == 6 && ORDER[6] == 7;
    assert ORDER[7] == 9 && ORDER[8] == 10 && ORDER[9] == 11 && ORDER[10] == 12 && ORDER[11] == 13 && ORDER[12] == 8;
    assert ORDER[13] == 14 && ORDER[14] == 15 && ORDER[15] == 16;
  }

  /** The whole file compaction writes. */
  function BaseBytes(fileHash: C.Hash, h: Header, gen: nat, applied: nat, created: nat, s: Sections): seq<byte> {
    C.Finished(fileHash, FORMAT, 0, OwnerBytes(h, gen, applied, created), Present(s, ORDER))
  }

  /** The file is shorter than 2^64 bytes. */
  predicate FileFits(s: Sections) {
    C.AlignUp(C.EndOf(Present(s, ORDER), C.DirEnd(|Present(s, ORDER)|))) < 0x1_0000_0000_0000_0000
  }

  /** No section reaches 2^40 bytes. */
  predicate SmallSections(s: Sections) { forall k: u16 :: |ByKind(s, k)| < 0x100_0000_0000 }

  lemma {:induction false} EndBound(secs: seq<C.Section>, at: nat)
    requires forall i :: 0 <= i < |secs| ==> |secs[i].bytes| < 0x100_0000_0000
    ensures C.EndOf(secs, at) <= at + |secs| * 0x100_0000_0040
  {
    hide C.AlignUp;
    if secs != [] {
      C.AlignUpIs(at);
      EndBound(secs[1..], C.AlignUp(at) + |secs[0].bytes|);
    }
  }

  lemma SmallFits(s: Sections)
    requires SmallSections(s)
    ensures FileFits(s)
  {
    hide Present, ByKind, C.EndOf, C.AlignUp;
    var secs := Present(s, ORDER);
    AllKinds();
    PresentIs(s, ORDER);
    EndBound(secs, C.DirEnd(|secs|));
    C.AlignUpIs(C.EndOf(secs, C.DirEnd(|secs|)));
  }

  /** Whatever the sections, the file parses as a container of them, each under its kind. */
  lemma FileParses(fileHash: C.Hash, h: Header, gen: nat, applied: nat, created: nat, s: Sections) returns (d: C.Dir)
    requires h.nodes < 0x1_0000_0000 && h.segs < 0x1_0000_0000 && h.edges < 0x1_0000_0000 && h.tokens < 0x1_0000_0000
    requires gen < 0x1_0000_0000_0000_0000 && applied < 0x1_0000_0000_0000_0000 && created < 0x1_0000_0000_0000_0000
    requires FileFits(s)
    ensures var b := BaseBytes(fileHash, h, gen, applied, created, s);
            && C.Accepted(fileHash, FORMAT, b, d) && |d.owner| == C.OWNER_LEN
            && OwnerFields(d.owner) == [h.nodes, h.segs, h.edges, h.tokens, gen, applied, created]
            && CountsIn(d.owner) == h && SectionsAt(d, b) == s
  {
    hide C.Finished, C.Accepted, C.SectionOf, C.Lookup, Present, OwnerBytes, ByKind, C.AlignUp, C.EndOf;
    var owner, secs := OwnerBytes(h, gen, applied, created), Present(s, ORDER);
    AllKinds();
    PresentIs(s, ORDER);
    OwnerBack(h, gen, applied, created);
    d := Trip.FinishedParses(fileHash, FORMAT, 0, owner, secs);
    var b := BaseBytes(fileHash, h, gen, applied, created, s);
    forall k: u16 | 1 <= k <= 16 ensures C.SectionOf(d, b, k) == ByKind(s, k) {
      if ByKind(s, k) != [] {
        var i :| 0 <= i < |secs| && secs[i].kind == k;
        assert C.SectionOf(d, b, secs[i].kind) == secs[i].bytes;
      } else {
        assert forall i :: 0 <= i < |secs| ==> secs[i].kind != k;
      }
    }
    SectionsByKind(d, b, s);
  }

  lemma SectionsByKind(d: C.Dir, b: seq<byte>, s: Sections)
    requires forall k: u16 :: 1 <= k <= 16 ==> C.SectionOf(d, b, k) == ByKind(s, k)
    ensures SectionsAt(d, b) == s
  {
    hide C.SectionOf;
    assert ByKind(s, 1) == s.nodes && ByKind(s, 2) == s.segs && ByKind(s, 3) == s.edgeIndex && ByKind(s, 4) == s.edges;
    assert ByKind(s, 5) == s.labels && ByKind(s, 6) == s.lexicon && ByKind(s, 7) == s.postings && ByKind(s, 8) == s.ranks;
    assert ByKind(s, 9) == s.inIndex && ByKind(s, 10) == s.inEdges && ByKind(s, 11) == s.attrIndex && ByKind(s, 12) == s.attrs;
    assert ByKind(s, 13) == s.blobs && ByKind(s, 14) == s.order && ByKind(s, 15) == s.tri && ByKind(s, 16) == s.post;
  }

  // ---- rendered, written, opened, read ---------------------------------------------------------------------------

  /** Reading through a base's sections gives every document by its place and key. */
  ghost predicate DocsReadBack(h: Header, s: Sections, keys: seq<u64>, docs: seq<BaseDoc>)
    requires Lengths(h, s)
  {
    && InBounds(TablesOf(h, s)) && |TablesOf(h, s).nodes| == |docs| == |keys|
    && forall i :: 0 <= i < |docs| ==> TablesOf(h, s).nodes[i].key == keys[i] && DocAt(TablesOf(h, s), i) == docs[i]
  }

  /** And gives the very search indices, and every token's nodes. */
  ghost predicate WordsReadBack(hash: text -> u64, h: Header, s: Sections, words: seq<X.Word>, x: L.Index)
    requires Lengths(h, s)
  {
    && VocabularyIn(h, s) == x && L.Indexed(hash, x) && |words| == h.tokens
    && forall i :: 0 <= i < |words| ==>
         && x.tokens[i] == words[i].token
         && var v := LexRows(h, s)[i];
            RunReadable(s.postings, v) && P.Decode(s.postings[v[2]..RunEnd(v)], 0) == Some(words[i].ids)
  }

  lemma DocsAreBack(t: T.Tables, keys: seq<u64>, docs: seq<BaseDoc>, attrRows: seq<seq<AttrRow>>, h: Header, s: Sections)
    requires Represents(t, keys, docs, attrRows) && docs != [] && Lengths(h, s) && TablesOf(h, s) == t
    ensures DocsReadBack(h, s, keys, docs)
  {
    hide Represents, InBounds, DocAt, TablesOf, Lengths;
    RepresentsCount(t, keys, docs, attrRows);
    forall i | 0 <= i < |docs| ensures InBounds(t) && t.nodes[i].key == keys[i] && DocAt(t, i) == docs[i] {
      I.DocReadsBack(t, keys, docs, attrRows, i);
      KeyHeld(t, keys, docs, attrRows, i);
    }
    assert InBounds(t) by { I.DocReadsBack(t, keys, docs, attrRows, 0); }
  }

  lemma WordsAreBack(hash: text -> u64, utf8: Utf8, n: nat, words: seq<X.Word>, rows: seq<seq<nat>>, labels: seq<byte>,
                     h: Header, s: Sections, x: L.Index)
    requires Vocabulary(hash, utf8, n, words) && Lengths(h, s) && LexRows(h, s) == rows && |rows| == |words| == h.tokens
    requires RowsHeld(words, rows, labels, s.postings)
    requires VocabularyIn(h, s) == x && L.Indexed(hash, x) && forall i :: 0 <= i < |words| ==> x.tokens[i] == words[i].token
    requires |s.postings| < 0x1_0000_0000
    ensures WordsReadBack(hash, h, s, words, x)
  {
    hide Vocabulary, WordHeld, VocabularyIn, Lengths, LexRows, L.Indexed, P.Ascending, P.Decode, RunEnd;
    forall i | 0 <= i < |words|
      ensures RunReadable(s.postings, rows[i])
      ensures P.Decode(s.postings[rows[i][2]..RunEnd(rows[i])], 0) == Some(words[i].ids)
    {
      PostingsBack(hash, utf8, n, words, i, rows[i], labels, s.postings);
    }
  }

  /** The sections compaction writes pass every check, and read back whole. */
  lemma ImageReadsBack(
    hash: text -> u64, utf8: Utf8, t: T.Tables, keys: seq<u64>, docs: seq<BaseDoc>, attrRows: seq<seq<AttrRow>>,
    words: seq<X.Word>, rows: seq<seq<nat>>, postings: seq<byte>, x: L.Index, ranks: seq<byte>)
    requires Holding(hash, utf8, t, keys, docs, attrRows, words, rows, postings, x) && TextsOk(utf8, docs)
    requires Sized(t, words, postings, x) && |ranks| == 2 * |t.nodes|
    ensures |x.order| == |rows|
    ensures var h, s := HeaderOf(t, |rows|), ImageOf(t, ranks, rows, postings, x);
            Checked(utf8, h, s) && DocsReadBack(h, s, keys, docs) && WordsReadBack(hash, h, s, words, x)
  {
    hide Represents, Vocabulary, WordHeld, TablesOf, VocabularyIn, InBounds, DocAt, L.Indexed, GraphOk, LexiconOk, Lengths, LexRows,
      ImageOf, TextsOk, Writable, P.Ascending, L.Below, DocsReadBack, WordsReadBack, TokenBytesOf, TriRowsOf, TriRows, Post, Words;
    IndexedOrder(hash, x);
    SizesSuffice(t, keys, docs, attrRows, words, postings, x);
    VocabularyBack(hash, utf8, t, keys, docs, attrRows, words, rows, postings, x, ranks);
    VocabularyAccepted(hash, utf8, t, keys, docs, attrRows, words, rows, postings, x, ranks);
    ImageIs(t, ranks, rows, postings, x);
    GraphAccepted(utf8, t, keys, docs, attrRows, ranks, TokenBytesOf(rows, postings, x), |rows|);
    RepresentsCount(t, keys, docs, attrRows);
    var h, s := HeaderOf(t, |rows|), ImageOf(t, ranks, rows, postings, x);
    DocsAreBack(t, keys, docs, attrRows, h, s);
    WordsAreBack(hash, utf8, |docs|, words, rows, t.labels, h, s, x);
  }

  /** Trigrams are three bytes, so there are few of them. */
  lemma FewTrigrams(tokens: seq<text>, tri: seq<L.TriRec>, post: seq<nat>)
    requires L.Trigrams(tokens, tri, post)
    ensures |tri| <= 0x100_0000
  {
    hide L.RunLists;
    var grams: seq<nat> := seq(|tri|, k requires 0 <= k < |tri| => tri[k].gram);
    forall k | 0 <= k < |grams| ensures grams[k] < 0x100_0000 {
      var r := tri[k];
      assert L.TriRecOk(tokens, r, post);
      GramSmall(tokens, r.gram, post[r.off..r.off + r.len]);
    }
    AscendingCount(grams, 0x100_0000);
  }

  lemma IndexLength(index: seq<nat>, n: nat, total: nat)
    requires IndexFits(index, n, total)
    ensures |index| <= n + 1
  {
  }

  lemma InBoundsIndexes(t: T.Tables)
    requires InBounds(t) && t.nodes != []
    ensures |t.edgeIndex| <= |t.nodes| + 1 && |t.inIndex| <= |t.nodes| + 1 && |t.attrIndex| <= |t.nodes| + 1
  {
    hide LabelFits, HeadingsFit, IndexFits;
    IndexLength(t.edgeIndex, |t.nodes|, |t.edges|);
    IndexLength(t.inIndex, |t.nodes|, |t.inEdges|);
    IndexLength(t.attrIndex, |t.nodes|, |t.attrs|);
  }

  /** Counts and heaps within their fields leave every section small. */
  lemma SectionsSmall(
    hash: text -> u64, utf8: Utf8, t: T.Tables, keys: seq<u64>, docs: seq<BaseDoc>, attrRows: seq<seq<AttrRow>>,
    words: seq<X.Word>, rows: seq<seq<nat>>, postings: seq<byte>, x: L.Index, ranks: seq<byte>)
    requires Holding(hash, utf8, t, keys, docs, attrRows, words, rows, postings, x)
    requires Sized(t, words, postings, x) && |ranks| == 2 * |t.nodes| && |x.order| == |rows|
    ensures SmallSections(ImageOf(t, ranks, rows, postings, x))
  {
    hide Represents, Vocabulary, RowsHeld, InBounds, L.StringOrder, L.Trigrams, L.Below, NodeBytes, SegBytes, EdgeBytes, AttrBytes,
      WordBytes, LexBytes, TriBytes;
    RenderedInBounds(t, keys, docs, attrRows);
    InBoundsIndexes(t);
    InboundSizes(t, keys, docs, attrRows);
    FewTrigrams(x.tokens, x.tri, x.post);
    HoldingCount(hash, utf8, t, keys, docs, attrRows, words, rows, postings, x);
    var s := ImageOf(t, ranks, rows, postings, x);
    assert |s.nodes| == 72 * |t.nodes| && |s.segs| == 24 * |t.segs| && |s.edges| == 8 * |t.edges| && |s.inEdges| == 8 * |t.inEdges|;
    assert |s.edgeIndex| == 4 * |t.edgeIndex| && |s.inIndex| == 4 * |t.inIndex| && |s.attrIndex| == 4 * |t.attrIndex|;
    assert |s.attrs| == 12 * |t.attrs| && |s.lexicon| == 24 * |rows| && |s.order| == 4 * |rows|;
    assert |s.tri| == 12 * |x.tri| && |s.post| == 4 * |x.post|;
  }

  /** A base as compaction renders and writes it opens, and reading through the opened file
      gives everything back: the documents, the search indices, and the tokens' nodes. */
  lemma WrittenBaseReadsBack(
    fileHash: C.Hash, hash: text -> u64, utf8: Utf8, t: T.Tables, keys: seq<u64>, docs: seq<BaseDoc>,
    attrRows: seq<seq<AttrRow>>, words: seq<X.Word>, rows: seq<seq<nat>>, postings: seq<byte>, x: L.Index, ranks: seq<byte>,
    gen: u64, applied: u64, created: u64) returns (d: C.Dir)
    requires Holding(hash, utf8, t, keys, docs, attrRows, words, rows, postings, x) && TextsOk(utf8, docs)
    requires Sized(t, words, postings, x) && |ranks| == 2 * |t.nodes| && |x.order| == |rows|
    ensures var b := BaseBytes(fileHash, HeaderOf(t, |rows|), gen, applied, created, ImageOf(t, ranks, rows, postings, x));
            && Opens(fileHash, utf8, b, d) && OwnerFields(d.owner)[4..] == [gen as nat, applied, created]
            && DocsReadBack(CountsIn(d.owner), SectionsAt(d, b), keys, docs)
            && WordsReadBack(hash, CountsIn(d.owner), SectionsAt(d, b), words, x)
  {
    hide Holding, DocsReadBack, WordsReadBack, SectionsAt, CountsIn, OwnerFields, BaseBytes, FileFits, ImageOf, TextsOk, C.Accepted,
      SmallSections, GraphOk, LexiconOk, Lengths;
    HoldingCount(hash, utf8, t, keys, docs, attrRows, words, rows, postings, x);
    SectionsSmall(hash, utf8, t, keys, docs, attrRows, words, rows, postings, x, ranks);
    SmallFits(ImageOf(t, ranks, rows, postings, x));
    ImageReadsBack(hash, utf8, t, keys, docs, attrRows, words, rows, postings, x, ranks);
    d := FileParses(fileHash, HeaderOf(t, |rows|), gen, applied, created, ImageOf(t, ranks, rows, postings, x));
  }

  lemma HoldingCount(
    hash: text -> u64, utf8: Utf8, t: T.Tables, keys: seq<u64>, docs: seq<BaseDoc>, attrRows: seq<seq<AttrRow>>,
    words: seq<X.Word>, rows: seq<seq<nat>>, postings: seq<byte>, x: L.Index)
    requires Holding(hash, utf8, t, keys, docs, attrRows, words, rows, postings, x)
    ensures |rows| == |words| && TokenRows(rows)
  {
  }

  lemma IndexedOrder(hash: text -> u64, x: L.Index)
    requires L.Indexed(hash, x)
    ensures |x.order| == |x.tokens|
  {
    hide L.StringOrder, L.Trigrams;
    OrderLength(x.tokens, x.order);
  }

  lemma ImageIs(t: T.Tables, ranks: seq<byte>, rows: seq<seq<nat>>, postings: seq<byte>, x: L.Index)
    requires TokenRows(rows) && |x.order| == |rows|
    ensures ImageOf(t, ranks, rows, postings, x) == SectionsOf(t, ranks, TokenBytesOf(rows, postings, x))
    ensures t.nodes != [] ==> ImageOf(t, ranks, rows, postings, x).postings == postings
    ensures TokensFit(TokenBytesOf(rows, postings, x), |rows|)
  {
  }

  lemma KeyHeld(t: T.Tables, keys: seq<u64>, docs: seq<BaseDoc>, attrRows: seq<seq<AttrRow>>, i: nat)
    requires Represents(t, keys, docs, attrRows) && i < |docs|
    ensures |keys| == |docs| == |t.nodes| && t.nodes[i].key == keys[i]
  {
  }

  lemma PostingsBack(hash: text -> u64, utf8: Utf8, n: nat, words: seq<X.Word>, i: nat, v: seq<nat>, labels: seq<byte>, postings: seq<byte>)
    requires Vocabulary(hash, utf8, n, words) && i < |words| && P.Ascending(words[i].ids) && WordHeld(v, words[i], labels, postings)
    requires |postings| < 0x1_0000_0000
    ensures |v| == 5 && RunReadable(postings, v) && P.Decode(postings[v[2]..RunEnd(v)], 0) == Some(words[i].ids)
  {
    hide P.Encode, P.Decode, Holds, P.Ascending;
    P.PostingsRoundTrip(words[i].ids, 0);
  }

  /** More labels behind a store's own change nothing it holds. */
  lemma RepresentsGrown(t: T.Tables, keys: seq<u64>, docs: seq<BaseDoc>, attrRows: seq<seq<AttrRow>>, labels: seq<byte>)
    requires Represents(t, keys, docs, attrRows) && t.labels <= labels
    ensures Represents(t.(labels := labels), keys, docs, attrRows)
  {
    hide NodeHeld, HeadingsFit, SegsTile, AttrsHeld, IsCsr, Renderable, EdgeRows, InRows;
    HeadingsStillFit(t.labels, labels, t.segs);
    RepresentsCount(t, keys, docs, attrRows);
    forall i | 0 <= i < |docs| ensures NodeHeld(t.nodes[i], keys[i], docs[i], labels, t.segs) {
      NodeHeldGrows(t.nodes[i], keys[i], docs[i], t.labels, t.segs, labels, t.segs);
    }
  }

  function Stamps(gen: nat, applied: nat, created: nat): seq<nat> { [gen, applied, created] }

  /** What a file reads back as, opened; `stamps` are its generation, last folded sequence
      number and creation time. */
  ghost predicate OpensAs(
    fileHash: C.Hash, hash: text -> u64, utf8: Utf8, file: seq<byte>, keys: seq<u64>, docs: seq<BaseDoc>, words: seq<X.Word>,
    x: L.Index, stamps: seq<nat>, d: C.Dir) {
    && Opens(fileHash, utf8, file, d) && OwnerFields(d.owner)[4..] == stamps
    && DocsReadBack(CountsIn(d.owner), SectionsAt(d, file), keys, docs)
    && WordsReadBack(hash, CountsIn(d.owner), SectionsAt(d, file), words, x)
  }

  lemma FileOpens(
    fileHash: C.Hash, hash: text -> u64, utf8: Utf8, t: T.Tables, keys: seq<u64>, docs: seq<BaseDoc>,
    attrRows: seq<seq<AttrRow>>, words: seq<X.Word>, rows: seq<seq<nat>>, postings: seq<byte>, x: L.Index, ranks: seq<byte>,
    gen: u64, applied: u64, created: u64)
    requires Holding(hash, utf8, t, keys, docs, attrRows, words, rows, postings, x) && TextsOk(utf8, docs)
    requires |ranks| == 2 * |t.nodes| && |x.order| == |rows|
    ensures Sized(t, words, postings, x) ==>
              exists d :: OpensAs(fileHash, hash, utf8,
                                  BaseBytes(fileHash, HeaderOf(t, |rows|), gen, applied, created, ImageOf(t, ranks, rows, postings, x)),
                                  keys, docs, words, x, Stamps(gen, applied, created), d)
  {
    hide Holding, TextsOk, Sized, BaseBytes, ImageOf, DocsReadBack, WordsReadBack, Opens, CountsIn, OwnerFields, SectionsAt;
    if Sized(t, words, postings, x) {
      HoldingCount(hash, utf8, t, keys, docs, attrRows, words, rows, postings, x);
      var d := WrittenBaseReadsBack(
        fileHash, hash, utf8, t, keys, docs, attrRows, words, rows, postings, x, ranks, gen, applied, created);
      assert OpensAs(fileHash, hash, utf8,
                     BaseBytes(fileHash, HeaderOf(t, |rows|), gen, applied, created, ImageOf(t, ranks, rows, postings, x)),
                     keys, docs, words, x, Stamps(gen, applied, created), d);
    }
  }

  lemma FileIs(fileHash: C.Hash, h: Header, gen: nat, applied: nat, created: nat, s: Sections)
    ensures BaseBytes(fileHash, h, gen, applied, created, s)
         == C.Finished(fileHash, FORMAT, 0, OwnerBytes(h, gen, applied, created), Present(s, ORDER))
  {
  }

  function TokensIn(words: seq<X.Word>): (tokens: seq<text>)
    ensures |tokens| == |words| && forall i :: 0 <= i < |words| ==> tokens[i] == words[i].token
  {
    seq(|words|, i requires 0 <= i < |words| => words[i].token)
  }

  method IndexWords(hash: text -> u64, utf8: Utf8, n: nat, words: seq<X.Word>) returns (x: L.Index)
    requires Vocabulary(hash, utf8, n, words)
    ensures L.Indexed(hash, x) && L.Below(x.post, |x.tokens|) && |x.tokens| == |words|
    ensures x.tokens == TokensIn(words) && |x.post| == |LB.Pairs(x.tokens)|
  {
    hide P.Ascending, LB.Pairs;
    var tokens := TokensIn(words);
    var hashes := seq(|words|, i requires 0 <= i < |words| => words[i].hash);
    forall i | 0 <= i < |words| ensures hashes[i] == hash(tokens[i]) { assert WordOk(hash, utf8, n, words[i]); }
    x := LB.BuildIndex(hash, hashes, tokens);
  }

  // ---- documents to file ---------------------------------------------------------------------------------------

  /** What the tokenizer yields of the store's texts is short and UTF-8. */
  ghost predicate TokensOk(utf8: Utf8, tok: X.Tokenizer, docs: seq<BaseDoc>) {
    forall t :: X.InStore(tok, docs, t) ==> |t| < 0x1_0000 && utf8(t)
  }

  /** What an indexing pass leaves is a vocabulary. */
  lemma WordsAreVocabulary(hash: text -> u64, utf8: Utf8, tok: X.Tokenizer, docs: seq<BaseDoc>, words: seq<X.Word>)
    requires X.WordsOf(hash, X.Occurrences(tok, docs), words) && TokensOk(utf8, tok, docs)
    ensures Vocabulary(hash, utf8, |docs|, words)
  {
    hide X.Occurrences, X.TokensOf, X.InStore, P.Ascending;
    forall k | 0 <= k < |words| ensures WordOk(hash, utf8, |docs|, words[k]) {
      WordIsOk(hash, utf8, tok, docs, words[k]);
    }
  }

  lemma WordIsOk(hash: text -> u64, utf8: Utf8, tok: X.Tokenizer, docs: seq<BaseDoc>, w: X.Word)
    requires X.WordOf(hash, X.Occurrences(tok, docs), w) && TokensOk(utf8, tok, docs)
    ensures WordOk(hash, utf8, |docs|, w)
  {
    hide X.Occurrences, X.TokensOf, X.InStore, P.Ascending;
    X.WordIsToken(hash, tok, docs, w);
    X.IdsFit(tok, hash, docs, w.hash, X.Entry(w.token, w.ids));
  }

  /** A store without nodes: nothing to write but a header, and it opens as nothing. */
  lemma EmptyReadsBack(hash: text -> u64, utf8: Utf8, t: T.Tables, words: seq<X.Word>, rows: seq<seq<nat>>,
                       postings: seq<byte>, x: L.Index, ranks: seq<byte>)
    requires t.nodes == [] && words == [] && L.Indexed(hash, x) && L.Below(x.post, |x.tokens|) && x.tokens == []
    requires TokenRows(rows) && rows == [] && |x.order| == 0
    ensures var h, s := HeaderOf(t, 0), ImageOf(t, ranks, rows, postings, x);
            Checked(utf8, h, s) && DocsReadBack(h, s, [], []) && WordsReadBack(hash, h, s, words, x)
  {
    var h, s := HeaderOf(t, 0), ImageOf(t, ranks, rows, postings, x);
    NothingBelow(x.post, |x.tokens|);
    NoRuns(x.tokens, x.tri, x.post);
    assert VocabularyIn(h, s) == x;
  }

  lemma NothingBelow(ids: seq<nat>, n: nat)
    requires L.Below(ids, n)
    ensures ids == [] || n > 0
  {
    if ids != [] { assert ids[0] < n; }
  }

  lemma NoRuns(tokens: seq<text>, tri: seq<L.TriRec>, post: seq<nat>)
    requires L.Trigrams(tokens, tri, post)
    ensures tri == [] || post != []
  {
    hide L.RunLists;
    if tri != [] { assert L.TriRecOk(tokens, tri[0], post); }
  }

  /** The file of an empty store opens as one. */
  lemma EmptyFileOpens(
    fileHash: C.Hash, hash: text -> u64, utf8: Utf8, t: T.Tables, words: seq<X.Word>, rows: seq<seq<nat>>,
    postings: seq<byte>, x: L.Index, ranks: seq<byte>, gen: u64, applied: u64, created: u64)
    requires t.nodes == [] && words == [] && L.Indexed(hash, x) && L.Below(x.post, |x.tokens|) && x.tokens == []
    requires TokenRows(rows) && rows == [] && |x.order| == 0
    ensures var image := ImageOf(t, ranks, rows, postings, x);
            exists d :: OpensAs(fileHash, hash, utf8, BaseBytes(fileHash, HeaderOf(t, 0), gen, applied, created, image),
                                [], [], words, x, Stamps(gen, applied, created), d)
  {
    hide FileFits, BaseBytes, ImageOf, DocsReadBack, WordsReadBack, Checked, CountsIn, OwnerFields, SectionsAt, C.Accepted, L.Indexed;
    EmptyReadsBack(hash, utf8, t, words, rows, postings, x, ranks);
    var image, h := ImageOf(t, ranks, rows, postings, x), HeaderOf(t, 0);
    EmptyFits(t, ranks, rows, postings, x);
    var d := FileParses(fileHash, h, gen, applied, created, image);
    assert OpensAs(fileHash, hash, utf8, BaseBytes(fileHash, h, gen, applied, created, image),
                   [], [], words, x, Stamps(gen, applied, created), d);
  }

  lemma EmptyFits(t: T.Tables, ranks: seq<byte>, rows: seq<seq<nat>>, postings: seq<byte>, x: L.Index)
    requires t.nodes == [] && TokenRows(rows) && |x.order| == |rows|
    ensures FileFits(ImageOf(t, ranks, rows, postings, x))
  {
    hide FileFits;
    SmallFits(ImageOf(t, ranks, rows, postings, x));
  }

  /** A store and its vocabulary within the fields of the file: counts and heaps in 32 bits, the
      labels below the sentinel, the segments of a node in 16. */
  ghost predicate InFields(docs: seq<BaseDoc>, words: seq<X.Word>) {
    && |docs| < 0x1_0000_0000 && (forall i :: 0 <= i < |docs| ==> |docs[i].segs| < 0x1_0000)
    && SumOf(docs, SegsIn) < 0x1_0000_0000 && SumOf(docs, EdgesIn) < 0x1_0000_0000
    && SumOf(docs, AttrsIn) < 0x1_0000_0000 && SumOf(docs, ValuesSize) < 0x1_0000_0000
    && SumOf(docs, LabelsSize) + SumOf(words, TokenSize) <= NO_LABEL
    && |words| < 0x1_0000_0000 && SumOf(words, RunSize) < 0x1_0000_0000
    && |LB.Pairs(TokensIn(words))| < 0x1_0000_0000
  }

  lemma InFieldsIsSized(t: T.Tables, keys: seq<u64>, docs: seq<BaseDoc>, attrRows: seq<seq<AttrRow>>, words: seq<X.Word>,
                        postings: seq<byte>, x: L.Index)
    requires Laid(t, keys, docs, attrRows) && docs != [] && InFields(docs, words)
    requires |t.labels| == SumOf(docs, LabelsSize) + SumOf(words, TokenSize) && |t.blobs| == SumOf(docs, ValuesSize)
    requires |postings| == SumOf(words, RunSize) && |x.post| == |LB.Pairs(TokensIn(words))|
    ensures Sized(t, words, postings, x)
  {
    hide NodeLaid, SegsTile, IsCsr, AttrsHeld, SumOf, LB.Pairs, TokensIn, Renderable, EdgeRows, InRows;
    LaidCounts(t, keys, docs, attrRows);
  }

  /** Render, index and write a store's documents. Whenever they and the vocabulary of their
      texts are within the fields of the file, it opens and holds exactly them. */
  method WriteBase(
    fileHash: C.Hash, hash: text -> u64, utf8: Utf8, tok: X.Tokenizer, keys: seq<u64>, docs: seq<BaseDoc>, ranks: seq<byte>,
    gen: u64, applied: u64, created: u64)
    returns (file: seq<byte>, words: seq<X.Word>, x: L.Index)
    requires Renderable(keys, docs) && TextsOk(utf8, docs) && TokensOk(utf8, tok, docs)
    requires |docs| <= 0x1_0000_0000 && |ranks| == 2 * |docs|
    ensures X.WordsOf(hash, X.Occurrences(tok, docs), words)
    ensures InFields(docs, words) ==>
      exists d :: OpensAs(fileHash, hash, utf8, file, keys, docs, words, x, Stamps(gen, applied, created), d)
  {
    hide Renderable, TextsOk, TokensOk, Vocabulary, Laid, Represents, RowsHeld, Sized, InFields, L.Indexed, L.Below, OpensAs, BaseBytes,
      ImageOf, Present, C.Finished, OwnerBytes, SectionsOf, TokenBytesOf, X.WordsOf, X.Occurrences, SumOf, LB.Pairs, TokensIn;
    words := X.Index(hash, tok, docs);
    WordsAreVocabulary(hash, utf8, tok, docs, words);
    var t := RenderBase(keys, docs);
    var rows, labels, postings := RenderWords(hash, utf8, |docs|, words, t.labels);
    x := IndexWords(hash, utf8, |docs|, words);
    IndexedOrder(hash, x);
    ghost var attrRows :|
      Laid(t, keys, docs, attrRows) && (SumOf(docs, LabelsSize) <= NO_LABEL ==> Represents(t, keys, docs, attrRows));
    LaidGrown(t, keys, docs, attrRows, labels);
    ghost var nodesOnly := t;
    t := t.(labels := labels);
    var image := ImageOf(t, ranks, rows, postings, x);
    var h := HeaderOf(t, |rows|);
    file := Trip.Finish(fileHash, FORMAT, 0, OwnerBytes(h, gen, applied, created), Present(image, ORDER));
    FileIs(fileHash, h, gen, applied, created, image);
    if docs == [] {
      NoWords(hash, utf8, |docs|, words);
      assert keys == [] by { EmptyKeys(keys, docs); }
      EmptyFileOpens(fileHash, hash, utf8, t, words, rows, postings, x, ranks, gen, applied, created);
    } else if InFields(docs, words) {
      LabelsInFields(docs, words);
      InFieldsIsSized(t, keys, docs, attrRows, words, postings, x);
      RepresentsGrown(nodesOnly, keys, docs, attrRows, labels);
      assert Holding(hash, utf8, t, keys, docs, attrRows, words, rows, postings, x);
      FileOpens(fileHash, hash, utf8, t, keys, docs, attrRows, words, rows, postings, x, ranks, gen, applied, created);
    }
  }

  lemma LabelsInFields(docs: seq<BaseDoc>, words: seq<X.Word>)
    requires InFields(docs, words)
    ensures SumOf(docs, LabelsSize) + SumOf(words, TokenSize) <= NO_LABEL
  {
    hide SumOf;
  }

  /** Nothing but the labels lies in the label heap. */
  lemma LaidGrown(t: T.Tables, keys: seq<u64>, docs: seq<BaseDoc>, attrRows: seq<seq<AttrRow>>, labels: seq<byte>)
    requires Laid(t, keys, docs, attrRows)
    ensures Laid(t.(labels := labels), keys, docs, attrRows) && |t.nodes| == |docs|
  {
    hide NodeLaid, SegsTile, AttrsHeld, IsCsr, Renderable, EdgeRows, InRows;
  }

  lemma EmptyKeys(keys: seq<u64>, docs: seq<BaseDoc>)
    requires Renderable(keys, docs)
    ensures |keys| == |docs|
  {
  }

  lemma NoWords(hash: text -> u64, utf8: Utf8, n: nat, words: seq<X.Word>)
    requires Vocabulary(hash, utf8, n, words)
    ensures words == [] || n > 0
  {
    if words != [] {
      assert WordOk(hash, utf8, n, words[0]);
      assert words[0].ids[0] < n;
    }
  }
}
