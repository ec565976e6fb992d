/** Opening a base file: the container, the counts in its owner bytes, the sections by kind,
    and the checks; and what they make safe, from the file's bytes to every read. */
module BaseOpen {
  import opened Ops
  import opened ByteCodec
  import opened BaseFile
  import T = Tables
  import I = InEdges
  import L = Lexicon
  import C = Container
  import S = Spans
  import Trip = ContainerTrip
  import P = Postings

  const FORMAT := C.Format.Format(0x5250_5247, 3)

  /** node, segment, edge and token counts, generation, last folded sequence number, creation
      time; the rest of the owner area is unused */
  const OWNER: Layout := W(4, W(4, W(4, W(4, W(8, W(8, W(8, End)))))))

  lemma OwnerWidths()
    ensures Total(OWNER) == 40 && Len(OWNER) == 7
    ensures Width(OWNER, 0) == 4 && Width(OWNER, 1) == 4 && Width(OWNER, 2) == 4 && Width(OWNER, 3) == 4
    ensures Width(OWNER, 4) == 8 && Width(OWNER, 5) == 8 && Width(OWNER, 6) == 8
  {
  }

  function OwnerFields(owner: seq<byte>): (v: seq<nat>)
    requires |owner| == C.OWNER_LEN
    ensures |v| == 7
  {
    OwnerWidths();
    Fields(OWNER, owner[..40])
  }

  function CountsIn(owner: seq<byte>): Header
    requires |owner| == C.OWNER_LEN
  {
    var v := OwnerFields(owner);
    Header(v[0], v[1], v[2], v[3])
  }

  /** The sections of a file, each by its kind's number. */
  function SectionsAt(d: C.Dir, bytes: seq<byte>): Sections {
    Sections(
      C.SectionOf(d, bytes, 1), C.SectionOf(d, bytes, 2), C.SectionOf(d, bytes, 3), C.SectionOf(d, bytes, 4),
      C.SectionOf(d, bytes, 5), C.SectionOf(d, bytes, 6), C.SectionOf(d, bytes, 7), C.SectionOf(d, bytes, 8),
      C.SectionOf(d, bytes, 9), C.SectionOf(d, bytes, 10), C.SectionOf(d, bytes, 11), C.SectionOf(d, bytes, 12),
      C.SectionOf(d, bytes, 13), C.SectionOf(d, bytes, 14), C.SectionOf(d, bytes, 15), C.SectionOf(d, bytes, 16))
  }

  ghost predicate Checked(utf8: Utf8, h: Header, s: Sections) {
    Lengths(h, s) && GraphOk(utf8, h, s) && LexiconOk(utf8, h, s)
  }

  /** A file that opens as a base, and its directory. */
  ghost predicate Opens(hash: C.Hash, utf8: Utf8, bytes: seq<byte>, d: C.Dir) {
    C.Accepted(hash, FORMAT, bytes, d) && |d.owner| == C.OWNER_LEN && Checked(utf8, CountsIn(d.owner), SectionsAt(d, bytes))
  }

  lemma AcceptedOwner(hash: C.Hash, bytes: seq<byte>, d: C.Dir)
    requires C.Accepted(hash, FORMAT, bytes, d)
    ensures |bytes| >= C.HEADER_LEN && d.owner == bytes[32..120]
  {
    hide S.Disjoint, S.ZeroOutside, C.EntryAt, C.Lookup, C.EntryOk;
    var v := C.Head(hash, FORMAT, bytes).value;
    Trip.LookupFinds(v[2], bytes[32..120], C.Entries(bytes, v[4]), 1);
  }

  /** Parse the container, then check every record. */
  method Open(hash: C.Hash, utf8: Utf8, bytes: seq<byte>) returns (r: Option<C.Dir>)
    ensures r.Some? ==> Opens(hash, utf8, bytes, r.value)
    ensures r.None? ==> forall d :: !Opens(hash, utf8, bytes, d)
  {
    hide S.Disjoint, S.ZeroOutside, C.EntryAt, C.Lookup, C.EntryOk, C.Head, GraphOk, LexiconOk, Lengths, C.SectionOf;
    r := C.Parse(hash, FORMAT, bytes);
    if r.Some? {
      var d := r.value;
      AcceptedOwner(hash, bytes, d);
      var ok := CheckCounts(utf8, CountsIn(d.owner), SectionsAt(d, bytes));
      if !ok {
        r := None;
      }
    }
  }

  // ---- the vocabulary in the sections ------------------------------------------------------------

  lemma LexWidths()
    ensures Len(LEX) == 5 && Len(TRI) == 3
    ensures Width(LEX, 0) == 8 && Width(LEX, 1) == 4 && Width(LEX, 2) == 4 && Width(LEX, 3) == 4 && Width(LEX, 4) == 4
    ensures Width(TRI, 0) == 4 && Width(TRI, 1) == 4 && Width(TRI, 2) == 4
  {
  }

  lemma LexBounds(v: seq<nat>)
    requires Fitting(LEX, v)
    ensures |v| == 5 && v[0] < 0x1_0000_0000_0000_0000 && v[1] < 0x1_0000_0000
    ensures v[2] < 0x1_0000_0000 && v[3] < 0x1_0000_0000 && v[4] < 0x1_0000_0000
  {
    hide Fitting;
    FieldBounds(LEX, v);
    Powers();
    LexWidths();
  }

  function HashIn(v: seq<nat>): u64
    requires |v| == 5 && Fitting(LEX, v)
  {
    LexBounds(v);
    v[0]
  }

  /** A token's text, as `label_at` reads it. */
  function TokenText(labels: seq<byte>, off: nat): text {
    if T.LabelFits(labels, off) then T.Text(T.LabelAt(labels, off)) else []
  }

  function TriRecOf(v: seq<nat>): L.TriRec
    requires |v| == 3
  {
    L.TriRec.TriRec(v[0], v[1], v[2])
  }

  /** The search indices as the query's accessors read them. */
  function VocabularyIn(h: Header, s: Sections): (x: L.Index)
    requires Lengths(h, s)
    ensures |x.tokens| == h.tokens
  {
    var lex, tri := LexRows(h, s), TriRows(s.tri);
    L.Index.Index(
      seq(h.tokens, i requires 0 <= i < h.tokens => HashIn(lex[i])),
      seq(h.tokens, i requires 0 <= i < h.tokens => TokenText(s.labels, lex[i][4])),
      Words(s.order, h.tokens),
      seq(|tri|, i requires 0 <= i < |tri| => TriRecOf(tri[i])),
      Post(s))
  }

  /** Sections that pass the checks hold indices every search reads in bounds, whatever they
      say: every token has its text, every id in the string order and in every posting run
      names a token. */
  lemma CheckedSearchable(utf8: Utf8, h: Header, s: Sections)
    requires Lengths(h, s) && LexiconOk(utf8, h, s)
    ensures L.Searchable(VocabularyIn(h, s)) && L.HashOrder(VocabularyIn(h, s).hashes)
    ensures forall i :: 0 <= i < h.tokens ==> T.LabelFits(s.labels, LexRows(h, s)[i][4])
  {
    hide Fitting, Words, T.LabelFits, T.LabelAt, LexRows, TriRows, Post, TokenText;
    var x := VocabularyIn(h, s);
    forall k | 0 <= k < |x.tri|
      ensures x.tri[k].off + x.tri[k].len <= |x.post|
      ensures L.Below(x.post[x.tri[k].off..x.tri[k].off + x.tri[k].len], h.tokens)
    {
      assert TriOk(h.tokens, Post(s), TriRows(s.tri)[k]);
    }
    forall i | 0 <= i < h.tokens ensures T.LabelFits(s.labels, LexRows(h, s)[i][4]) {
      assert LexOk(utf8, s.labels, |s.postings|, LexRows(h, s)[i]);
    }
  }

  // ---- a token's postings ---------------------------------------------------------------------------

  /** The end of a token's posting run as a query computes it: a sum of two 32-bit fields. */
  function RunEnd(v: seq<nat>): nat
    requires |v| == 5
  {
    (v[2] + v[3]) % 0x1_0000_0000
  }

  predicate RunReadable(postings: seq<byte>, v: seq<nat>)
    requires |v| == 5
  {
    v[2] <= RunEnd(v) <= |postings|
  }

  /** A token record that passed the checks has a readable posting run if and only if the
      run's end is below 4 GiB; so in every base whose postings are. */
  lemma RunReadableExactly(utf8: Utf8, labels: seq<byte>, postings: seq<byte>, v: seq<nat>)
    requires |v| == 5 && Fitting(LEX, v) && LexOk(utf8, labels, |postings|, v)
    ensures RunReadable(postings, v) <==> v[2] + v[3] < 0x1_0000_0000
    ensures |postings| < 0x1_0000_0000 ==> RunReadable(postings, v)
  {
    hide Fitting, LabelOk;
    LexBounds(v);
    if v[2] + v[3] >= 0x1_0000_0000 {
      assert RunEnd(v) == v[2] + v[3] - 0x1_0000_0000;
    }
  }

  /** In postings of 4 GiB and more, a record can pass the checks and have a run whose end
      comes before its start. */
  lemma RunCanWrap(utf8: Utf8, labels: seq<byte>, postings: seq<byte>)
    requires |postings| >= 0x1_0000_0000
    ensures var v: seq<nat> := [0, 0, 0xFFFF_FFFF, 1, T.NO_LABEL];
            Fitting(LEX, v) && LexOk(utf8, labels, |postings|, v) && !RunReadable(postings, v)
  {
    hide Fitting;
    Powers();
    LexWidths();
    FitsBounds(LEX, [0, 0, 0xFFFF_FFFF, 1, T.NO_LABEL]);
  }

  /** What a lookup hands to the ranking: its matches, and for each the nodes its postings name,
      where they decode. A match whose run is not readable ends the query: then there are no
      lists. */
  method TermNodes(hash: text -> u64, utf8: Utf8, h: Header, s: Sections, term: text)
    returns (ms: seq<L.Match>, lists: Option<seq<Option<seq<nat>>>>)
    requires Checked(utf8, h, s)
    ensures forall k :: 0 <= k < |ms| ==> ms[k].id < h.tokens
    ensures lists.Some? <==> forall k :: 0 <= k < |ms| ==> RunReadable(s.postings, LexRows(h, s)[ms[k].id])
    ensures lists.Some? ==>
      && |lists.value| == |ms|
      && forall k :: 0 <= k < |ms| ==>
           var v := LexRows(h, s)[ms[k].id];
           lists.value[k] == P.Decode(s.postings[v[2]..RunEnd(v)], 0)
    ensures L.Indexed(hash, VocabularyIn(h, s)) && L.NoCollision(hash, VocabularyIn(h, s), term) ==>
      L.AgreesWithScan(VocabularyIn(h, s), term, ms)
  {
    hide GraphOk, Fitting, T.LabelFits, LexRows, P.Decode, VocabularyIn, L.Indexed, L.AgreesWithScan, L.NoCollision, LabelOk, L.Searchable;
    CheckedSearchable(utf8, h, s);
    ms := L.LexMatches(hash, VocabularyIn(h, s), term);
    var done := [];
    for k := 0 to |ms|
      invariant |done| == k
      invariant forall j :: 0 <= j < k ==>
        var v := LexRows(h, s)[ms[j].id];
        RunReadable(s.postings, v) && done[j] == P.Decode(s.postings[v[2]..RunEnd(v)], 0)
    {
      var v := LexRows(h, s)[ms[k].id];
      if !RunReadable(s.postings, v) {
        return ms, None;
      }
      var ids := P.DecodePostings(s.postings[v[2]..RunEnd(v)]);
      done := done + [ids];
    }
    lists := Some(done);
  }

  // ---- from the file to the reads ------------------------------------------------------------------------

  /** A file that opens: its record tables and its search indices are such that every accessor,
      every merged read and every search stays in bounds. */
  lemma OpenedReadsInBounds(hash: C.Hash, utf8: Utf8, bytes: seq<byte>, d: C.Dir)
    requires Opens(hash, utf8, bytes, d)
    ensures var h, s := CountsIn(d.owner), SectionsAt(d, bytes);
            && T.InBounds(TablesOf(h, s)) && I.NodesSorted(TablesOf(h, s).nodes)
            && L.Searchable(VocabularyIn(h, s)) && L.HashOrder(VocabularyIn(h, s).hashes)
            && forall i :: 0 <= i < h.tokens ==>
                 (RunReadable(s.postings, LexRows(h, s)[i]) <==> LexRows(h, s)[i][2] + LexRows(h, s)[i][3] < 0x1_0000_0000)
  {
    hide C.Accepted, GraphOk, T.InBounds, I.NodesSorted, L.Searchable, TablesOf, VocabularyIn, Lengths, LexRows, RunReadable, LexOk, L.HashOrder;
    var h, s := CountsIn(d.owner), SectionsAt(d, bytes);
    CheckedInBounds(utf8, h, s);
    CheckedSearchable(utf8, h, s);
    forall i | 0 <= i < h.tokens
      ensures RunReadable(s.postings, LexRows(h, s)[i]) <==> LexRows(h, s)[i][2] + LexRows(h, s)[i][3] < 0x1_0000_0000
    {
      RunReadableExactly(utf8, s.labels, s.postings, LexRows(h, s)[i]);
    }
  }
}
