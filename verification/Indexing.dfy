/** The vocabulary compaction collects: every token of every node's searchable texts, keyed by
    its hash, with the nodes it occurs in. The tokenizer is a parameter. */
module Indexing {
  import opened Ops
  import opened Merge
  import P = Postings

  type Tokenizer = text -> seq<text>

  /** A token, its hash, and the nodes it occurs in. */
  datatype Word = Word(hash: u64, token: text, ids: seq<u32>)

  // ---- what is searchable ---------------------------------------------------------------------

  const SCHEME_END: text := [58, 47, 47]

  predicate EndsScheme(url: text, i: nat) { i + 3 <= |url| && url[i..i + 3] == SCHEME_END }

  /** The first place at or after `i` where the scheme ends. */
  function SchemeAt(url: text, i: nat): (p: Option<nat>)
    requires i <= |url|
    ensures p.Some? ==> i <= p.value && EndsScheme(url, p.value) && forall j :: i <= j < p.value ==> !EndsScheme(url, j)
    ensures p.None? ==> forall j :: i <= j ==> !EndsScheme(url, j)
    decreases |url| - i
  {
    if i + 3 > |url| then None
    else if EndsScheme(url, i) then Some(i)
    else SchemeAt(url, i + 1)
  }

  /** A URL without its scheme. */
  function Searchable(url: text): text {
    var p := SchemeAt(url, 0);
    if p.Some? then url[p.value + 3..] else url
  }

  function TextOf(t: Option<text>): seq<text> { if t.Some? then [t.value] else [] }

  function Headings(segs: seq<SegRef>): (ts: seq<text>)
    ensures |ts| == |segs|
  {
    seq(|segs|, i requires 0 <= i < |segs| => segs[i].heading)
  }

  /** A node's searchable texts: URL without scheme, title, snippet, headings. */
  function Texts(d: BaseDoc): seq<text> {
    (if d.rec.url == [] then [] else [Searchable(d.rec.url)]) + TextOf(d.rec.title) + TextOf(d.rec.snippet) + Headings(d.segs)
  }

  /** The tokens of a run of texts, in order. */
  function Tokens(tok: Tokenizer, texts: seq<text>): seq<text> {
    if texts == [] then [] else Tokens(tok, texts[..|texts| - 1]) + tok(texts[|texts| - 1])
  }

  function TokensOf(tok: Tokenizer, d: BaseDoc): seq<text> { Tokens(tok, Texts(d)) }

  /** One token seen in one node. */
  datatype Occurrence = Occurrence(id: nat, token: text)

  function At(id: nat, tokens: seq<text>): (os: seq<Occurrence>)
    ensures |os| == |tokens|
  {
    seq(|tokens|, i requires 0 <= i < |tokens| => Occurrence(id, tokens[i]))
  }

  /** Everything the indexing pass sees, in its order. */
  function Occurrences(tok: Tokenizer, docs: seq<BaseDoc>): seq<Occurrence> {
    if docs == [] then []
    else
      var last := |docs| - 1;
      Occurrences(tok, docs[..last]) + At(last, TokensOf(tok, docs[last]))
  }

  lemma AtHas(id: nat, tokens: seq<text>, o: Occurrence)
    ensures o in At(id, tokens) <==> o.id == id && o.token in tokens
  {
    if o.id == id && o.token in tokens {
      var i :| 0 <= i < |tokens| && tokens[i] == o.token;
      assert At(id, tokens)[i] == o;
    }
  }

  lemma {:induction false} OccurrencesAre(tok: Tokenizer, docs: seq<BaseDoc>, o: Occurrence)
    ensures o in Occurrences(tok, docs) <==> o.id < |docs| && o.token in TokensOf(tok, docs[o.id])
  {
    hide TokensOf;
    if docs != [] {
      var last := |docs| - 1;
      OccurrencesAre(tok, docs[..last], o);
      AtHas(last, TokensOf(tok, docs[last]), o);
    }
  }

  // ---- the lexicon --------------------------------------------------------------------------------

  datatype Entry = Entry(token: text, ids: seq<nat>)

  type Lexicon = map<u64, Entry>

  /** One token of one node: a new hash starts an entry with the token, and the node is noted
      unless it is the last noted. */
  function Push(hash: text -> u64, lex: Lexicon, o: Occurrence): Lexicon {
    var h := hash(o.token);
    var e := if h in lex then lex[h] else Entry(o.token, []);
    lex[h := if e.ids == [] || e.ids[|e.ids| - 1] != o.id then e.(ids := e.ids + [o.id]) else e]
  }

  predicate Hits(hash: text -> u64, occ: seq<Occurrence>, i: int, h: u64) {
    0 <= i < |occ| && hash(occ[i].token) == h
  }

  /** An entry: named after the first token with its hash, listing every node with any. */
  ghost predicate EntryOk(hash: text -> u64, occ: seq<Occurrence>, h: u64, e: Entry) {
    && P.Ascending(e.ids) && e.ids != []
    && (forall id :: id in e.ids <==> exists i :: Hits(hash, occ, i, h) && occ[i].id == id)
    && exists i :: Hits(hash, occ, i, h) && occ[i].token == e.token && forall j :: 0 <= j < i ==> !Hits(hash, occ, j, h)
  }

  ghost predicate Collected(hash: text -> u64, occ: seq<Occurrence>, lex: Lexicon) {
    && (forall h :: h in lex <==> exists i :: Hits(hash, occ, i, h))
    && forall h :: h in lex ==> EntryOk(hash, occ, h, lex[h])
  }

  predicate InIdOrder(occ: seq<Occurrence>) { forall i, j :: 0 <= i < j < |occ| ==> occ[i].id <= occ[j].id }

  lemma HitsSnoc(hash: text -> u64, occ: seq<Occurrence>, o: Occurrence, i: int, h: u64)
    ensures Hits(hash, occ + [o], i, h) <==> Hits(hash, occ, i, h) || (i == |occ| && hash(o.token) == h)
  {
  }

  /** An entry of another hash is not touched. */
  lemma OtherEntry(hash: text -> u64, occ: seq<Occurrence>, o: Occurrence, h: u64, e: Entry)
    requires EntryOk(hash, occ, h, e) && hash(o.token) != h
    ensures EntryOk(hash, occ + [o], h, e)
  {
    var all := occ + [o];
    forall i ensures Hits(hash, all, i, h) <==> Hits(hash, occ, i, h) { HitsSnoc(hash, occ, o, i, h); }
    forall id ensures id in e.ids <==> exists i :: Hits(hash, all, i, h) && all[i].id == id {
      if id in e.ids {
        var i :| Hits(hash, occ, i, h) && occ[i].id == id;
        assert Hits(hash, all, i, h) && all[i].id == id;
      }
      if i :| Hits(hash, all, i, h) && all[i].id == id {
        assert Hits(hash, occ, i, h) && occ[i].id == id;
      }
    }
    var i :| Hits(hash, occ, i, h) && occ[i].token == e.token && forall j :: 0 <= j < i ==> !Hits(hash, occ, j, h);
    assert Hits(hash, all, i, h) && all[i].token == e.token;
  }

  /** An entry that a token joins. */
  lemma JoinedEntry(hash: text -> u64, occ: seq<Occurrence>, o: Occurrence, e: Entry)
    requires EntryOk(hash, occ, hash(o.token), e) && InIdOrder(occ + [o])
    ensures EntryOk(hash, occ + [o], hash(o.token),
                    if e.ids == [] || e.ids[|e.ids| - 1] != o.id then e.(ids := e.ids + [o.id]) else e)
  {
    var h, all := hash(o.token), occ + [o];
    var e' := if e.ids == [] || e.ids[|e.ids| - 1] != o.id then e.(ids := e.ids + [o.id]) else e;
    assert Hits(hash, all, |occ|, h) && all[|occ|].id == o.id;
    forall k | 0 <= k < |e.ids| ensures e.ids[k] <= o.id {
      assert e.ids[k] in e.ids;
      var i :| Hits(hash, occ, i, h) && occ[i].id == e.ids[k];
      assert all[i].id <= all[|occ|].id;
    }
    forall id ensures id in e'.ids <==> exists i :: Hits(hash, all, i, h) && all[i].id == id {
      if id in e.ids {
        var i :| Hits(hash, occ, i, h) && occ[i].id == id;
        assert Hits(hash, all, i, h) && all[i].id == id;
      }
      if i :| Hits(hash, all, i, h) && all[i].id == id {
        if i < |occ| { assert Hits(hash, occ, i, h) && occ[i].id == id; }
      }
    }
    var i :| Hits(hash, occ, i, h) && occ[i].token == e.token && forall j :: 0 <= j < i ==> !Hits(hash, occ, j, h);
    assert Hits(hash, all, i, h) && all[i].token == e'.token;
    forall j | 0 <= j < i ensures !Hits(hash, all, j, h) { HitsSnoc(hash, occ, o, j, h); }
  }

  /** The entry a new hash starts. */
  lemma NewEntry(hash: text -> u64, occ: seq<Occurrence>, o: Occurrence)
    requires forall i :: !Hits(hash, occ, i, hash(o.token))
    ensures EntryOk(hash, occ + [o], hash(o.token), Entry(o.token, [o.id]))
  {
    var h, all := hash(o.token), occ + [o];
    assert Hits(hash, all, |occ|, h) && all[|occ|] == o;
    forall j | 0 <= j < |occ| ensures !Hits(hash, all, j, h) { HitsSnoc(hash, occ, o, j, h); }
  }

  lemma PushCollects(hash: text -> u64, occ: seq<Occurrence>, lex: Lexicon, o: Occurrence)
    requires Collected(hash, occ, lex) && InIdOrder(occ + [o])
    ensures Collected(hash, occ + [o], Push(hash, lex, o))
  {
    hide EntryOk, InIdOrder;
    var next, h := Push(hash, lex, o), hash(o.token);
    if h in lex {
      JoinedEntry(hash, occ, o, lex[h]);
    } else {
      NewEntry(hash, occ, o);
      assert next[h] == Entry(o.token, [o.id]);
    }
    forall k | k in next ensures EntryOk(hash, occ + [o], k, next[k]) {
      if k != h { OtherEntry(hash, occ, o, k, lex[k]); }
    }
    forall k ensures k in next <==> exists i :: Hits(hash, occ + [o], i, k) {
      if k in lex {
        var i :| Hits(hash, occ, i, k);
        HitsSnoc(hash, occ, o, i, k);
      }
      HitsSnoc(hash, occ, o, |occ|, k);
      if i :| Hits(hash, occ + [o], i, k) { HitsSnoc(hash, occ, o, i, k); }
    }
  }

  // ---- the passes -------------------------------------------------------------------------------------

  lemma {:induction false} OccurrencesInOrder(tok: Tokenizer, docs: seq<BaseDoc>)
    ensures InIdOrder(Occurrences(tok, docs))
    ensures forall i :: 0 <= i < |Occurrences(tok, docs)| ==> Occurrences(tok, docs)[i].id < |docs|
  {
    hide TokensOf;
    if docs != [] { OccurrencesInOrder(tok, docs[..|docs| - 1]); }
  }

  lemma TokensStep(tok: Tokenizer, texts: seq<text>, j: nat)
    requires j < |texts|
    ensures Tokens(tok, texts[..j + 1]) == Tokens(tok, texts[..j]) + tok(texts[j])
  {
    assert texts[..j + 1][..j] == texts[..j];
  }

  lemma AtStep(id: nat, tokens: seq<text>, k: nat)
    requires k < |tokens|
    ensures At(id, tokens[..k + 1]) == At(id, tokens[..k]) + [Occurrence(id, tokens[k])]
  {
  }

  lemma AtJoins(id: nat, a: seq<text>, b: seq<text>)
    ensures At(id, a + b) == At(id, a) + At(id, b)
  {
  }

  /** Note the tokens of one text of a node. */
  method PushTokens(hash: text -> u64, tokens: seq<text>, id: nat, lex: Lexicon, ghost occ: seq<Occurrence>)
    returns (lex': Lexicon)
    requires Collected(hash, occ, lex) && InIdOrder(occ) && forall i :: 0 <= i < |occ| ==> occ[i].id <= id
    ensures Collected(hash, occ + At(id, tokens), lex')
  {
    hide Collected, Push;
    lex' := lex;
    assert occ + At(id, tokens[..0]) == occ;
    for k := 0 to |tokens|
      invariant Collected(hash, occ + At(id, tokens[..k]), lex')
    {
      var o := Occurrence(id, tokens[k]);
      AtStep(id, tokens, k);
      assert occ + At(id, tokens[..k + 1]) == occ + At(id, tokens[..k]) + [o];
      PushCollects(hash, occ + At(id, tokens[..k]), lex', o);
      lex' := Push(hash, lex', o);
    }
    assert tokens[..|tokens|] == tokens;
  }

  /** Note every text of a node. */
  method PushTexts(hash: text -> u64, tok: Tokenizer, texts: seq<text>, id: nat, lex: Lexicon, ghost occ: seq<Occurrence>)
    returns (lex': Lexicon)
    requires Collected(hash, occ, lex) && InIdOrder(occ) && forall i :: 0 <= i < |occ| ==> occ[i].id <= id
    ensures Collected(hash, occ + At(id, Tokens(tok, texts)), lex')
  {
    hide Collected;
    lex' := lex;
    assert occ + At(id, Tokens(tok, texts[..0])) == occ;
    for j := 0 to |texts|
      invariant Collected(hash, occ + At(id, Tokens(tok, texts[..j])), lex')
    {
      TokensStep(tok, texts, j);
      AtJoins(id, Tokens(tok, texts[..j]), tok(texts[j]));
      ghost var done := occ + At(id, Tokens(tok, texts[..j]));
      assert done + At(id, tok(texts[j])) == occ + At(id, Tokens(tok, texts[..j + 1]));
      lex' := PushTokens(hash, tok(texts[j]), id, lex', done);
    }
    assert texts[..|texts|] == texts;
  }

  lemma NothingCollected(hash: text -> u64)
    ensures Collected(hash, [], map[])
  {
  }

  /** One pass over the nodes, in id order. */
  method Accumulate(hash: text -> u64, tok: Tokenizer, docs: seq<BaseDoc>) returns (lex: Lexicon)
    ensures Collected(hash, Occurrences(tok, docs), lex)
  {
    hide Collected, Texts;
    lex := map[];
    NothingCollected(hash);
    for i := 0 to |docs|
      invariant Collected(hash, Occurrences(tok, docs[..i]), lex)
    {
      assert docs[..i + 1][..i] == docs[..i];
      OccurrencesInOrder(tok, docs[..i]);
      lex := PushTexts(hash, tok, Texts(docs[i]), i, lex, Occurrences(tok, docs[..i]));
    }
    assert docs[..|docs|] == docs;
  }

  // ---- the words, in hash order --------------------------------------------------------------------------

  /** A word of the store: the first token with its hash, and every node with any. */
  ghost predicate WordOf(hash: text -> u64, occ: seq<Occurrence>, w: Word) {
    EntryOk(hash, occ, w.hash, Entry(w.token, w.ids))
  }

  predicate HasHash(words: seq<Word>, h: u64) { exists k :: 0 <= k < |words| && words[k].hash == h }

  predicate HashesAscend(words: seq<Word>) { forall i, j :: 0 <= i < j < |words| ==> words[i].hash < words[j].hash }

  /** The words of an indexing pass: one for each hash seen, in hash order. */
  ghost predicate WordsOf(hash: text -> u64, occ: seq<Occurrence>, words: seq<Word>) {
    && HashesAscend(words)
    && (forall k :: 0 <= k < |words| ==> WordOf(hash, occ, words[k]))
    && forall i :: 0 <= i < |occ| ==> HasHash(words, hash(occ[i].token))
  }

  ghost predicate Drained(hash: text -> u64, occ: seq<Occurrence>, lex: Lexicon, left: set<u64>, words: seq<Word>) {
    && left <= lex.Keys && HashesAscend(words)
    && (forall k :: 0 <= k < |words| ==> WordOf(hash, occ, words[k]))
    && (forall k, h :: 0 <= k < |words| && h in left ==> words[k].hash < h)
    && forall h :: h in lex && h !in left ==> HasHash(words, h)
  }

  lemma DrainOne(hash: text -> u64, occ: seq<Occurrence>, lex: Lexicon, left: set<u64>, words: seq<Word>, h: u64, ids: seq<u32>)
    requires Collected(hash, occ, lex) && Drained(hash, occ, lex, left, words)
    requires h in left && (forall g :: g in left ==> h <= g) && ids == lex[h].ids
    ensures Drained(hash, occ, lex, left - {h}, words + [Word(h, lex[h].token, ids)])
  {
    hide EntryOk;
    var next := words + [Word(h, lex[h].token, ids)];
    assert WordOf(hash, occ, next[|words|]);
    forall g | g in lex && g !in left - {h} ensures HasHash(next, g) {
      if g == h {
        assert next[|words|].hash == h;
      } else {
        var k :| 0 <= k < |words| && words[k].hash == g;
        assert next[k].hash == g;
      }
    }
  }

  lemma IdFits(tok: Tokenizer, hash: text -> u64, docs: seq<BaseDoc>, h: u64, e: Entry, id: nat)
    requires EntryOk(hash, Occurrences(tok, docs), h, e) && id in e.ids
    ensures id < |docs|
  {
    hide Occurrences, InIdOrder;
    OccurrencesInOrder(tok, docs);
    var i :| Hits(hash, Occurrences(tok, docs), i, h) && Occurrences(tok, docs)[i].id == id;
  }

  lemma IdsFit(tok: Tokenizer, hash: text -> u64, docs: seq<BaseDoc>, h: u64, e: Entry)
    requires EntryOk(hash, Occurrences(tok, docs), h, e)
    ensures forall k :: 0 <= k < |e.ids| ==> e.ids[k] < |docs|
  {
    hide Occurrences, EntryOk;
    forall k | 0 <= k < |e.ids| ensures e.ids[k] < |docs| { IdFits(tok, hash, docs, h, e, e.ids[k]); }
  }

  lemma AllDrained(hash: text -> u64, occ: seq<Occurrence>, lex: Lexicon, left: set<u64>, words: seq<Word>)
    requires Collected(hash, occ, lex) && Drained(hash, occ, lex, left, words) && left == {}
    ensures WordsOf(hash, occ, words)
  {
    hide EntryOk, WordOf, HasHash;
    forall i | 0 <= i < |occ| ensures HasHash(words, hash(occ[i].token)) {
      assert Hits(hash, occ, i, hash(occ[i].token));
      assert hash(occ[i].token) in lex;
    }
  }

  function AsU32(ids: seq<nat>): (r: seq<u32>)
    requires forall k :: 0 <= k < |ids| ==> ids[k] < 0x1_0000_0000
    ensures r == ids
  {
    seq(|ids|, k requires 0 <= k < |ids| => ids[k] as u32)
  }

  /** Index a store's nodes: its words in hash order. */
  method Index(hash: text -> u64, tok: Tokenizer, docs: seq<BaseDoc>) returns (words: seq<Word>)
    requires |docs| <= 0x1_0000_0000
    ensures WordsOf(hash, Occurrences(tok, docs), words)
  {
    hide Collected, Drained, EntryOk, Occurrences;
    var lex := Accumulate(hash, tok, docs);
    ghost var occ := Occurrences(tok, docs);
    words := [];
    var left := lex.Keys;
    assert Drained(hash, occ, lex, left, words) by { NothingDrained(hash, occ, lex); }
    while left != {}
      invariant Drained(hash, occ, lex, left, words) && left <= lex.Keys
      decreases |left|
    {
      ghost var m := SmallestHash(left);
      var h :| h in left && forall g :: g in left ==> h <= g;
      assert EntryOk(hash, occ, h, lex[h]) by { EntryIn(hash, occ, lex, h); }
      IdsFit(tok, hash, docs, h, lex[h]);
      var ids := AsU32(lex[h].ids);
      DrainOne(hash, occ, lex, left, words, h, ids);
      words, left := words + [Word(h, lex[h].token, ids)], left - {h};
    }
    AllDrained(hash, occ, lex, left, words);
  }

  lemma NothingDrained(hash: text -> u64, occ: seq<Occurrence>, lex: Lexicon)
    ensures Drained(hash, occ, lex, lex.Keys, [])
  {
  }

  lemma EntryIn(hash: text -> u64, occ: seq<Occurrence>, lex: Lexicon, h: u64)
    requires Collected(hash, occ, lex) && h in lex
    ensures EntryOk(hash, occ, h, lex[h])
  {
  }

  lemma SmallestHash(s: set<u64>) returns (h: u64)
    requires s != {}
    ensures h in s && forall g :: g in s ==> h <= g
  {
    h :| h in s;
    var rest := s - {h};
    assert forall g :: g in s ==> g == h || g in rest;
    if rest != {} {
      var m := SmallestHash(rest);
      if m < h { h := m; }
    }
  }

  // ---- what the words say -----------------------------------------------------------------------------------

  ghost predicate InStore(tok: Tokenizer, docs: seq<BaseDoc>, t: text) {
    exists id :: 0 <= id < |docs| && t in TokensOf(tok, docs[id])
  }

  /** A word lists exactly the nodes that hold a token with its hash. */
  lemma WordListsHash(hash: text -> u64, tok: Tokenizer, docs: seq<BaseDoc>, w: Word, id: nat)
    requires WordOf(hash, Occurrences(tok, docs), w)
    ensures id in w.ids <==> id < |docs| && exists t :: t in TokensOf(tok, docs[id]) && hash(t) == w.hash
  {
    hide Occurrences, TokensOf;
    var occ := Occurrences(tok, docs);
    if id in w.ids {
      var i :| Hits(hash, occ, i, w.hash) && occ[i].id == id;
      OccurrencesAre(tok, docs, occ[i]);
      assert occ[i] in occ;
    }
    if id < |docs| && exists t :: t in TokensOf(tok, docs[id]) && hash(t) == w.hash {
      var t :| t in TokensOf(tok, docs[id]) && hash(t) == w.hash;
      OccurrencesAre(tok, docs, Occurrence(id, t));
      var i :| 0 <= i < |occ| && occ[i] == Occurrence(id, t);
      assert Hits(hash, occ, i, w.hash) && occ[i].id == id;
    }
  }

  lemma WordIsToken(hash: text -> u64, tok: Tokenizer, docs: seq<BaseDoc>, w: Word)
    requires WordOf(hash, Occurrences(tok, docs), w)
    ensures InStore(tok, docs, w.token) && hash(w.token) == w.hash
  {
    hide Occurrences, TokensOf;
    var occ := Occurrences(tok, docs);
    var i :| Hits(hash, occ, i, w.hash) && occ[i].token == w.token && forall j :: 0 <= j < i ==> !Hits(hash, occ, j, w.hash);
    OccurrencesAre(tok, docs, occ[i]);
    assert occ[i] in occ;
  }

  /** Where "://" stands. */
  predicate SlashesAt(url: text, p: int) { 0 <= p && p + 3 <= |url| && url[p] == 58 && url[p + 1] == 47 && url[p + 2] == 47 }

  /** A URL as it is searched: what follows the first "://" in it, or all of it without one; an
      empty one not at all. */
  ghost predicate BareUrl(url: text, x: text) {
    && url != []
    && if exists p :: SlashesAt(url, p)
       then exists p :: SlashesAt(url, p) && (forall q :: 0 <= q < p ==> !SlashesAt(url, q)) && x == url[p + 3..]
       else x == url
  }

  /** A text a document is found by. */
  ghost predicate FoundBy(d: BaseDoc, x: text) {
    || BareUrl(d.rec.url, x) || d.rec.title == Some(x) || d.rec.snippet == Some(x)
    || exists j :: 0 <= j < |d.segs| && d.segs[j].heading == x
  }

  lemma SearchableIsBare(url: text, x: text)
    requires url != []
    ensures BareUrl(url, x) <==> x == Searchable(url)
  {
    var p := SchemeAt(url, 0);
    forall q: nat ensures SlashesAt(url, q) <==> EndsScheme(url, q) { SlashesEnd(url, q); }
    if p.Some? {
      assert SlashesAt(url, p.value);
    } else {
      forall q ensures !SlashesAt(url, q) { assert q < 0 || !EndsScheme(url, q); }
    }
  }

  lemma SlashesEnd(url: text, q: nat)
    ensures SlashesAt(url, q) <==> EndsScheme(url, q)
  {
    if q + 3 <= |url| {
      var part := url[q..q + 3];
      assert part[0] == url[q] && part[1] == url[q + 1] && part[2] == url[q + 2];
      if SlashesAt(url, q) { assert part == [58, 47, 47]; }
    }
  }

  lemma TextsAre(d: BaseDoc, x: text)
    ensures x in Texts(d) <==> FoundBy(d, x)
  {
    hide Searchable, BareUrl;
    if d.rec.url != [] { SearchableIsBare(d.rec.url, x); } else { assert !BareUrl(d.rec.url, x) by { NoBareUrl(x); } }
    assert x in Headings(d.segs) <==> exists j :: 0 <= j < |d.segs| && d.segs[j].heading == x by {
      if j :| 0 <= j < |d.segs| && d.segs[j].heading == x { assert Headings(d.segs)[j] == x; }
    }
  }

  lemma NoBareUrl(x: text)
    ensures !BareUrl([], x)
  {
  }

  lemma {:induction false} TokensAre(tok: Tokenizer, texts: seq<text>, t: text)
    ensures t in Tokens(tok, texts) <==> exists x :: x in texts && t in tok(x)
  {
    if texts != [] {
      var most, last := texts[..|texts| - 1], texts[|texts| - 1];
      assert texts == most + [last];
      TokensAre(tok, most, t);
    }
  }

  /** In plain terms: a word lists a node just when a token of its URL without the scheme, its
      title, its snippet or one of its headings has the word's hash. */
  lemma WordListsTexts(hash: text -> u64, tok: Tokenizer, docs: seq<BaseDoc>, w: Word, id: nat)
    requires WordOf(hash, Occurrences(tok, docs), w)
    ensures id in w.ids <==>
      id < |docs| && exists x, t :: FoundBy(docs[id], x) && t in tok(x) && hash(t) == w.hash
  {
    hide Occurrences, Texts, FoundBy, WordOf;
    WordListsHash(hash, tok, docs, w, id);
    if id < |docs| {
      if t :| t in TokensOf(tok, docs[id]) && hash(t) == w.hash {
        TokensAre(tok, Texts(docs[id]), t);
        var x :| x in Texts(docs[id]) && t in tok(x);
        TextsAre(docs[id], x);
      }
      if x, t :| FoundBy(docs[id], x) && t in tok(x) && hash(t) == w.hash {
        TextsAre(docs[id], x);
        TokensAre(tok, Texts(docs[id]), t);
      }
    }
  }

  /** And every token of such a text is indexed: there is a word with its hash. */
  lemma TextsAreIndexed(hash: text -> u64, tok: Tokenizer, docs: seq<BaseDoc>, words: seq<Word>, id: nat, x: text, t: text) returns (k: nat)
    requires WordsOf(hash, Occurrences(tok, docs), words)
    requires id < |docs| && FoundBy(docs[id], x) && t in tok(x)
    ensures k < |words| && words[k].hash == hash(t) && id in words[k].ids
  {
    hide Occurrences, Texts, FoundBy, TokensOf;
    TextsAre(docs[id], x);
    TokensAre(tok, Texts(docs[id]), t);
    assert t in TokensOf(tok, docs[id]) by { TokensOfIs(tok, docs[id]); }
    k := TokensAreWords(hash, tok, docs, words, t);
    WordListsHash(hash, tok, docs, words[k], id);
  }

  lemma TokensOfIs(tok: Tokenizer, d: BaseDoc)
    ensures TokensOf(tok, d) == Tokens(tok, Texts(d))
  {
  }

  /** No node without the word's token holds another with its hash. */
  ghost predicate NoIntruder(hash: text -> u64, tok: Tokenizer, docs: seq<BaseDoc>, w: Word) {
    forall id, t :: 0 <= id < |docs| && t in TokensOf(tok, docs[id]) && hash(t) == w.hash ==> w.token in TokensOf(tok, docs[id])
  }

  /** A word lists exactly the nodes whose texts hold its token if and only if no node without
      the token holds another with its hash: such a node is listed too. */
  lemma WordListsTokenExactly(hash: text -> u64, tok: Tokenizer, docs: seq<BaseDoc>, w: Word)
    requires WordOf(hash, Occurrences(tok, docs), w)
    ensures (forall id: nat :: id in w.ids <==> id < |docs| && w.token in TokensOf(tok, docs[id]))
       <==> NoIntruder(hash, tok, docs, w)
  {
    hide Occurrences, TokensOf, WordOf;
    WordIsToken(hash, tok, docs, w);
    forall id: nat ensures id in w.ids <==> id < |docs| && exists t :: t in TokensOf(tok, docs[id]) && hash(t) == w.hash {
      WordListsHash(hash, tok, docs, w, id);
    }
  }

  /** A document with a title and nothing else. */
  function Titled(title: text): BaseDoc {
    BaseDoc(NodeRec([], Some(title), None, None, 0, 0, 0, 0, 0, 0, 0), [], [], [])
  }

  /** Two documents of one token each, their hashes alike: the one word of the store is the first
      token, and it lists the second document, which does not have it. */
  lemma CollisionMerges()
    ensures var hash, tok := (t: text) => 0 as u64, (t: text) => [t];
            var docs := [Titled([97]), Titled([98])];
            var w := Word(0, [97], [0, 1]);
            && WordsOf(hash, Occurrences(tok, docs), [w])
            && 1 in w.ids && w.token !in TokensOf(tok, docs[1]) && !NoIntruder(hash, tok, docs, w)
  {
    hide Occurrences, Titled, TokensOf;
    var hash, tok := (t: text) => 0 as u64, (t: text) => [t];
    var docs := [Titled([97]), Titled([98])];
    TwoTitles(tok, [97], [98]);
    var occ := Occurrences(tok, docs);
    assert Hits(hash, occ, 0, 0) && Hits(hash, occ, 1, 0);
    assert [Word(0, [97], [0, 1])][0].hash == 0;
  }

  lemma TwoTitles(tok: Tokenizer, a: text, b: text)
    requires tok(a) == [a] && tok(b) == [b]
    ensures TokensOf(tok, Titled(b)) == [b]
    ensures Occurrences(tok, [Titled(a), Titled(b)]) == [Occurrence(0, a), Occurrence(1, b)]
  {
    hide TokensOf, Titled;
    TitleTokens(tok, a);
    TitleTokens(tok, b);
    var docs := [Titled(a), Titled(b)];
    assert docs[..1] == [Titled(a)] && [Titled(a)][..0] == [];
    assert Occurrences(tok, docs[..1]) == Occurrences(tok, []) + At(0, [a]);
    assert Occurrences(tok, docs) == Occurrences(tok, docs[..1]) + At(1, [b]);
  }

  lemma TitleTokens(tok: Tokenizer, title: text)
    requires tok(title) == [title]
    ensures TokensOf(tok, Titled(title)) == [title]
  {
    assert Texts(Titled(title)) == [title];
    assert [title][..0] == [];
    assert Tokens(tok, [title]) == Tokens(tok, []) + tok(title);
  }

  /** The tokens of a store do not share hashes. */
  ghost predicate NoCollisions(hash: text -> u64, tok: Tokenizer, docs: seq<BaseDoc>) {
    forall t, u :: InStore(tok, docs, t) && InStore(tok, docs, u) && hash(t) == hash(u) ==> t == u
  }

  /** A token of the store is itself a word, not merged into another's, if and only if it is
      the one its hash was first seen with; without collisions every token is, with exactly
      its nodes. */
  lemma TokensAreWords(hash: text -> u64, tok: Tokenizer, docs: seq<BaseDoc>, words: seq<Word>, t: text) returns (k: nat)
    requires WordsOf(hash, Occurrences(tok, docs), words) && InStore(tok, docs, t)
    ensures k < |words| && words[k].hash == hash(t)
    ensures (exists j :: 0 <= j < |words| && words[j].token == t) <==> words[k].token == t
    ensures NoCollisions(hash, tok, docs) ==> words[k].token == t && NoIntruder(hash, tok, docs, words[k])
  {
    hide Occurrences, TokensOf, WordOf;
    var occ := Occurrences(tok, docs);
    var id :| 0 <= id < |docs| && t in TokensOf(tok, docs[id]);
    OccurrencesAre(tok, docs, Occurrence(id, t));
    var i :| 0 <= i < |occ| && occ[i] == Occurrence(id, t);
    assert HasHash(words, hash(occ[i].token));
    k :| 0 <= k < |words| && words[k].hash == hash(t);
    WordIsToken(hash, tok, docs, words[k]);
    if j :| 0 <= j < |words| && words[j].token == t {
      WordIsToken(hash, tok, docs, words[j]);
      assert !(j < k) && !(k < j);
    }
    if NoCollisions(hash, tok, docs) {
      forall d, u | 0 <= d < |docs| && u in TokensOf(tok, docs[d]) && hash(u) == words[k].hash
        ensures words[k].token in TokensOf(tok, docs[d])
      {
        assert InStore(tok, docs, u);
      }
    }
  }
}
