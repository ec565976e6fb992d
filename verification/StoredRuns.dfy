/** Runs and bytes: the file a compaction writes in an honest run, opened and read under any
    later overlay, reads as the reference machine. */
module StoredRuns {
  import opened Ops
  import opened History
  import opened Merge
  import opened Compaction
  import opened StoreRuns
  import T = Tables
  import E = InEdges
  import S = StoredBase
  import X = Indexing
  import L = Lexicon
  import F = BaseFile
  import O = BaseOpen
  import B = BaseImage
  import C = Container
  import P = Protocol
  import I = ProtocolInvariant
  import Safety = ProtocolSafety

  // ---- a file and the image it holds -------------------------------------------------------------

  /** The tables of an opened file. */
  function TablesIn(file: seq<byte>, d: C.Dir): T.Tables
    requires |d.owner| == C.OWNER_LEN && F.Lengths(O.CountsIn(d.owner), O.SectionsAt(d, file))
  {
    F.TablesOf(O.CountsIn(d.owner), O.SectionsAt(d, file))
  }

  /** A file that opens and holds a base image: every key and document of it, and no other. */
  ghost predicate FileOf(fileHash: C.Hash, utf8: F.Utf8, file: seq<byte>, image: Base, keys: seq<u64>, docs: seq<BaseDoc>, d: C.Dir) {
    && O.Opens(fileHash, utf8, file, d) && S.InKeyOrder(image, keys, docs)
    && B.DocsReadBack(O.CountsIn(d.owner), O.SectionsAt(d, file), keys, docs)
  }

  /** Looking a key up in the file finds what the image has for it. */
  lemma FileHoldsImage(
    fileHash: C.Hash, utf8: F.Utf8, file: seq<byte>, image: Base, keys: seq<u64>, docs: seq<BaseDoc>, d: C.Dir, k: u64)
    requires FileOf(fileHash, utf8, file, image, keys, docs, d)
    ensures T.InBounds(TablesIn(file, d)) && E.Lookup(TablesIn(file, d), k) == At(image, k)
  {
    hide T.InBounds, T.DocAt, F.TablesOf, F.Lengths, F.GraphOk, F.LexiconOk, C.Accepted, O.SectionsAt, O.CountsIn, T.KeysAscend;
    var t := TablesIn(file, d);
    if k in image {
      var i :| 0 <= i < |keys| && keys[i] == k;
      assert t.nodes[i].key == k;
    }
  }

  /** Key by key, a file read through an overlay of later ops is what the reference machine
      makes of `ops`. */
  ghost predicate FileReads(c: Config, t: T.Tables, later: seq<Op>, ops: seq<Op>) {
    T.InBounds(t) && forall k: u64 :: Same(Read(c, E.Lookup(t, k), At(OverlayFold(later), k)), Reference(c, ops, k))
  }

  /** In every honest run, the file of a served generation's image reads, through the overlay
      served with it, as the reference machine over the ops the generation shows. */
  lemma HonestFilesRead(
    c: Config, es: seq<P.Event>, v: P.Served, fileHash: C.Hash, utf8: F.Utf8, file: seq<byte>,
    keys: seq<u64>, docs: seq<BaseDoc>, d: C.Dir)
    requires HonestRun(c, es) && P.Run(P.INITIAL, es).Some?
    requires var s := P.Run(P.INITIAL, es).value; I.ServedOk(s.hist, s.cuts, v)
    requires v.base.gen in ImagesOf(c, es)
    requires FileOf(fileHash, utf8, file, ImagesOf(c, es)[v.base.gen], keys, docs, d)
    ensures FileReads(c, TablesIn(file, d), OpsOf(v.overlay), P.ViewOps(v))
  {
    hide Faithful, Same, Reference, Read, I.ServedOk, I.Inv, T.InBounds, E.Lookup, TablesIn, P.ViewOps, OverlayFold;
    RunIsFaithful(c, es);
    var s, image, t := P.Run(P.INITIAL, es).value, ImagesOf(c, es)[v.base.gen], TablesIn(file, d);
    FileHoldsImage(fileHash, utf8, file, image, keys, docs, d, 0);
    forall k: u64 ensures Same(Read(c, E.Lookup(t, k), At(OverlayFold(OpsOf(v.overlay)), k)), Reference(c, P.ViewOps(v), k)) {
      FileHoldsImage(fileHash, utf8, file, image, keys, docs, d, k);
      ServedReads(c, ImagesOf(c, es), s.hist, s.cuts, v, k);
    }
  }

  /** So a fresh load, from the file of the base on disk and the log, reads every key as the
      reference machine does over every committed op. */
  lemma FreshLoadReadsFile(
    c: Config, es: seq<P.Event>, fileHash: C.Hash, utf8: F.Utf8, file: seq<byte>, keys: seq<u64>, docs: seq<BaseDoc>, d: C.Dir)
    requires HonestRun(c, es) && P.Run(P.INITIAL, es).Some?
    requires var s := P.Run(P.INITIAL, es).value;
             && s.disk.base.gen in ImagesOf(c, es)
             && FileOf(fileHash, utf8, file, ImagesOf(c, es)[s.disk.base.gen], keys, docs, d)
    ensures var s := P.Run(P.INITIAL, es).value;
            var o := P.Build(s.disk.base, s.disk.log);
            o.Applied? && FileReads(c, TablesIn(file, d), OpsOf(o.served.overlay), AllOps(s.hist))
  {
    hide HonestRun, ImagesOf, P.Run, FileOf, FileReads, TablesIn, Faithful;
    RunIsFaithful(c, es);
    var s := P.Run(P.INITIAL, es).value;
    Safety.FilesAreDurable(s.hist, s.cuts, s.disk, s.nextId);
    I.BuildIsComplete(s.hist, s.cuts, s.disk, s.nextId, s.disk.base);
    HonestFilesRead(c, es, P.Build(s.disk.base, s.disk.log).served, fileHash, utf8, file, keys, docs, d);
  }

  // ---- what a compaction wrote stays what it wrote ---------------------------------------------------

  lemma HonestPrefix(c: Config, es: seq<P.Event>, e: P.Event)
    requires HonestRun(c, es + [e])
    ensures HonestRun(c, es) && P.Run(P.INITIAL, es).Some? && P.Enabled(P.Run(P.INITIAL, es).value, e)
    ensures Safety.Safe(P.Run(P.INITIAL, es).value, e)
    ensures P.Run(P.INITIAL, es + [e]) == Some(P.Apply(P.Run(P.INITIAL, es).value, e))
    ensures ImagesOf(c, es + [e]) == ImagesAfter(c, ImagesOf(c, es), P.Run(P.INITIAL, es).value, e)
  {
    hide P.Apply, P.Enabled, Safety.Safe, WellStaged, ImagesAfter;
    assert (es + [e])[..|es + [e]| - 1] == es;
  }

  /** No step writes a base that is there already, or takes a generation back. */
  lemma ImageStays(c: Config, es: seq<P.Event>, e: P.Event, g: nat)
    requires HonestRun(c, es + [e])
    requires P.Run(P.INITIAL, es).Some? ==> g in P.Run(P.INITIAL, es).value.cuts && g in ImagesOf(c, es)
    ensures P.Run(P.INITIAL, es + [e]).Some? && g in P.Run(P.INITIAL, es + [e]).value.cuts
    ensures g in ImagesOf(c, es + [e]) && ImagesOf(c, es + [e])[g] == ImagesOf(c, es)[g]
  {
    hide HonestRun, ImagesOf, P.Run, I.Inv, Faithful, P.Apply, Compact, Safety.Safe;
    HonestPrefix(c, es, e);
    RunIsFaithful(c, es);
    var s := P.Run(P.INITIAL, es).value;
    if e.SwapBase? {
      SwapFacts(s, e.h);
    } else if e.LandAll? {
      LandLeavesCuts(s, e.h);
    } else {
      OtherStepsMove(s, e);
    }
  }

  lemma {:induction false} ImagesStay(c: Config, es: seq<P.Event>, more: seq<P.Event>, g: nat)
    requires HonestRun(c, es + more) && HonestRun(c, es)
    requires P.Run(P.INITIAL, es).Some? && g in P.Run(P.INITIAL, es).value.cuts && g in ImagesOf(c, es)
    ensures P.Run(P.INITIAL, es + more).Some? && g in P.Run(P.INITIAL, es + more).value.cuts
    ensures g in ImagesOf(c, es + more) && ImagesOf(c, es + more)[g] == ImagesOf(c, es)[g]
    decreases |more|
  {
    hide HonestRun, ImagesOf, P.Run;
    if more == [] {
      assert es + more == es;
    } else {
      var most, e := more[..|more| - 1], more[|more| - 1];
      assert es + more == es + most + [e];
      HonestPrefix(c, es + most, e);
      ImagesStay(c, es, most, g);
      ImageStays(c, es + most, e, g);
    }
  }

  /** A compaction's first rename puts what it collected under its new generation. */
  lemma SwapWrites(c: Config, es: seq<P.Event>, h: nat)
    requires HonestRun(c, es + [P.SwapBase(h)])
    ensures var s := P.Run(P.INITIAL, es);
            && s.Some? && P.Enabled(s.value, P.SwapBase(h))
            && var v, g := s.value.handles[h].served.value, P.Apply(s.value, P.SwapBase(h)).disk.base.gen;
               && v.base.gen in ImagesOf(c, es)
               && g in ImagesOf(c, es + [P.SwapBase(h)]) && g in P.Apply(s.value, P.SwapBase(h)).cuts
               && ImagesOf(c, es + [P.SwapBase(h)])[g]
                  == Compact(c, ImagesOf(c, es)[v.base.gen], OverlayFold(OpsOf(v.overlay)))
  {
    hide HonestRun, ImagesOf, P.Run, I.Inv, Faithful, Compact, Safety.Safe, Same, Reference, ReadServed, I.ServedOk,
      OverlayFold, P.ViewOps, WellFormedHistory, Renders;
    HonestPrefix(c, es, P.SwapBase(h));
    RunIsFaithful(c, es);
    var s := P.Run(P.INITIAL, es).value;
    SwapFacts(s, h);
    ServedReads(c, ImagesOf(c, es), s.hist, s.cuts, s.handles[h].served.value, 0);
  }

  /** The end to end of it: a handle compacts in an honest run; the file written from what it
      collected is opened. However the run goes on, whoever serves that generation, with
      whatever overlay: reading the file's own bytes through the overlay is the reference
      machine over the ops shown. */
  lemma CompactedFileReads(
    c: Config, es: seq<P.Event>, h: nat, more: seq<P.Event>, v: P.Served,
    fileHash: C.Hash, utf8: F.Utf8, file: seq<byte>, keys: seq<u64>, docs: seq<BaseDoc>, d: C.Dir)
    requires HonestRun(c, es + [P.SwapBase(h)]) && HonestRun(c, es + [P.SwapBase(h)] + more)
    requires P.Run(P.INITIAL, es).Some? && P.Enabled(P.Run(P.INITIAL, es).value, P.SwapBase(h))
    requires var s := P.Run(P.INITIAL, es).value;
             var was := s.handles[h].served.value;
             && was.base.gen in ImagesOf(c, es)
             && FileOf(fileHash, utf8, file, Compact(c, ImagesOf(c, es)[was.base.gen], OverlayFold(OpsOf(was.overlay))), keys, docs, d)
             && v.base.gen == P.Apply(s, P.SwapBase(h)).disk.base.gen
    requires P.Run(P.INITIAL, es + [P.SwapBase(h)] + more).Some?
    requires var t := P.Run(P.INITIAL, es + [P.SwapBase(h)] + more).value; I.ServedOk(t.hist, t.cuts, v)
    ensures FileReads(c, TablesIn(file, d), OpsOf(v.overlay), P.ViewOps(v))
  {
    hide HonestRun, ImagesOf, P.Run, P.Apply, P.Enabled, Compact, FileOf, FileReads, I.ServedOk, OverlayFold, TablesIn;
    SwapWrites(c, es, h);
    HonestPrefix(c, es, P.SwapBase(h));
    ImagesStay(c, es + [P.SwapBase(h)], more, v.base.gen);
    HonestFilesRead(c, es + [P.SwapBase(h)] + more, v, fileHash, utf8, file, keys, docs, d);
  }

  // ---- from a view to a file -----------------------------------------------------------------------------

  /** What the encoders guarantee of a document's texts, and the tokenizer of its tokens. */
  ghost predicate DocOk(utf8: F.Utf8, tok: X.Tokenizer, d: BaseDoc) {
    && T.Storable(d) && B.DocTextsOk(utf8, d)
    && forall t :: t in X.TokensOf(tok, d) ==> |t| < 0x1_0000 && utf8(t)
  }

  /** What has been put in order: everything not `left`, all of it before what is. */
  ghost predicate Ordered(base: Base, left: set<u64>, keys: seq<u64>, docs: seq<BaseDoc>) {
    && left <= base.Keys && |docs| == |keys| && T.KeysAscend(keys)
    && (forall k :: k in keys <==> k in base && k !in left)
    && (forall i, k :: 0 <= i < |keys| && k in left ==> keys[i] < k)
    && forall i :: 0 <= i < |keys| ==> keys[i] in base && docs[i] == base[keys[i]]
  }

  lemma OrderOne(base: Base, left: set<u64>, keys: seq<u64>, docs: seq<BaseDoc>, k: u64)
    requires Ordered(base, left, keys, docs) && k in left && forall g :: g in left ==> k <= g
    ensures k in base && Ordered(base, left - {k}, keys + [k], docs + [base[k]])
  {
    var next := keys + [k];
    forall g ensures g in next <==> g in base && g !in left - {k} {
      assert g in next <==> g in keys || g == k;
    }
  }

  /** A base's documents in key order. */
  method InOrder(base: Base) returns (keys: seq<u64>, docs: seq<BaseDoc>)
    ensures S.InKeyOrder(base, keys, docs)
  {
    hide Ordered;
    keys, docs := [], [];
    var left := base.Keys;
    assert Ordered(base, left, [], []) by { NothingOrdered(base); }
    while left != {}
      invariant left <= base.Keys && Ordered(base, left, keys, docs)
      decreases |left|
    {
      ghost var m := X.SmallestHash(left);
      var k :| k in left && forall g :: g in left ==> k <= g;
      OrderOne(base, left, keys, docs, k);
      keys, docs, left := keys + [k], docs + [base[k]], left - {k};
    }
    AllOrdered(base, left, keys, docs);
  }

  lemma NothingOrdered(base: Base)
    ensures Ordered(base, base.Keys, [], [])
  {
  }

  lemma AllOrdered(base: Base, left: set<u64>, keys: seq<u64>, docs: seq<BaseDoc>)
    requires Ordered(base, left, keys, docs) && left == {}
    ensures S.InKeyOrder(base, keys, docs)
  {
  }

  /** The whole of a compaction's rendering: collect through the merged read, manage stubs,
      order, index, lay out and write. Whenever the compacted image and its vocabulary are within
      the fields of the file, it opens and holds exactly them, under the stamps given. */
  method CompactToFile(
    c: Config, base: Base, overlay: Overlay, all: seq<u64>, fileHash: C.Hash, hash: text -> u64, utf8: F.Utf8, tok: X.Tokenizer,
    rank: seq<BaseDoc> -> seq<byte>, gen: u64, applied: u64, created: u64)
    returns (file: seq<byte>, keys: seq<u64>, docs: seq<BaseDoc>, words: seq<X.Word>, x: L.Index)
    requires (forall k :: k in all <==> k in Keys(base, overlay)) && forall i, j :: 0 <= i < j < |all| ==> all[i] < all[j]
    requires EdgesAscend(base) && OverlayAscends(overlay)
    requires forall k :: k in Compact(c, base, overlay) ==> DocOk(utf8, tok, Compact(c, base, overlay)[k])
    requires |Compact(c, base, overlay)| <= 0x1_0000_0000 && forall ds :: |rank(ds)| == 2 * |ds|
    ensures S.InKeyOrder(Compact(c, base, overlay), keys, docs)
    ensures X.WordsOf(hash, X.Occurrences(tok, docs), words)
    ensures B.InFields(docs, words) ==> exists d ::
      && FileOf(fileHash, utf8, file, Compact(c, base, overlay), keys, docs, d)
      && B.OpensAs(fileHash, hash, utf8, file, keys, docs, words, x, B.Stamps(gen, applied, created), d)
  {
    hide Compact, DocOk, S.InKeyOrder, T.Renderable, B.TextsOk, B.TokensOk, B.OpensAs, B.InFields, X.WordsOf, X.Occurrences, FileOf;
    var image := CompactModels(c, base, overlay, all);
    keys, docs := InOrder(image);
    DocsAreOk(c, base, overlay, utf8, tok, keys, docs);
    file, words, x := B.WriteBase(fileHash, hash, utf8, tok, keys, docs, rank(docs), gen, applied, created);
    if B.InFields(docs, words) {
      ghost var d :| B.OpensAs(fileHash, hash, utf8, file, keys, docs, words, x, B.Stamps(gen, applied, created), d);
      OpensAsFile(fileHash, hash, utf8, file, image, keys, docs, words, x, B.Stamps(gen, applied, created), d);
    }
  }

  lemma OpensAsFile(
    fileHash: C.Hash, hash: text -> u64, utf8: F.Utf8, file: seq<byte>, image: Base, keys: seq<u64>, docs: seq<BaseDoc>,
    words: seq<X.Word>, x: L.Index, stamps: seq<nat>, d: C.Dir)
    requires B.OpensAs(fileHash, hash, utf8, file, keys, docs, words, x, stamps, d) && S.InKeyOrder(image, keys, docs)
    ensures FileOf(fileHash, utf8, file, image, keys, docs, d)
  {
    hide O.Checked, C.Accepted, B.DocsReadBack, B.WordsReadBack, S.InKeyOrder;
  }

  /** Ascending keys are as many as the base has. */
  lemma {:induction false} KeyCount(base: Base, keys: seq<u64>)
    requires T.KeysAscend(keys) && forall k :: k in keys ==> k in base
    ensures |keys| <= |base|
    decreases |keys|
  {
    if keys != [] {
      var last := keys[|keys| - 1];
      var rest := base - {last};
      assert rest.Keys == base.Keys - {last};
      KeyCount(rest, keys[..|keys| - 1]);
    }
  }

  lemma DocsAreOk(c: Config, base: Base, overlay: Overlay, utf8: F.Utf8, tok: X.Tokenizer, keys: seq<u64>, docs: seq<BaseDoc>)
    requires EdgesAscend(base) && OverlayAscends(overlay)
    requires forall k :: k in Compact(c, base, overlay) ==> DocOk(utf8, tok, Compact(c, base, overlay)[k])
    requires S.InKeyOrder(Compact(c, base, overlay), keys, docs)
    ensures T.Renderable(keys, docs) && B.TextsOk(utf8, docs) && B.TokensOk(utf8, tok, docs)
    ensures |docs| <= |Compact(c, base, overlay)|
  {
    hide Compact, EdgesAscend, OverlayAscends, T.Renderable, X.TokensOf, T.Storable, B.DocTextsOk;
    var image := Compact(c, base, overlay);
    forall i | 0 <= i < |docs| ensures DocOk(utf8, tok, docs[i]) { assert keys[i] in image; }
    S.CompactedIsRenderable(c, base, overlay, keys, docs);
    KeyCount(image, keys);
  }
}
