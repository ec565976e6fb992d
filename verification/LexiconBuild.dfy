/** The search indices compaction builds over a vocabulary, as `Lexicon` needs them. */
module LexiconBuild {
  import opened Ops
  import opened TextOrder
  import opened Lexicon

  // ---- string order ----------------------------------------------------------------------------

  ghost predicate DistinctTokens(tokens: seq<text>) { forall i, j :: 0 <= i < j < |tokens| ==> tokens[i] != tokens[j] }

  /** Token ids sorted by their strings. */
  method BuildOrder(tokens: seq<text>) returns (order: seq<nat>)
    requires DistinctTokens(tokens)
    ensures StringOrder(tokens, order)
  {
    hide Before;
    order := [];
    for i := 0 to |tokens|
      invariant StringOrder(tokens[..i], order)
    {
      var p := LowerBound(tokens[..i], order, tokens[i]);
      Inserted(tokens, i, order, p);
      order := order[..p] + [i] + order[p..];
    }
    assert tokens[..|tokens|] == tokens;
  }

  /** The strings around the place found for a token. */
  lemma InsertedSorted(tokens: seq<text>, i: nat, order: seq<nat>, p: nat, k: nat, l: nat)
    requires DistinctTokens(tokens) && i < |tokens| && StringOrder(tokens[..i], order) && p <= |order|
    requires forall k :: 0 <= k < p ==> Before(tokens[..i][order[k]], tokens[i])
    requires forall k :: p <= k < |order| ==> !Before(tokens[..i][order[k]], tokens[i])
    requires k < l <= |order|
    ensures var all := order[..p] + [i] + order[p..];
            all[k] != all[l] && all[k] <= i && all[l] <= i && Before(tokens[all[k]], tokens[all[l]])
  {
    hide Before;
    var all := order[..p] + [i] + order[p..];
    var a := if k < p then k else k - 1;
    var b := if l < p then l else l - 1;
    assert k != p ==> all[k] == order[a];
    assert l != p ==> all[l] == order[b];
    if k == p {
      BeforeIsTotal(tokens[order[b]], tokens[i]);
    } else if l != p {
      assert Before(tokens[..i][order[a]], tokens[..i][order[b]]);
    }
  }

  lemma Inserted(tokens: seq<text>, i: nat, order: seq<nat>, p: nat)
    requires DistinctTokens(tokens) && i < |tokens| && StringOrder(tokens[..i], order) && p <= |order|
    requires forall k :: 0 <= k < p ==> Before(tokens[..i][order[k]], tokens[i])
    requires forall k :: p <= k < |order| ==> !Before(tokens[..i][order[k]], tokens[i])
    ensures StringOrder(tokens[..i + 1], order[..p] + [i] + order[p..])
  {
    var all := order[..p] + [i] + order[p..];
    InsertedAll(i, order, p);
    forall k, l | 0 <= k < l < |all| ensures all[k] != all[l] && Before(tokens[..i + 1][all[k]], tokens[..i + 1][all[l]]) {
      InsertedSorted(tokens, i, order, p, k, l);
    }
    hide Before, DistinctTokens;
    assert forall j :: 0 <= j < |tokens[..i]| ==> j in order;
  }

  lemma InsertedAll(i: nat, order: seq<nat>, p: nat)
    requires p <= |order| && forall k :: 0 <= k < |order| ==> order[k] < i
    ensures var all := order[..p] + [i] + order[p..];
            && (forall k :: 0 <= k < |all| ==> all[k] < i + 1)
            && (forall j :: j in order || j == i ==> j in all)
  {
    var all := order[..p] + [i] + order[p..];
    assert order == order[..p] + order[p..];
    assert all[p] == i;
  }

  // ---- trigrams -----------------------------------------------------------------------------------

  /** Posting lists so far: tokens below `i`, and windows of token `i` before `w`. */
  ghost predicate Posted(tokens: seq<text>, grams: map<nat, seq<nat>>, i: nat, w: nat)
    requires i <= |tokens| && (w > 0 ==> i < |tokens|)
  {
    && (forall g, t: nat :: t in IdsOf(grams, g) <==> Seen(tokens, i, w, t, g))
    && forall g :: g in grams ==> grams[g] != [] && Ascending(grams[g])
  }

  function IdsOf(grams: map<nat, seq<nat>>, g: nat): seq<nat> { if g in grams then grams[g] else [] }

  ghost predicate Seen(tokens: seq<text>, i: nat, w: nat, t: nat, g: nat)
    requires i <= |tokens| && (w > 0 ==> i < |tokens|)
  {
    (t < i && HasGram(tokens[t], g)) || (t == i && w > 0 && GramBefore(tokens[i], w, g))
  }

  ghost predicate GramBefore(t: text, w: nat, g: nat) { exists p :: 0 <= p < w && p + 3 <= |t| && GramAt(t, p) == g }

  ghost predicate Ascending(ids: seq<nat>) { forall k, l :: 0 <= k < l < |ids| ==> ids[k] < ids[l] }

  lemma GramStep(t: text, w: nat, g: nat)
    requires w + 3 <= |t|
    ensures GramBefore(t, w + 1, g) <==> GramBefore(t, w, g) || GramAt(t, w) == g
  {
    if GramAt(t, w) == g { assert 0 <= w < w + 1; }
  }

  /** Posting one window: its trigram's list gains the token, unless it has it already. */
  lemma PostOne(tokens: seq<text>, grams: map<nat, seq<nat>>, i: nat, w: nat)
    requires i < |tokens| && w + 3 <= |tokens[i]| && Posted(tokens, grams, i, w)
    ensures var g := GramAt(tokens[i], w);
            var ids := IdsOf(grams, g);
            var ids' := if ids == [] || ids[|ids| - 1] != i then ids + [i] else ids;
            Posted(tokens, grams[g := ids'], i, w + 1)
  {
    hide HasGram, GramBefore, GramAt;
    var g := GramAt(tokens[i], w);
    var ids := IdsOf(grams, g);
    var ids' := if ids == [] || ids[|ids| - 1] != i then ids + [i] else ids;
    forall k | 0 <= k < |ids| ensures ids[k] <= i {
      assert ids[k] in ids;
      assert Seen(tokens, i, w, ids[k], g);
    }
    var next := w + 1;
    forall h, t: nat ensures t in IdsOf(grams[g := ids'], h) <==> Seen(tokens, i, next, t, h) {
      GramStep(tokens[i], w, h);
      assert t in IdsOf(grams, h) <==> Seen(tokens, i, w, t, h);
      if w == 0 { NoneBefore(tokens[i], h); }
      if h == g && ids' == ids { assert ids[|ids| - 1] == i; }
    }
  }

  lemma NoneBefore(t: text, g: nat)
    ensures !GramBefore(t, 0, g)
  {
  }

  lemma TokenDone(tokens: seq<text>, grams: map<nat, seq<nat>>, i: nat, w: nat)
    requires i < |tokens| && Posted(tokens, grams, i, w) && w + 3 > |tokens[i]| && (w > 0 ==> w + 2 == |tokens[i]|)
    ensures Posted(tokens, grams, i + 1, 0)
  {
    hide GramAt, GramBefore, HasGram;
    forall g, t: nat ensures t in IdsOf(grams, g) <==> Seen(tokens, i + 1, 0, t, g) {
      assert t in IdsOf(grams, g) <==> Seen(tokens, i, w, t, g);
      AllWindows(tokens[i], w, g);
    }
  }

  lemma AllWindows(t: text, w: nat, g: nat)
    requires w + 3 > |t| && (w > 0 ==> w + 2 == |t|)
    ensures HasGram(t, g) <==> w > 0 && GramBefore(t, w, g)
  {
    hide GramAt;
  }

  /** Every window of every token, tokens in order. */
  method PostAll(tokens: seq<text>) returns (grams: map<nat, seq<nat>>)
    ensures Posted(tokens, grams, |tokens|, 0)
  {
    hide Posted;
    grams := map[];
    NothingPosted(tokens);
    for i := 0 to |tokens|
      invariant Posted(tokens, grams, i, 0)
    {
      var w := 0;
      while w + 3 <= |tokens[i]|
        invariant 0 <= w && (w > 0 ==> w + 2 <= |tokens[i]|)
        invariant Posted(tokens, grams, i, w)
      {
        PostOne(tokens, grams, i, w);
        var g := GramAt(tokens[i], w);
        var ids := IdsOf(grams, g);
        if ids == [] || ids[|ids| - 1] != i {
          ids := ids + [i];
        }
        grams := grams[g := ids];
        w := w + 1;
      }
      TokenDone(tokens, grams, i, w);
    }
  }

  lemma NothingPosted(tokens: seq<text>)
    ensures Posted(tokens, map[], 0, 0)
  {
    var none: map<nat, seq<nat>> := map[];
    forall g, t: nat ensures t in IdsOf(none, g) <==> Seen(tokens, 0, 0, t, g) {}
  }

  /** Every token with each of its trigrams. */
  ghost function Pairs(tokens: seq<text>): (ps: set<(nat, nat)>)
    ensures forall g: nat, i: nat :: (g, i) in ps <==> i < |tokens| && HasGram(tokens[i], g)
  {
    set i: nat, p: nat | i < |tokens| && p < |tokens[i]| && p + 3 <= |tokens[i]| :: (GramAt(tokens[i], p), i)
  }

  /** The pairs of the trigrams that are not `left`. */
  ghost function PairsOutside(tokens: seq<text>, left: set<nat>): set<(nat, nat)> {
    set pr | pr in Pairs(tokens) && pr.0 !in left
  }

  ghost function PairsAt(g: nat, ids: seq<nat>): (ps: set<(nat, nat)>)
    ensures forall h: nat, i: nat :: (h, i) in ps <==> h == g && i in ids
  {
    if ids == [] then {}
    else
      assert ids == ids[..|ids| - 1] + [ids[|ids| - 1]];
      PairsAt(g, ids[..|ids| - 1]) + {(g, ids[|ids| - 1])}
  }

  lemma {:induction false} PairsAtCount(g: nat, ids: seq<nat>)
    requires Distinct(ids)
    ensures |PairsAt(g, ids)| == |ids|
  {
    if ids != [] {
      var most := ids[..|ids| - 1];
      PairsAtCount(g, most);
      assert ids[|ids| - 1] !in most;
    }
  }

  /** Laying one list out accounts for the pairs of its trigram. */
  lemma OutsideGrows(tokens: seq<text>, grams: map<nat, seq<nat>>, left: set<nat>, g: nat)
    requires Posted(tokens, grams, |tokens|, 0) && g in left && g in grams
    ensures |PairsOutside(tokens, left - {g})| == |PairsOutside(tokens, left)| + |grams[g]|
  {
    hide HasGram;
    var ids := grams[g];
    PairsAtCount(g, ids);
    forall t: nat ensures t in ids <==> t < |tokens| && HasGram(tokens[t], g) {
      assert t in IdsOf(grams, g) <==> Seen(tokens, |tokens|, 0, t, g);
    }
    var before, after := PairsOutside(tokens, left), PairsOutside(tokens, left - {g});
    forall h: nat, i: nat ensures (h, i) in after <==> (h, i) in before + PairsAt(g, ids) {}
    forall pr: (nat, nat) ensures pr in after <==> pr in before + PairsAt(g, ids) { assert pr == (pr.0, pr.1); }
    assert after == before + PairsAt(g, ids);
    assert before !! PairsAt(g, ids);
  }

  lemma NothingOutside(tokens: seq<text>, grams: map<nat, seq<nat>>)
    requires Posted(tokens, grams, |tokens|, 0)
    ensures PairsOutside(tokens, grams.Keys) == {}
  {
    hide HasGram;
    forall g: nat, i: nat | (g, i) in Pairs(tokens) ensures g in grams {
      assert Seen(tokens, |tokens|, 0, i, g);
      assert i in IdsOf(grams, g);
    }
  }

  lemma AllOutside(tokens: seq<text>)
    ensures PairsOutside(tokens, {}) == Pairs(tokens)
  {
  }

  /** What has been laid out: the lists of every trigram not `left`, in order. */
  ghost predicate LaidOut(tokens: seq<text>, grams: map<nat, seq<nat>>, left: set<nat>, tri: seq<TriRec>, post: seq<nat>) {
    && left <= grams.Keys
    && (forall g :: g in grams && g !in left ==> exists k :: 0 <= k < |tri| && tri[k].gram == g)
    && (forall k, g :: 0 <= k < |tri| && g in left ==> tri[k].gram < g)
    && (forall k, l :: 0 <= k < l < |tri| ==> tri[k].gram < tri[l].gram)
    && (forall k :: 0 <= k < |tri| ==> TriRecOk(tokens, tri[k], post))
    && Below(post, |tokens|)
  }

  lemma LayOne(tokens: seq<text>, grams: map<nat, seq<nat>>, left: set<nat>, tri: seq<TriRec>, post: seq<nat>, g: nat)
    requires Posted(tokens, grams, |tokens|, 0) && LaidOut(tokens, grams, left, tri, post)
    requires g in left && forall h :: h in left ==> g <= h
    ensures g in grams
    ensures LaidOut(tokens, grams, left - {g}, tri + [TriRec(g, |post|, |grams[g]|)], post + grams[g])
  {
    hide HasGram, TriRecOk, Posted;
    var ids := grams[g];
    var r := TriRec(g, |post|, |ids|);
    RunOk(tokens, grams, g, post);
    RunBelow(tokens, grams, g);
    forall k | 0 <= k < |tri| ensures TriRecOk(tokens, tri[k], post + ids) { RunKept(tokens, tri[k], post, ids); }
    var next := tri + [r];
    forall h | h in grams && h !in left - {g} ensures exists k :: 0 <= k < |next| && next[k].gram == h {
      if h == g {
        assert next[|tri|].gram == h;
      } else {
        var k :| 0 <= k < |tri| && tri[k].gram == h;
        assert next[k].gram == h;
      }
    }
  }

  lemma RunBelow(tokens: seq<text>, grams: map<nat, seq<nat>>, g: nat)
    requires Posted(tokens, grams, |tokens|, 0) && g in grams
    ensures Below(grams[g], |tokens|)
  {
    hide HasGram;
    var ids := grams[g];
    forall k | 0 <= k < |ids| ensures ids[k] < |tokens| {
      assert ids[k] in IdsOf(grams, g);
      assert Seen(tokens, |tokens|, 0, ids[k], g);
    }
  }

  /** Lay the posting lists out in trigram order: one posting for each token and each of its
      trigrams. */
  method BuildTrigrams(tokens: seq<text>) returns (tri: seq<TriRec>, post: seq<nat>)
    ensures Trigrams(tokens, tri, post) && Below(post, |tokens|) && |post| == |Pairs(tokens)|
  {
    hide Posted, LaidOut, PairsOutside, Pairs;
    var grams := PostAll(tokens);
    tri, post := [], [];
    var left := grams.Keys;
    NothingLaidOut(tokens, grams);
    NothingOutside(tokens, grams);
    while left != {}
      invariant LaidOut(tokens, grams, left, tri, post) && |post| == |PairsOutside(tokens, left)|
      decreases |left|
    {
      ghost var m := Smallest(left);
      var g :| g in left && forall h :: h in left ==> g <= h;
      LayOne(tokens, grams, left, tri, post, g);
      OutsideGrows(tokens, grams, left, g);
      tri, post, left := tri + [TriRec(g, |post|, |grams[g]|)], post + grams[g], left - {g};
    }
    AllLaidOut(tokens, grams, tri, post);
    AllOutside(tokens);
  }

  lemma NothingLaidOut(tokens: seq<text>, grams: map<nat, seq<nat>>)
    ensures LaidOut(tokens, grams, grams.Keys, [], [])
  {
  }

  lemma AllLaidOut(tokens: seq<text>, grams: map<nat, seq<nat>>, tri: seq<TriRec>, post: seq<nat>)
    requires Posted(tokens, grams, |tokens|, 0) && LaidOut(tokens, grams, {}, tri, post)
    ensures Trigrams(tokens, tri, post) && Below(post, |tokens|)
  {
    hide HasGram, TriRecOk;
    forall i, g | 0 <= i < |tokens| && HasGram(tokens[i], g) ensures exists k :: 0 <= k < |tri| && tri[k].gram == g {
      assert Seen(tokens, |tokens|, 0, i, g);
      assert i in IdsOf(grams, g);
      assert g in grams;
    }
  }

  lemma RunOk(tokens: seq<text>, grams: map<nat, seq<nat>>, g: nat, post: seq<nat>)
    requires Posted(tokens, grams, |tokens|, 0) && g in grams
    ensures TriRecOk(tokens, TriRec(g, |post|, |grams[g]|), post + grams[g])
  {
    hide HasGram;
    var ids := grams[g];
    forall t: nat ensures t in ids <==> t < |tokens| && HasGram(tokens[t], g) {
      assert t in IdsOf(grams, g) <==> Seen(tokens, |tokens|, 0, t, g);
    }
    RunAt(tokens, g, ids, post);
  }

  lemma RunAt(tokens: seq<text>, g: nat, ids: seq<nat>, post: seq<nat>)
    requires ids != [] && Distinct(ids)
    requires forall t: nat :: t in ids <==> t < |tokens| && HasGram(tokens[t], g)
    ensures TriRecOk(tokens, TriRec(g, |post|, |ids|), post + ids)
  {
    hide HasGram;
    assert (post + ids)[|post|..|post| + |ids|] == ids;
    assert RunLists(tokens, g, ids);
  }

  lemma RunKept(tokens: seq<text>, r: TriRec, post: seq<nat>, more: seq<nat>)
    requires TriRecOk(tokens, r, post)
    ensures TriRecOk(tokens, r, post + more)
  {
    hide RunLists;
    assert (post + more)[r.off..r.off + r.len] == post[r.off..r.off + r.len];
  }

  /** The whole index over a vocabulary in hash order. */
  method BuildIndex(hash: text -> u64, hashes: seq<u64>, tokens: seq<text>) returns (x: Index)
    requires |hashes| == |tokens| && forall i :: 0 <= i < |tokens| ==> hashes[i] == hash(tokens[i])
    requires forall i, j :: 0 <= i < j < |hashes| ==> hashes[i] < hashes[j]
    ensures Indexed(hash, x) && x.tokens == tokens && x.hashes == hashes && Below(x.post, |tokens|)
    ensures |x.post| == |Pairs(tokens)|
  {
    hide StringOrder, Trigrams, Pairs;
    forall i, j | 0 <= i < j < |tokens| ensures tokens[i] != tokens[j] {
      assert hashes[i] < hashes[j];
    }
    var order := BuildOrder(tokens);
    var tri, post := BuildTrigrams(tokens);
    x := Index(hashes, tokens, order, tri, post);
  }
}
