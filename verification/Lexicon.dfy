/** Vocabulary lookup without a scan: by hash, by prefix in string order, and by the rarest
    trigram. It emits what a scan of every token would, each once at its best tier. */
module Lexicon {
  import opened Ops
  import opened TextOrder

  datatype Tier = Exact | Prefix | Substr

  /** A trigram's posting run: `len` token ids from `off`. */
  datatype TriRec = TriRec(gram: nat, off: nat, len: nat)

  /** Tokens in hash order, their ids in string order, and posting runs by trigram. */
  datatype Index = Index(hashes: seq<u64>, tokens: seq<text>, order: seq<nat>, tri: seq<TriRec>, post: seq<nat>)

  // ---- the simple thing ----------------------------------------------------------------------------

  predicate OccursAt(t: text, term: text, p: nat) { p + |term| <= |t| && t[p..p + |term|] == term }

  predicate Contains(t: text, term: text) { exists p :: 0 <= p <= |t| && OccursAt(t, term, p) }

  /** The best tier a token matches a term at. */
  function TierOf(t: text, term: text): Option<Tier> {
    if t == term then Some(Exact)
    else if term <= t then Some(Prefix)
    else if |term| >= 3 && Contains(t, term) then Some(Substr)
    else None
  }

  // ---- what compaction builds -----------------------------------------------------------------------

  /** Three bytes as one number. */
  function Gram(a: byte, b: byte, c: byte): nat { a * 0x1_0000 + b * 0x100 + c }

  /** Trigrams are three bytes, told apart by their number. */
  lemma GramsDiffer(t: text, p: nat, u: text, q: nat)
    requires p + 3 <= |t| && q + 3 <= |u|
    ensures GramAt(t, p) == GramAt(u, q) <==> t[p..p + 3] == u[q..q + 3]
  {
    var a, b := t[p..p + 3], u[q..q + 3];
    assert a == [t[p], t[p + 1], t[p + 2]] && b == [u[q], u[q + 1], u[q + 2]];
  }

  predicate HasGram(t: text, g: nat) { exists p :: 0 <= p && p + 3 <= |t| && GramAt(t, p) == g }

  function GramAt(t: text, p: nat): nat
    requires p + 3 <= |t|
  {
    Gram(t[p], t[p + 1], t[p + 2])
  }

  ghost predicate Distinct(xs: seq<nat>) { forall i, j :: 0 <= i < j < |xs| ==> xs[i] != xs[j] }

  ghost predicate StringOrder(tokens: seq<text>, order: seq<nat>) {
    && Distinct(order) && (forall k :: 0 <= k < |order| ==> order[k] < |tokens|)
    && (forall i :: 0 <= i < |tokens| ==> i in order)
    && forall k, l :: 0 <= k < l < |order| ==> Before(tokens[order[k]], tokens[order[l]])
  }

  ghost predicate TriRecOk(tokens: seq<text>, r: TriRec, post: seq<nat>) {
    r.off + r.len <= |post| && r.len > 0 && RunLists(tokens, r.gram, post[r.off..r.off + r.len])
  }

  /** Exactly the ids of the tokens that have a trigram, each once. */
  ghost predicate RunLists(tokens: seq<text>, gram: nat, run: seq<nat>) {
    Distinct(run) && forall i :: i in run <==> 0 <= i < |tokens| && HasGram(tokens[i], gram)
  }

  ghost predicate Trigrams(tokens: seq<text>, tri: seq<TriRec>, post: seq<nat>) {
    && (forall k, l :: 0 <= k < l < |tri| ==> tri[k].gram < tri[l].gram)
    && (forall k :: 0 <= k < |tri| ==> TriRecOk(tokens, tri[k], post))
    && forall i, g :: 0 <= i < |tokens| && HasGram(tokens[i], g) ==> exists k :: 0 <= k < |tri| && tri[k].gram == g
  }

  predicate HashOrder(hashes: seq<u64>) { forall i, j :: 0 <= i < j < |hashes| ==> hashes[i] < hashes[j] }

  ghost predicate Indexed(hash: text -> u64, x: Index) {
    && |x.hashes| == |x.tokens|
    && (forall i :: 0 <= i < |x.tokens| ==> x.hashes[i] == hash(x.tokens[i]))
    && HashOrder(x.hashes)
    && StringOrder(x.tokens, x.order)
    && Trigrams(x.tokens, x.tri, x.post)
  }

  // ---- what opening a base checks ---------------------------------------------------------------------

  predicate Below(ids: seq<nat>, n: nat) { forall k :: 0 <= k < |ids| ==> ids[k] < n }

  /** Every posting run lies in its heap and names tokens. */
  predicate TriBounds(n: nat, tri: seq<TriRec>, post: seq<nat>) {
    forall k :: 0 <= k < |tri| ==>
      tri[k].off + tri[k].len <= |post| && Below(post[tri[k].off..tri[k].off + tri[k].len], n)
  }

  /** Indices whose ids are in range, whatever they say: all the searches need to read in
      bounds and end. */
  predicate Searchable(x: Index) {
    |x.hashes| == |x.tokens| && Below(x.order, |x.tokens|) && TriBounds(|x.tokens|, x.tri, x.post)
  }

  lemma IndexedIsSearchable(hash: text -> u64, x: Index)
    requires Indexed(hash, x)
    ensures Searchable(x)
  {
    hide HasGram, Before;
    forall k | 0 <= k < |x.tri|
      ensures x.tri[k].off + x.tri[k].len <= |x.post|
      ensures Below(x.post[x.tri[k].off..x.tri[k].off + x.tri[k].len], |x.tokens|)
    {
      assert TriRecOk(x.tokens, x.tri[k], x.post);
      var run := x.post[x.tri[k].off..x.tri[k].off + x.tri[k].len];
      forall j | 0 <= j < |run| ensures run[j] < |x.tokens| { assert run[j] in run; }
    }
  }

  // ---- the three searches -------------------------------------------------------------------------------

  /** A token with this hash; over hashes in order, if there is one. */
  method FindHash(hashes: seq<u64>, hash: u64) returns (at: Option<nat>)
    ensures at.Some? ==> at.value < |hashes| && hashes[at.value] == hash
    ensures HashOrder(hashes) && at.None? ==> hash !in hashes
  {
    var lo, hi := 0, |hashes|;
    while lo < hi
      invariant 0 <= lo <= hi <= |hashes|
      invariant HashOrder(hashes) ==> forall i :: 0 <= i < lo ==> hashes[i] < hash
      invariant HashOrder(hashes) ==> forall i :: hi <= i < |hashes| ==> hashes[i] >= hash
    {
      var mid := (lo + hi) / 2;
      if hashes[mid] < hash {
        lo := mid + 1;
      } else {
        hi := mid;
      }
    }
    return if lo < |hashes| && hashes[lo] == hash then Some(lo) else None;
  }

  /** A place in the order; over ids in string order, where the tokens not before `term` begin. */
  method LowerBound(tokens: seq<text>, order: seq<nat>, term: text) returns (lo: nat)
    requires Below(order, |tokens|)
    ensures lo <= |order|
    ensures StringOrder(tokens, order) ==> forall k :: 0 <= k < lo ==> Before(tokens[order[k]], term)
    ensures StringOrder(tokens, order) ==> forall k :: lo <= k < |order| ==> !Before(tokens[order[k]], term)
  {
    hide Before;
    lo := 0;
    var hi := |order|;
    while lo < hi
      invariant 0 <= lo <= hi <= |order|
      invariant StringOrder(tokens, order) ==> forall k :: 0 <= k < lo ==> Before(tokens[order[k]], term)
      invariant StringOrder(tokens, order) ==> forall k :: hi <= k < |order| ==> !Before(tokens[order[k]], term)
    {
      var mid := (lo + hi) / 2;
      if Before(tokens[order[mid]], term) {
        forall k | StringOrder(tokens, order) && 0 <= k < mid ensures Before(tokens[order[k]], term) {
          BeforeIsTransitive(tokens[order[k]], tokens[order[mid]], term);
        }
        lo := mid + 1;
      } else {
        forall k | StringOrder(tokens, order) && mid <= k < |order| ensures !Before(tokens[order[k]], term) {
          if k > mid && Before(tokens[order[k]], term) {
            BeforeIsTransitive(tokens[order[mid]], tokens[order[k]], term);
          }
        }
        hi := mid;
      }
    }
  }

  /** A trigram's posting run; over runs as compaction builds them, exactly the tokens that
      have it, and empty when none does. */
  method Lookup(tokens: seq<text>, tri: seq<TriRec>, post: seq<nat>, gram: nat) returns (ids: seq<nat>)
    requires TriBounds(|tokens|, tri, post)
    ensures Below(ids, |tokens|)
    ensures Trigrams(tokens, tri, post) ==>
      Distinct(ids) && forall i :: i in ids <==> 0 <= i < |tokens| && HasGram(tokens[i], gram)
  {
    hide HasGram;
    var lo, hi := 0, |tri|;
    while lo < hi
      invariant 0 <= lo <= hi <= |tri|
      invariant Trigrams(tokens, tri, post) ==> forall k :: 0 <= k < lo ==> tri[k].gram < gram
      invariant Trigrams(tokens, tri, post) ==> forall k :: hi <= k < |tri| ==> tri[k].gram >= gram
    {
      var mid := (lo + hi) / 2;
      if tri[mid].gram < gram {
        lo := mid + 1;
      } else {
        hi := mid;
      }
    }
    if lo < |tri| && tri[lo].gram == gram {
      assert Trigrams(tokens, tri, post) ==> TriRecOk(tokens, tri[lo], post);
      return post[tri[lo].off..tri[lo].off + tri[lo].len];
    }
    return [];
  }

  // ---- the three parts of the answer ----------------------------------------------------------------------

  /** A run of tokens that start with `term`, without the one emitted already; over ids in
      string order, all of them. */
  method PrefixRun(tokens: seq<text>, order: seq<nat>, term: text, exact: Option<nat>) returns (ids: seq<nat>)
    requires Below(order, |tokens|)
    ensures Below(ids, |tokens|)
    ensures StringOrder(tokens, order) ==>
      Distinct(ids) && forall i :: i in ids <==> 0 <= i < |tokens| && term <= tokens[i] && Some(i) != exact
  {
    hide Before;
    var lo := LowerBound(tokens, order, term);
    ids := [];
    var k := lo;
    while k < |order|
      invariant lo <= k <= |order|
      invariant forall l :: lo <= l < k ==> term <= tokens[order[l]]
      invariant Below(ids, |tokens|)
      invariant forall i :: i in ids <==> i in order[lo..k] && Some(i) != exact
      invariant StringOrder(tokens, order) ==> Distinct(ids)
    {
      var i := order[k];
      if !(term <= tokens[i]) {
        break;
      }
      assert order[lo..k + 1] == order[lo..k] + [i];
      assert StringOrder(tokens, order) ==> i !in order[lo..k];
      if Some(i) != exact {
        ids := ids + [i];
      }
      k := k + 1;
    }
    if StringOrder(tokens, order) {
      forall l | 0 <= l < |order| ensures term <= tokens[order[l]] <==> lo <= l < k {
        if l < lo && term <= tokens[order[l]] { PrefixIsNotBefore(term, tokens[order[l]]); }
        if k < l { PrefixRunEnds(term, tokens[order[k]], tokens[order[l]]); }
      }
      forall i ensures i in order[lo..k] <==> 0 <= i < |tokens| && term <= tokens[i] {
        if 0 <= i < |tokens| && term <= tokens[i] {
          assert i in order;
          var l :| 0 <= l < |order| && order[l] == i;
          assert order[lo..k][l - lo] == i;
        }
      }
    }
  }

  /** A token that contains the term has every trigram of it. */
  lemma ContainsGrams(t: text, term: text, w: nat)
    requires Contains(t, term) && w + 3 <= |term|
    ensures HasGram(t, GramAt(term, w))
  {
    var p :| 0 <= p <= |t| && OccursAt(t, term, p);
    assert t[p + w] == term[w] && t[p + w + 1] == term[w + 1] && t[p + w + 2] == term[w + 2];
    assert GramAt(t, p + w) == GramAt(term, w);
  }

  /** The run of the term's rarest trigram; over runs as compaction builds them, it holds
      every token that contains the term. */
  method Candidates(tokens: seq<text>, tri: seq<TriRec>, post: seq<nat>, term: text) returns (ids: seq<nat>)
    requires TriBounds(|tokens|, tri, post) && |term| >= 3
    ensures Below(ids, |tokens|)
    ensures Trigrams(tokens, tri, post) ==>
      Distinct(ids) && forall i :: 0 <= i < |tokens| && Contains(tokens[i], term) ==> i in ids
  {
    hide HasGram, Contains, Trigrams, TriBounds, GramAt;
    ghost var built := Trigrams(tokens, tri, post);
    var rarest: Option<seq<nat>> := None;
    var w := 0;
    while w + 3 <= |term|
      invariant 0 <= w <= |term| - 2 && (rarest.None? <==> w == 0)
      invariant rarest.Some? ==> Below(rarest.value, |tokens|) && (built ==> Distinct(rarest.value))
      invariant built && rarest.Some? ==> forall i :: 0 <= i < |tokens| && Contains(tokens[i], term) ==> i in rarest.value
    {
      var ids := Lookup(tokens, tri, post, GramAt(term, w));
      forall i | built && 0 <= i < |tokens| && Contains(tokens[i], term) ensures i in ids {
        ContainsGrams(tokens[i], term, w);
      }
      if ids == [] {
        return [];
      }
      if rarest.None? || |ids| < |rarest.value| {
        rarest := Some(ids);
      }
      w := w + 1;
    }
    return rarest.value;
  }

  /** Candidates that contain the term and do not start with it; over runs as compaction
      builds them, all such tokens. */
  method SubstrRun(tokens: seq<text>, tri: seq<TriRec>, post: seq<nat>, term: text) returns (ids: seq<nat>)
    requires TriBounds(|tokens|, tri, post)
    ensures Below(ids, |tokens|)
    ensures Trigrams(tokens, tri, post) ==>
      && Distinct(ids)
      && forall i :: i in ids <==> 0 <= i < |tokens| && |term| >= 3 && Contains(tokens[i], term) && !(term <= tokens[i])
  {
    hide Contains, Trigrams, TriBounds;
    ghost var built := Trigrams(tokens, tri, post);
    ids := [];
    if |term| < 3 {
      return;
    }
    var cs := Candidates(tokens, tri, post, term);
    for k := 0 to |cs|
      invariant Below(ids, |tokens|) && (built ==> Distinct(ids))
      invariant forall i :: i in ids <==> i in cs[..k] && Contains(tokens[i], term) && !(term <= tokens[i])
    {
      assert cs[..k + 1] == cs[..k] + [cs[k]];
      assert built ==> cs[k] !in cs[..k];
      if Contains(tokens[cs[k]], term) && !(term <= tokens[cs[k]]) {
        ids := ids + [cs[k]];
      }
    }
    assert cs[..|cs|] == cs;
  }

  // ---- the answer ---------------------------------------------------------------------------------------------

  datatype Match = Match(id: nat, tier: Tier)

  function Tagged(ids: seq<nat>, tier: Tier): (ms: seq<Match>)
    ensures |ms| == |ids| && forall k :: 0 <= k < |ms| ==> ms[k].id == ids[k]
  {
    seq(|ids|, k requires 0 <= k < |ids| => Match(ids[k], tier))
  }

  lemma {:induction false} TaggedOnce(ids: seq<nat>, tier: Tier, m: Match)
    requires Distinct(ids)
    ensures multiset(Tagged(ids, tier))[m] == if m.tier == tier && m.id in ids then 1 else 0
  {
    if ids != [] {
      var most, last := ids[..|ids| - 1], ids[|ids| - 1];
      TaggedOnce(most, tier, m);
      assert Tagged(ids, tier) == Tagged(most, tier) + [Match(last, tier)];
      assert ids == most + [last] && last !in most;
    }
  }

  /** No other token of the vocabulary has the term's hash. */
  ghost predicate NoCollision(hash: text -> u64, x: Index, term: text) {
    forall i :: 0 <= i < |x.tokens| && hash(x.tokens[i]) == hash(term) ==> x.tokens[i] == term
  }

  /** What a scan of the vocabulary emits: every match once, at its best tier. */
  ghost predicate AgreesWithScan(x: Index, term: text, ms: seq<Match>) {
    forall m :: multiset(ms)[m] == (if m.id < |x.tokens| && TierOf(x.tokens[m.id], term) == Some(m.tier) then 1 else 0)
  }

  function InParts(exact: Option<nat>, prefixes: seq<nat>, substrs: seq<nat>, m: Match): nat {
    match m.tier
    case Exact => if Some(m.id) == exact then 1 else 0
    case Prefix => if m.id in prefixes then 1 else 0
    case Substr => if m.id in substrs then 1 else 0
  }

  /** Exact by hash, prefixes by string order, substrings through the rarest trigram. Over any
      indices whose ids are in range it reads in bounds, ends and names tokens only; over the
      ones compaction builds it is the scan's answer exactly when no other token shares the
      term's hash. */
  method LexMatches(hash: text -> u64, x: Index, term: text) returns (ms: seq<Match>)
    requires Searchable(x)
    ensures forall k :: 0 <= k < |ms| ==> ms[k].id < |x.tokens|
    ensures Indexed(hash, x) ==> (AgreesWithScan(x, term, ms) <==> NoCollision(hash, x, term))
  {
    hide StringOrder, Trigrams, TriBounds, Contains, TierOf;
    var exact := FindHash(x.hashes, hash(term));
    var prefixes := PrefixRun(x.tokens, x.order, term, exact);
    var substrs := SubstrRun(x.tokens, x.tri, x.post, term);
    var found := if exact.Some? then [exact.value] else [];
    ms := Tagged(found, Exact) + Tagged(prefixes, Prefix) + Tagged(substrs, Substr);
    if Indexed(hash, x) {
      ghost var out := ms;
      forall m: Match ensures multiset(out)[m] == InParts(exact, prefixes, substrs, m) {
        TaggedOnce(found, Exact, m);
        TaggedOnce(prefixes, Prefix, m);
        TaggedOnce(substrs, Substr, m);
      }
      ExactIsSound(hash, x, term, exact);
      Agreement(x, term, exact, prefixes, substrs, ms);
    }
  }

  /** What the hash search says about the term itself. */
  lemma ExactIsSound(hash: text -> u64, x: Index, term: text, exact: Option<nat>)
    requires Indexed(hash, x)
    requires exact.Some? ==> exact.value < |x.hashes| && x.hashes[exact.value] == hash(term)
    requires exact.None? ==> hash(term) !in x.hashes
    ensures exact.Some? ==> exact.value < |x.tokens|
    ensures NoCollision(hash, x, term) <==> (exact.Some? ==> x.tokens[exact.value] == term)
    ensures forall i :: 0 <= i < |x.tokens| && x.tokens[i] == term ==> exact == Some(i)
  {
    hide StringOrder, Trigrams;
    forall i | 0 <= i < |x.tokens| && hash(x.tokens[i]) == hash(term) ensures exact == Some(i) {
      assert x.hashes[i] in x.hashes;
      var e := exact.value;
      assert !(e < i) && !(i < e);
    }
  }

  lemma Agreement(x: Index, term: text, exact: Option<nat>, prefixes: seq<nat>, substrs: seq<nat>, ms: seq<Match>)
    requires exact.Some? ==> exact.value < |x.tokens|
    requires forall i :: 0 <= i < |x.tokens| && x.tokens[i] == term ==> exact == Some(i)
    requires forall i :: i in prefixes <==> 0 <= i < |x.tokens| && term <= x.tokens[i] && Some(i) != exact
    requires forall i :: i in substrs <==>
      0 <= i < |x.tokens| && |term| >= 3 && Contains(x.tokens[i], term) && !(term <= x.tokens[i])
    requires forall m :: multiset(ms)[m] == InParts(exact, prefixes, substrs, m)
    ensures AgreesWithScan(x, term, ms) <==> (exact.Some? ==> x.tokens[exact.value] == term)
  {
    hide Contains;
    if exact.Some? && x.tokens[exact.value] != term {
      assert multiset(ms)[Match(exact.value, Exact)] == 1;
      assert TierOf(x.tokens[exact.value], term) != Some(Exact);
    }
  }
}
