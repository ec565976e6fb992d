/** Breadth-first walks over a snapshot's edges, in either direction or both, under a
    visitor that may stop at any node it sees. */
module Traverse {
  import opened Ops

  /** What a walk sees of one edge: the node at the other end, its type, whether EXACT. */
  datatype Link = Link(key: u64, etype: byte, exact: bool)

  datatype Hop = Hop(key: u64, origin: u64, etype: byte, depth: nat, exactChain: bool)

  /** Outbound and inbound edges of a node as the snapshot offers them, which of the two
      to walk, which types to follow, and the visitor: it answers, from everything it has
      been shown so far, whether to continue past the latest hop. */
  datatype Graph = Graph(
    outLinks: u64 -> seq<Link>, inLinks: u64 -> seq<Link>, out: bool, inbound: bool,
    follow: byte -> bool, visit: seq<Hop> -> bool)

  /** The links a walk offers at a node: outbound ones first. */
  function Links(g: Graph, node: u64): seq<Link> {
    (if g.out then g.outLinks(node) else []) + (if g.inbound then g.inLinks(node) else [])
  }

  lemma LinksAre(g: Graph, node: u64, l: Link)
    ensures l in Links(g, node) <==> (g.out && l in g.outLinks(node)) || (g.inbound && l in g.inLinks(node))
    ensures g.out ==> g.outLinks(node) <= Links(g, node)
  {
  }

  /** Whether the visitor continued past hop `i`. */
  predicate Continued(g: Graph, hops: seq<Hop>, i: nat)
    requires i < |hops|
  {
    g.visit(hops[..i + 1])
  }

  /** `y` is the start, or was reported within `d` hops. */
  ghost predicate Reached(start: u64, hops: seq<Hop>, y: u64, d: nat) {
    y == start || exists q :: 0 <= q < |hops| && hops[q].key == y && hops[q].depth <= d
  }

  /** Every followed link of `node` leads to something reached within `d` hops. */
  ghost predicate Closed(g: Graph, start: u64, hops: seq<Hop>, node: u64, d: nat) {
    forall l :: l in Links(g, node) && g.follow(l.etype) ==> Reached(start, hops, l.key, d)
  }

  /** Link `m` of a node is followed, and no followed link offered before it leads to the same place. */
  ghost predicate FirstTo(g: Graph, node: u64, m: nat) {
    var ls := Links(g, node);
    && m < |ls| && g.follow(ls[m].etype)
    && forall k :: 0 <= k < m && g.follow(ls[k].etype) ==> ls[k].key != ls[m].key
  }

  /** A hop crossed link `m` of its origin, the first that leads where it went; its chain is
      exact when its origin's is and the link is. */
  ghost predicate Crossed(g: Graph, h: Hop, chain: bool, m: nat) {
    && FirstTo(g, h.origin, m)
    && var l := Links(g, h.origin)[m];
       h.key == l.key && h.etype == l.etype && h.exactChain == (chain && l.exact)
  }

  /** A hop crosses a link from the start, or from an earlier hop the visitor continued
      past, one level up. */
  ghost predicate Grounded(g: Graph, start: u64, hops: seq<Hop>, i: nat)
    requires i < |hops|
  {
    exists chain: bool, m: nat :: HasParent(g, start, hops, i, chain) && Crossed(g, hops[i], chain, m)
  }

  ghost predicate HasParent(g: Graph, start: u64, hops: seq<Hop>, i: nat, chain: bool)
    requires i < |hops|
  {
    if hops[i].depth == 1 then hops[i].origin == start && chain
    else exists p :: 0 <= p < i && IsParent(g, hops, p, hops[i], chain)
  }

  ghost predicate IsParent(g: Graph, hops: seq<Hop>, p: nat, h: Hop, chain: bool)
    requires p < |hops|
  {
    && Continued(g, hops, p) && hops[p].key == h.origin
    && hops[p].depth + 1 == h.depth && hops[p].exactChain == chain
  }

  /** Nodes once each, never the start, nearest first, every one grounded. */
  ghost predicate Sound(g: Graph, start: u64, hops: seq<Hop>, maxDepth: nat) {
    && (forall i, j :: 0 <= i < j < |hops| ==> hops[i].key != hops[j].key && hops[i].depth <= hops[j].depth)
    && (forall i :: 0 <= i < |hops| ==>
          hops[i].key != start && 1 <= hops[i].depth <= maxDepth && Grounded(g, start, hops, i))
  }

  /** Nothing a continued node leads to within the depth limit is missing. */
  ghost predicate Complete(g: Graph, start: u64, hops: seq<Hop>, maxDepth: nat) {
    && (maxDepth > 0 ==> Closed(g, start, hops, start, 1))
    && forall p :: 0 <= p < |hops| && Continued(g, hops, p) && hops[p].depth < maxDepth ==>
         Closed(g, start, hops, hops[p].key, hops[p].depth + 1)
  }

  // ---- growing a report ---------------------------------------------------------------------

  lemma ContinuedGrows(g: Graph, hops: seq<Hop>, h: Hop, i: nat)
    requires i < |hops|
    ensures Continued(g, hops + [h], i) == Continued(g, hops, i)
  {
    assert (hops + [h])[..i + 1] == hops[..i + 1];
  }

  lemma ReachedGrows(start: u64, hops: seq<Hop>, h: Hop, y: u64, d: nat)
    requires Reached(start, hops, y, d)
    ensures Reached(start, hops + [h], y, d)
  {
    if y != start {
      var q :| 0 <= q < |hops| && hops[q].key == y && hops[q].depth <= d;
      assert (hops + [h])[q] == hops[q];
    }
  }

  lemma ClosedGrows(g: Graph, start: u64, hops: seq<Hop>, h: Hop, node: u64, d: nat)
    requires Closed(g, start, hops, node, d)
    ensures Closed(g, start, hops + [h], node, d)
  {
    forall l | l in Links(g, node) && g.follow(l.etype) ensures Reached(start, hops + [h], l.key, d) {
      ReachedGrows(start, hops, h, l.key, d);
    }
  }

  lemma GroundedGrows(g: Graph, start: u64, hops: seq<Hop>, h: Hop, i: nat)
    requires i < |hops| && Grounded(g, start, hops, i)
    ensures Grounded(g, start, hops + [h], i)
  {
    hide Crossed;
    var chain: bool, m: nat :| HasParent(g, start, hops, i, chain) && Crossed(g, hops[i], chain, m);
    if hops[i].depth != 1 {
      var p :| 0 <= p < i && IsParent(g, hops, p, hops[i], chain);
      ContinuedGrows(g, hops, h, p);
      assert IsParent(g, hops + [h], p, (hops + [h])[i], chain);
    }
    assert HasParent(g, start, hops + [h], i, chain);
  }

  /** The nodes of one level the walk goes on from: exactly the hops of that depth the
      visitor continued past, with their chains; the start alone before the first level. */
  ghost predicate IsLevel(g: Graph, start: u64, hops: seq<Hop>, depth: nat, level: seq<(u64, bool)>) {
    if depth == 0 then level == [(start, true)]
    else
      && (forall j :: 0 <= j < |level| ==> FromHop(g, hops, depth, level[j]))
      && (forall p :: 0 <= p < |hops| && hops[p].depth == depth && Continued(g, hops, p) ==>
            (hops[p].key, hops[p].exactChain) in level)
  }

  ghost predicate FromHop(g: Graph, hops: seq<Hop>, depth: nat, e: (u64, bool)) {
    exists p :: 0 <= p < |hops| && hops[p].depth == depth && Continued(g, hops, p)
      && hops[p].key == e.0 && hops[p].exactChain == e.1
  }

  /** Levels before `depth` are closed. */
  ghost predicate ClosedBelow(g: Graph, start: u64, hops: seq<Hop>, depth: nat) {
    && (depth > 0 ==> Closed(g, start, hops, start, 1))
    && forall p :: 0 <= p < |hops| && Continued(g, hops, p) && hops[p].depth < depth ==>
         Closed(g, start, hops, hops[p].key, hops[p].depth + 1)
  }

  /** What holds while level `depth` is walked from the frontier before it. */
  ghost predicate Walking(g: Graph, start: u64, hops: seq<Hop>, depth: nat,
                          seen: set<u64>, frontier: seq<(u64, bool)>, next: seq<(u64, bool)>) {
    && depth > 0
    && Sound(g, start, hops, depth)
    && (forall k :: k in seen <==> k == start || exists q :: 0 <= q < |hops| && hops[q].key == k)
    && IsLevel(g, start, hops, depth - 1, frontier)
    && IsLevel(g, start, hops, depth, next)
    && ClosedBelow(g, start, hops, depth - 1)
  }

  /** Reporting a node reached from the frontier. */
  lemma HopKeepsWalking(g: Graph, start: u64, hops: seq<Hop>, depth: nat, seen: set<u64>,
                        frontier: seq<(u64, bool)>, next: seq<(u64, bool)>, node: u64, chain: bool, m: nat, l: Link)
    requires Walking(g, start, hops, depth, seen, frontier, next)
    requires (node, chain) in frontier && FirstTo(g, node, m) && Links(g, node)[m] == l && l.key !in seen
    ensures var h := Hop(l.key, node, l.etype, depth, chain && l.exact);
            var hops' := hops + [h];
            Walking(g, start, hops', depth, seen + {l.key}, frontier,
                    if g.visit(hops') then next + [(l.key, h.exactChain)] else next)
  {
    hide Sound, IsLevel, ClosedBelow, FirstTo;
    var h := Hop(l.key, node, l.etype, depth, chain && l.exact);
    var hops' := hops + [h];
    SoundGrows(g, start, hops, depth, seen, frontier, node, chain, m, l);
    SeenGrows(start, hops, seen, h);
    LevelGrows(g, start, hops, h, depth - 1, frontier);
    NextGrows(g, start, hops, h, depth, next);
    ClosedBelowGrows(g, start, hops, h, depth - 1);
  }

  lemma SeenGrows(start: u64, hops: seq<Hop>, seen: set<u64>, h: Hop)
    requires forall k :: k in seen <==> k == start || exists q :: 0 <= q < |hops| && hops[q].key == k
    ensures forall k :: k in seen + {h.key} <==> k == start || exists q :: 0 <= q < |hops + [h]| && (hops + [h])[q].key == k
  {
    var hops' := hops + [h];
    forall k ensures k in seen + {h.key} <==> k == start || exists q :: 0 <= q < |hops'| && hops'[q].key == k {
      if k in seen && k != start {
        var q :| 0 <= q < |hops| && hops[q].key == k;
        assert hops'[q].key == k;
      }
      assert hops'[|hops|] == h;
    }
  }

  lemma SoundGrows(g: Graph, start: u64, hops: seq<Hop>, depth: nat, seen: set<u64>,
                   frontier: seq<(u64, bool)>, node: u64, chain: bool, m: nat, l: Link)
    requires depth > 0 && Sound(g, start, hops, depth)
    requires forall k :: k in seen <==> k == start || exists q :: 0 <= q < |hops| && hops[q].key == k
    requires IsLevel(g, start, hops, depth - 1, frontier)
    requires (node, chain) in frontier && FirstTo(g, node, m) && Links(g, node)[m] == l && l.key !in seen
    ensures Sound(g, start, hops + [Hop(l.key, node, l.etype, depth, chain && l.exact)], depth)
  {
    hide IsLevel, Grounded, Links, FirstTo;
    var h := Hop(l.key, node, l.etype, depth, chain && l.exact);
    var hops' := hops + [h];
    forall i | 0 <= i < |hops| ensures Grounded(g, start, hops', i) && hops[i].key != l.key {
      GroundedGrows(g, start, hops, h, i);
      assert hops[i].key in seen;
    }
    LatestGrounded(g, start, hops, depth, frontier, node, chain, m, l);
  }

  lemma LatestGrounded(g: Graph, start: u64, hops: seq<Hop>, depth: nat,
                       frontier: seq<(u64, bool)>, node: u64, chain: bool, m: nat, l: Link)
    requires depth > 0 && IsLevel(g, start, hops, depth - 1, frontier)
    requires (node, chain) in frontier && FirstTo(g, node, m) && Links(g, node)[m] == l
    ensures Grounded(g, start, hops + [Hop(l.key, node, l.etype, depth, chain && l.exact)], |hops|)
  {
    hide Links, Continued, FirstTo;
    var h := Hop(l.key, node, l.etype, depth, chain && l.exact);
    var hops' := hops + [h];
    var i := |hops|;
    assert hops'[i] == h && Crossed(g, h, chain, m);
    if depth > 1 {
      assert FromHop(g, hops, depth - 1, (node, chain));
      var p :| 0 <= p < |hops| && hops[p].depth == depth - 1 && Continued(g, hops, p)
        && hops[p].key == node && hops[p].exactChain == chain;
      ContinuedGrows(g, hops, h, p);
      assert hops'[p] == hops[p];
      assert IsParent(g, hops', p, hops'[i], chain);
    }
    assert HasParent(g, start, hops', i, chain);
  }

  lemma LevelGrows(g: Graph, start: u64, hops: seq<Hop>, h: Hop, depth: nat, level: seq<(u64, bool)>)
    requires IsLevel(g, start, hops, depth, level) && h.depth != depth
    ensures IsLevel(g, start, hops + [h], depth, level)
  {
    var hops' := hops + [h];
    if depth > 0 {
      forall j | 0 <= j < |level| ensures FromHop(g, hops', depth, level[j]) {
        FromHopGrows(g, hops, h, depth, level[j]);
      }
      forall p | 0 <= p < |hops'| && hops'[p].depth == depth && Continued(g, hops', p)
        ensures (hops'[p].key, hops'[p].exactChain) in level
      {
        ContinuedGrows(g, hops, h, p);
        assert hops[p] == hops'[p];
      }
    }
  }

  lemma FromHopGrows(g: Graph, hops: seq<Hop>, h: Hop, depth: nat, e: (u64, bool))
    requires FromHop(g, hops, depth, e)
    ensures FromHop(g, hops + [h], depth, e)
  {
    var p :| 0 <= p < |hops| && hops[p].depth == depth && Continued(g, hops, p)
      && hops[p].key == e.0 && hops[p].exactChain == e.1;
    ContinuedGrows(g, hops, h, p);
    assert (hops + [h])[p] == hops[p];
  }

  lemma NextGrows(g: Graph, start: u64, hops: seq<Hop>, h: Hop, depth: nat, next: seq<(u64, bool)>)
    requires depth > 0 && IsLevel(g, start, hops, depth, next) && h.depth == depth
    ensures var hops' := hops + [h];
            IsLevel(g, start, hops', depth, if g.visit(hops') then next + [(h.key, h.exactChain)] else next)
  {
    var hops' := hops + [h];
    var next' := if g.visit(hops') then next + [(h.key, h.exactChain)] else next;
    assert hops'[..|hops| + 1] == hops';
    forall j | 0 <= j < |next'| ensures FromHop(g, hops', depth, next'[j]) {
      if j < |next| {
        FromHopGrows(g, hops, h, depth, next[j]);
      } else {
        assert hops'[|hops|] == h && Continued(g, hops', |hops|);
      }
    }
    forall p | 0 <= p < |hops'| && hops'[p].depth == depth && Continued(g, hops', p)
      ensures (hops'[p].key, hops'[p].exactChain) in next'
    {
      if p < |hops| {
        ContinuedGrows(g, hops, h, p);
        assert hops[p] == hops'[p];
        assert (hops[p].key, hops[p].exactChain) in next;
      } else {
        assert next'[|next|] == (h.key, h.exactChain);
      }
    }
  }

  lemma ClosedBelowGrows(g: Graph, start: u64, hops: seq<Hop>, h: Hop, depth: nat)
    requires ClosedBelow(g, start, hops, depth) && h.depth >= depth
    ensures ClosedBelow(g, start, hops + [h], depth)
  {
    var hops' := hops + [h];
    if depth > 0 { ClosedGrows(g, start, hops, h, start, 1); }
    forall p | 0 <= p < |hops'| && Continued(g, hops', p) && hops'[p].depth < depth
      ensures Closed(g, start, hops', hops'[p].key, hops'[p].depth + 1)
    {
      ContinuedGrows(g, hops, h, p);
      ClosedGrows(g, start, hops, h, hops[p].key, hops[p].depth + 1);
    }
  }

  lemma ClosedGrowsAll(g: Graph, start: u64, hops: seq<Hop>, hops': seq<Hop>, node: u64, d: nat)
    requires hops <= hops' && Closed(g, start, hops, node, d)
    ensures Closed(g, start, hops', node, d)
  {
    forall l | l in Links(g, node) && g.follow(l.etype) ensures Reached(start, hops', l.key, d) {
      ReachedGrowsAll(start, hops, hops', l.key, d);
    }
  }

  lemma ReachedGrowsAll(start: u64, hops: seq<Hop>, hops': seq<Hop>, y: u64, d: nat)
    requires hops <= hops' && Reached(start, hops, y, d)
    ensures Reached(start, hops', y, d)
  {
    if y != start {
      var q :| 0 <= q < |hops| && hops[q].key == y && hops[q].depth <= d;
      assert hops'[q] == hops[q];
    }
  }

  /** A whole frontier walked closes one more level. */
  lemma LevelDone(g: Graph, start: u64, hops: seq<Hop>, depth: nat, frontier: seq<(u64, bool)>)
    requires depth > 0 && IsLevel(g, start, hops, depth - 1, frontier)
    requires ClosedBelow(g, start, hops, depth - 1)
    requires forall e :: e in frontier ==> Closed(g, start, hops, e.0, depth)
    requires Sound(g, start, hops, depth)
    ensures ClosedBelow(g, start, hops, depth)
  {
    hide Closed, Continued, Grounded;
    if depth == 1 { assert (start, true) in frontier; }
    forall p | 0 <= p < |hops| && Continued(g, hops, p) && hops[p].depth < depth
      ensures Closed(g, start, hops, hops[p].key, hops[p].depth + 1)
    {
      if hops[p].depth == depth - 1 && depth > 1 {
        assert (hops[p].key, hops[p].exactChain) in frontier;
      }
    }
  }

  /** The next level starts from what this one collected. */
  lemma NextLevel(g: Graph, start: u64, hops: seq<Hop>, depth: nat, seen: set<u64>,
                  frontier: seq<(u64, bool)>, next: seq<(u64, bool)>)
    requires Walking(g, start, hops, depth, seen, frontier, next)
    requires ClosedBelow(g, start, hops, depth)
    ensures Walking(g, start, hops, depth + 1, seen, next, [])
  {
    hide Grounded, Continued, ClosedBelow;
  }

  /** With nothing to go on from, deeper levels are empty. */
  lemma WalkDone(g: Graph, start: u64, hops: seq<Hop>, depth: nat, maxDepth: nat, next: seq<(u64, bool)>)
    requires 0 < depth <= maxDepth && Sound(g, start, hops, depth)
    requires IsLevel(g, start, hops, depth, next) && ClosedBelow(g, start, hops, depth)
    requires next == [] || depth == maxDepth
    ensures Sound(g, start, hops, maxDepth) && Complete(g, start, hops, maxDepth)
  {
    hide Grounded, Continued, Closed;
  }

  lemma WalkBegins(g: Graph, start: u64)
    ensures Walking(g, start, [], 1, {start}, [(start, true)], [])
  {}

  // ---- the walk -------------------------------------------------------------------------------

  /** Reusable walk state: the visited set and two frontiers. */
  class Walk {
    var seen: set<u64>
    var frontier: seq<(u64, bool)>
    var next: seq<(u64, bool)>

    constructor ()
      ensures seen == {} && frontier == [] && next == []
    {
      seen, frontier, next := {}, [], [];
    }

    /** Offers every link of one kind at a frontier node, after the `base` offered already;
        `told` is what the visitor has been shown before, `hops` what it has been shown after. */
    method Offer(g: Graph, start: u64, depth: nat, node: u64, chain: bool, links: seq<Link>, ghost base: nat, told: seq<Hop>)
      returns (hops: seq<Hop>)
      requires Walking(g, start, told, depth, seen, frontier, next)
      requires (node, chain) in frontier
      requires base + |links| <= |Links(g, node)| && Links(g, node)[base..base + |links|] == links
      requires Offered(g, start, told, depth, node, base)
      modifies this
      ensures frontier == old(frontier) && told <= hops
      ensures Walking(g, start, hops, depth, seen, frontier, next)
      ensures Offered(g, start, hops, depth, node, base + |links|)
    {
      hide Walking, Links, FirstTo, Offered;
      hops := told;
      for i := 0 to |links|
        invariant frontier == old(frontier) && told <= hops
        invariant Walking(g, start, hops, depth, seen, frontier, next)
        invariant Offered(g, start, hops, depth, node, base + i)
      {
        var l := links[i];
        ghost var before := hops;
        assert Links(g, node)[base + i] == Links(g, node)[base..base + |links|][i];
        if g.follow(l.etype) {
          if l.key !in seen {
            FirstOffered(g, start, hops, depth, seen, frontier, next, node, base + i);
            HopKeepsWalking(g, start, hops, depth, seen, frontier, next, node, chain, base + i, l);
            seen := seen + {l.key};
            var hop := Hop(l.key, node, l.etype, depth, chain && l.exact);
            hops := hops + [hop];
            if g.visit(hops) {
              next := next + [(l.key, hop.exactChain)];
            }
            assert hops[|before|] == hop;
          }
          SeenIsReached(g, start, hops, depth, seen, frontier, next, l.key);
        }
        OfferedGrows(g, start, before, hops, depth, node, base + i);
      }
    }

    /** Breadth-first walk of at most `maxDepth` levels; `hops` is what the visitor is shown. */
    method WalkAlong(g: Graph, start: u64, maxDepth: nat) returns (hops: seq<Hop>)
      modifies this
      ensures Sound(g, start, hops, maxDepth) && Complete(g, start, hops, maxDepth)
    {
      hide Walking, Sound, IsLevel, ClosedBelow;
      seen, frontier, next, hops := {start}, [(start, true)], [], [];
      if maxDepth == 0 {
        NoLevels(g, start);
        return;
      }
      WalkBegins(g, start);
      var depth := 1;
      while true
        invariant 1 <= depth <= maxDepth
        invariant Walking(g, start, hops, depth, seen, frontier, [])
        decreases maxDepth - depth
      {
        next := [];
        hops := WalkLevel(g, start, depth, hops);
        WalkingParts(g, start, hops, depth, seen, frontier, next);
        LevelDone(g, start, hops, depth, frontier);
        if next == [] || depth == maxDepth {
          WalkDone(g, start, hops, depth, maxDepth, next);
          break;
        }
        NextLevel(g, start, hops, depth, seen, frontier, next);
        frontier, next := next, frontier;
        depth := depth + 1;
      }
    }

    /** One level: every link of every frontier node, outbound before inbound. */
    method WalkLevel(g: Graph, start: u64, depth: nat, told: seq<Hop>) returns (hops: seq<Hop>)
      requires Walking(g, start, told, depth, seen, frontier, next)
      modifies this
      ensures frontier == old(frontier) && told <= hops
      ensures Walking(g, start, hops, depth, seen, frontier, next)
      ensures forall e :: e in frontier ==> Closed(g, start, hops, e.0, depth)
    {
      hide Walking, Closed;
      hops := told;
      for k := 0 to |frontier|
        invariant frontier == old(frontier) && told <= hops
        invariant Walking(g, start, hops, depth, seen, frontier, next)
        invariant forall j :: 0 <= j < k ==> Closed(g, start, hops, frontier[j].0, depth)
      {
        var (node, chain) := frontier[k];
        ghost var before := hops;
        ghost var outs := if g.out then |g.outLinks(node)| else 0;
        LinkHalves(g, start, hops, depth, node);
        if g.out {
          hops := Offer(g, start, depth, node, chain, g.outLinks(node), 0, hops);
        }
        if g.inbound {
          hops := Offer(g, start, depth, node, chain, g.inLinks(node), outs, hops);
        }
        NodeDone(g, start, hops, node, depth);
        forall j | 0 <= j < k ensures Closed(g, start, hops, frontier[j].0, depth) {
          ClosedGrowsAll(g, start, before, hops, frontier[j].0, depth);
        }
      }
    }
  }

  /** The first `n` links of a node have been offered: the followed ones are reached. */
  ghost predicate Offered(g: Graph, start: u64, hops: seq<Hop>, depth: nat, node: u64, n: nat) {
    n <= |Links(g, node)| &&
    forall k :: 0 <= k < n && g.follow(Links(g, node)[k].etype) ==> Reached(start, hops, Links(g, node)[k].key, depth)
  }

  lemma OfferedGrows(g: Graph, start: u64, before: seq<Hop>, hops: seq<Hop>, depth: nat, node: u64, n: nat)
    requires before <= hops && Offered(g, start, before, depth, node, n) && n < |Links(g, node)|
    requires g.follow(Links(g, node)[n].etype) ==> Reached(start, hops, Links(g, node)[n].key, depth)
    ensures Offered(g, start, hops, depth, node, n + 1)
  {
    hide Links, Reached;
    forall k | 0 <= k < n && g.follow(Links(g, node)[k].etype) ensures Reached(start, hops, Links(g, node)[k].key, depth) {
      ReachedGrowsAll(start, before, hops, Links(g, node)[k].key, depth);
    }
  }

  /** A followed link to somewhere new is the first there. */
  lemma FirstOffered(g: Graph, start: u64, hops: seq<Hop>, depth: nat, seen: set<u64>,
                     frontier: seq<(u64, bool)>, next: seq<(u64, bool)>, node: u64, m: nat)
    requires Walking(g, start, hops, depth, seen, frontier, next) && Offered(g, start, hops, depth, node, m)
    requires m < |Links(g, node)| && g.follow(Links(g, node)[m].etype) && Links(g, node)[m].key !in seen
    ensures FirstTo(g, node, m)
  {
    hide Links, IsLevel, ClosedBelow, Sound;
  }

  /** Outbound links come first. */
  lemma LinkHalves(g: Graph, start: u64, hops: seq<Hop>, depth: nat, node: u64)
    ensures var outs, ls := if g.out then |g.outLinks(node)| else 0, Links(g, node);
            && Offered(g, start, hops, depth, node, 0)
            && outs <= |ls| && (g.out ==> ls[0..outs] == g.outLinks(node))
            && (if g.inbound then |ls| == outs + |g.inLinks(node)| && ls[outs..outs + |g.inLinks(node)|] == g.inLinks(node)
                else |ls| == outs)
  {
  }

  lemma NoLevels(g: Graph, start: u64)
    ensures Sound(g, start, [], 0) && Complete(g, start, [], 0)
  {}

  lemma SeenIsReached(g: Graph, start: u64, hops: seq<Hop>, depth: nat, seen: set<u64>,
                      frontier: seq<(u64, bool)>, next: seq<(u64, bool)>, y: u64)
    requires Walking(g, start, hops, depth, seen, frontier, next) && y in seen
    ensures Reached(start, hops, y, depth)
  {
    hide IsLevel, ClosedBelow, Grounded;
  }

  lemma WalkingParts(g: Graph, start: u64, hops: seq<Hop>, depth: nat, seen: set<u64>,
                     frontier: seq<(u64, bool)>, next: seq<(u64, bool)>)
    requires Walking(g, start, hops, depth, seen, frontier, next)
    ensures depth > 0 && Sound(g, start, hops, depth) && ClosedBelow(g, start, hops, depth - 1)
    ensures IsLevel(g, start, hops, depth - 1, frontier) && IsLevel(g, start, hops, depth, next)
  {}

  lemma NodeDone(g: Graph, start: u64, hops: seq<Hop>, node: u64, depth: nat)
    requires Offered(g, start, hops, depth, node, |Links(g, node)|)
    ensures Closed(g, start, hops, node, depth)
  {
  }

  // ---- what a walk reports --------------------------------------------------------------------

  /** The node a path stands at after `i` links. */
  function NodeAt(start: u64, path: seq<Link>, i: nat): u64
    requires i <= |path|
  {
    if i == 0 then start else path[i - 1].key
  }

  /** A path of followed links. */
  ghost predicate IsPath(g: Graph, start: u64, path: seq<Link>) {
    forall i :: 0 <= i < |path| ==> path[i] in Links(g, NodeAt(start, path, i)) && g.follow(path[i].etype)
  }

  /** The start, or a reported node the visitor continued past. */
  ghost predicate Passed(g: Graph, start: u64, hops: seq<Hop>, y: u64) {
    y == start || exists p :: 0 <= p < |hops| && hops[p].key == y && Continued(g, hops, p)
  }

  /** A path whose interior nodes the visitor continued past. */
  ghost predicate Passable(g: Graph, start: u64, hops: seq<Hop>, path: seq<Link>) {
    IsPath(g, start, path) && forall i :: 0 < i < |path| ==> Passed(g, start, hops, NodeAt(start, path, i))
  }

  ghost predicate LeadsTo(g: Graph, start: u64, path: seq<Link>, y: u64, d: nat) {
    IsPath(g, start, path) && |path| == d && NodeAt(start, path, d) == y
  }

  /** `d` links are enough to get to `y`, and no fewer are. */
  ghost predicate Distance(g: Graph, start: u64, y: u64, d: nat) {
    && (exists path :: LeadsTo(g, start, path, y, d))
    && forall path :: LeadsTo(g, start, path, y, |path|) ==> d <= |path|
  }

  /** The same over passable paths. */
  ghost predicate PassableDistance(g: Graph, start: u64, hops: seq<Hop>, y: u64, d: nat) {
    && (exists path :: LeadsTo(g, start, path, y, d) && Passable(g, start, hops, path))
    && forall path :: LeadsTo(g, start, path, y, |path|) && Passable(g, start, hops, path) ==> d <= |path|
  }

  lemma PathPrefix(g: Graph, start: u64, hops: seq<Hop>, path: seq<Link>)
    requires path != [] && IsPath(g, start, path)
    ensures var front := path[..|path| - 1];
            && IsPath(g, start, front)
            && (forall i :: 0 <= i <= |front| ==> NodeAt(start, front, i) == NodeAt(start, path, i))
            && (Passable(g, start, hops, path) ==> Passable(g, start, hops, front))
  {
    hide Links, Passed;
    var front := path[..|path| - 1];
    assert forall i :: 0 <= i <= |front| ==> NodeAt(start, front, i) == NodeAt(start, path, i);
  }

  /** The end of a passable path within the depth limit is reported, no farther off than the path. */
  lemma {:induction false} NothingMissed(g: Graph, start: u64, hops: seq<Hop>, maxDepth: nat, path: seq<Link>)
    requires Sound(g, start, hops, maxDepth) && Complete(g, start, hops, maxDepth)
    requires Passable(g, start, hops, path) && |path| <= maxDepth
    ensures Reached(start, hops, NodeAt(start, path, |path|), |path|)
  {
    hide IsPath, Complete, Closed, Sound;
    if path != [] {
      var n := |path| - 1;
      PathPrefix(g, start, hops, path);
      NothingMissed(g, start, hops, maxDepth, path[..n]);
      LastStep(g, start, path);
      PassedIsClosed(g, start, hops, maxDepth, NodeAt(start, path, n), n, path[n]);
    }
  }

  lemma PassedIsClosed(g: Graph, start: u64, hops: seq<Hop>, maxDepth: nat, y: u64, n: nat, l: Link)
    requires Sound(g, start, hops, maxDepth) && Complete(g, start, hops, maxDepth) && n < maxDepth
    requires Reached(start, hops, y, n) && Passed(g, start, hops, y)
    requires l in Links(g, y) && g.follow(l.etype)
    ensures Reached(start, hops, l.key, n + 1)
  {
    hide Links, Continued, Sound;
    if y == start {
      ReachedLater(start, hops, l.key, 1, n + 1);
    } else {
      var q :| 0 <= q < |hops| && hops[q].key == y && hops[q].depth <= n;
      var p :| 0 <= p < |hops| && hops[p].key == y && Continued(g, hops, p);
      ReportedOnce(g, start, hops, maxDepth, p, q);
      ReachedLater(start, hops, l.key, hops[q].depth + 1, n + 1);
    }
  }

  lemma ReachedLater(start: u64, hops: seq<Hop>, y: u64, d: nat, e: nat)
    requires Reached(start, hops, y, d) && d <= e
    ensures Reached(start, hops, y, e)
  {}

  /** Every hop was discovered along a passable path of exactly its depth, whose last link
      comes out of its origin; the chain is exact exactly when every link of it is. */
  lemma {:induction false} DiscoveredPath(g: Graph, start: u64, hops: seq<Hop>, maxDepth: nat, i: nat)
    returns (path: seq<Link>)
    requires Sound(g, start, hops, maxDepth) && i < |hops|
    ensures LeadsTo(g, start, path, hops[i].key, hops[i].depth) && Passable(g, start, hops, path)
    ensures path != [] && NodeAt(start, path, |path| - 1) == hops[i].origin && path[|path| - 1].etype == hops[i].etype
    ensures hops[i].exactChain <==> forall l :: l in path ==> l.exact
  {
    hide Sound, Grounded, HasParent, Continued, IsPath, Passable, Links;
    HopFacts(g, start, hops, maxDepth, i);
    var chain, l := GroundedAt(g, start, hops, i);
    if hops[i].depth == 1 {
      OriginIsStart(g, start, hops, i, chain);
      EmptyPathPassable(g, start, hops);
      path := Extended(g, start, hops, [], l);
    } else {
      var p := ParentAt(g, start, hops, i, chain);
      var front := DiscoveredPath(g, start, hops, maxDepth, p);
      assert Passed(g, start, hops, hops[i].origin);
      path := Extended(g, start, hops, front, l);
    }
  }

  lemma HopFacts(g: Graph, start: u64, hops: seq<Hop>, maxDepth: nat, i: nat)
    requires Sound(g, start, hops, maxDepth) && i < |hops|
    ensures Grounded(g, start, hops, i) && hops[i].depth >= 1
  {
    hide Grounded;
  }

  lemma OriginIsStart(g: Graph, start: u64, hops: seq<Hop>, i: nat, chain: bool)
    requires i < |hops| && hops[i].depth == 1 && HasParent(g, start, hops, i, chain)
    ensures hops[i].origin == start && chain
  {}

  lemma EmptyPathPassable(g: Graph, start: u64, hops: seq<Hop>)
    ensures Passable(g, start, hops, []) && IsPath(g, start, [])
  {}

  lemma GroundedAt(g: Graph, start: u64, hops: seq<Hop>, i: nat) returns (chain: bool, l: Link)
    requires i < |hops| && Grounded(g, start, hops, i)
    ensures HasParent(g, start, hops, i, chain) && l in Links(g, hops[i].origin) && g.follow(l.etype)
    ensures hops[i].key == l.key && hops[i].etype == l.etype && hops[i].exactChain == (chain && l.exact)
  {
    hide HasParent, Links;
    var m: nat;
    chain, m :| HasParent(g, start, hops, i, chain) && Crossed(g, hops[i], chain, m);
    l := Links(g, hops[i].origin)[m];
  }

  lemma ParentAt(g: Graph, start: u64, hops: seq<Hop>, i: nat, chain: bool) returns (p: nat)
    requires i < |hops| && hops[i].depth != 1 && HasParent(g, start, hops, i, chain)
    ensures p < i && Continued(g, hops, p) && hops[p].key == hops[i].origin
    ensures hops[p].depth + 1 == hops[i].depth && hops[p].exactChain == chain
  {
    p :| 0 <= p < i && IsParent(g, hops, p, hops[i], chain);
  }

  /** A passable path to a node the walk went on from extends along any followed link. */
  lemma Extended(g: Graph, start: u64, hops: seq<Hop>, front: seq<Link>, l: Link) returns (path: seq<Link>)
    requires Passable(g, start, hops, front)
    requires Passed(g, start, hops, NodeAt(start, front, |front|))
    requires l in Links(g, NodeAt(start, front, |front|)) && g.follow(l.etype)
    ensures path == front + [l] && Passable(g, start, hops, path) && IsPath(g, start, path)
    ensures NodeAt(start, path, |front|) == NodeAt(start, front, |front|)
  {
    hide Links, Passed;
    path := front + [l];
    assert forall i :: 0 <= i <= |front| ==> NodeAt(start, path, i) == NodeAt(start, front, i);
  }

  lemma ReportedOnce(g: Graph, start: u64, hops: seq<Hop>, maxDepth: nat, p: nat, q: nat)
    requires Sound(g, start, hops, maxDepth) && p < |hops| && q < |hops| && hops[p].key == hops[q].key
    ensures p == q && hops[p].depth <= maxDepth
  {
    hide Grounded;
  }

  /** Under any visitor: a node is reported at depth `d` exactly when `d` is its shortest
      distance, within the limit, over paths whose interior nodes the visitor continued past. */
  lemma HopsArePassableDistances(g: Graph, start: u64, hops: seq<Hop>, maxDepth: nat, y: u64, d: nat)
    requires Sound(g, start, hops, maxDepth) && Complete(g, start, hops, maxDepth) && y != start
    ensures (exists i :: 0 <= i < |hops| && hops[i].key == y && hops[i].depth == d)
       <==> (d <= maxDepth && PassableDistance(g, start, hops, y, d))
  {
    hide Passable, Grounded, Complete, IsPath;
    forall path | LeadsTo(g, start, path, y, |path|) && Passable(g, start, hops, path) && |path| <= maxDepth
      ensures Reached(start, hops, y, |path|)
    {
      NothingMissed(g, start, hops, maxDepth, path);
    }
    if i :| 0 <= i < |hops| && hops[i].key == y && hops[i].depth == d {
      var path := DiscoveredPath(g, start, hops, maxDepth, i);
      forall other | LeadsTo(g, start, other, y, |other|) && Passable(g, start, hops, other) ensures d <= |other| {
        if |other| <= maxDepth {
          var q :| 0 <= q < |hops| && hops[q].key == y && hops[q].depth <= |other|;
          ReportedOnce(g, start, hops, maxDepth, q, i);
        }
      }
    }
    if d <= maxDepth && PassableDistance(g, start, hops, y, d) {
      var path :| LeadsTo(g, start, path, y, d) && Passable(g, start, hops, path);
      var q :| 0 <= q < |hops| && hops[q].key == y && hops[q].depth <= d;
      var found := DiscoveredPath(g, start, hops, maxDepth, q);
    }
  }

  /** Under a visitor that never stopped, every path within the limit is passable. */
  lemma {:induction false} AllPassable(g: Graph, start: u64, hops: seq<Hop>, maxDepth: nat, path: seq<Link>)
    requires Sound(g, start, hops, maxDepth) && Complete(g, start, hops, maxDepth)
    requires forall p :: 0 <= p < |hops| ==> Continued(g, hops, p)
    requires IsPath(g, start, path) && |path| <= maxDepth
    ensures Passable(g, start, hops, path)
  {
    hide Sound, Complete, Continued, IsPath;
    if path != [] {
      var n := |path| - 1;
      PathPrefix(g, start, hops, path);
      AllPassable(g, start, hops, maxDepth, path[..n]);
      NothingMissed(g, start, hops, maxDepth, path[..n]);
      assert Passed(g, start, hops, NodeAt(start, path, n));
      forall i | 0 < i < |path| ensures Passed(g, start, hops, NodeAt(start, path, i)) {
        if i < n { assert Passed(g, start, hops, NodeAt(start, path[..n], i)); }
      }
    }
  }

  /** A walk that is never stopped reports exactly the nodes at shortest distance
      1..=maxDepth over the followed links, each at that distance. */
  lemma HopsAreDistances(g: Graph, start: u64, hops: seq<Hop>, maxDepth: nat, y: u64, d: nat)
    requires Sound(g, start, hops, maxDepth) && Complete(g, start, hops, maxDepth) && y != start
    requires forall p :: 0 <= p < |hops| ==> Continued(g, hops, p)
    ensures (exists i :: 0 <= i < |hops| && hops[i].key == y && hops[i].depth == d)
       <==> (d <= maxDepth && Distance(g, start, y, d))
  {
    hide Passable, Sound, Complete, IsPath, Continued;
    HopsArePassableDistances(g, start, hops, maxDepth, y, d);
    forall path | LeadsTo(g, start, path, y, |path|) && |path| <= maxDepth
      ensures Passable(g, start, hops, path)
    {
      AllPassable(g, start, hops, maxDepth, path);
    }
  }

  // ---- upstream and downstream ------------------------------------------------------------------

  /** `back` walks against the links `forth` walks along. */
  ghost predicate Opposite(forth: Graph, back: Graph) {
    && (forall a, b, t, e :: Link(b, t, e) in Links(forth, a) <==> Link(a, t, e) in Links(back, b))
    && forall t :: forth.follow(t) == back.follow(t)
  }

  /** A path read backwards. */
  lemma {:induction false} Reversed(forth: Graph, back: Graph, start: u64, path: seq<Link>)
    returns (rev: seq<Link>)
    requires Opposite(forth, back) && IsPath(forth, start, path)
    ensures LeadsTo(back, NodeAt(start, path, |path|), rev, start, |path|)
    decreases |path|
  {
    hide IsPath, Opposite;
    if path == [] {
      rev := [];
      EmptyPath(back, start);
    } else {
      var n := |path| - 1;
      PathPrefix(forth, start, [], path);
      var mid := NodeAt(start, path, n);
      var rest := Reversed(forth, back, start, path[..n]);
      rev := [Link(mid, path[n].etype, path[n].exact)] + rest;
      LastStep(forth, start, path);
      StepBack(forth, back, mid, path[n]);
      Prepended(back, path[n].key, mid, rev[0], rest);
    }
  }

  lemma EmptyPath(g: Graph, start: u64)
    ensures IsPath(g, start, [])
  {}

  lemma LastStep(g: Graph, start: u64, path: seq<Link>)
    requires path != [] && IsPath(g, start, path)
    ensures var n := |path| - 1; path[n] in Links(g, NodeAt(start, path, n)) && g.follow(path[n].etype)
  {}

  lemma StepBack(forth: Graph, back: Graph, mid: u64, l: Link)
    requires Opposite(forth, back) && l in Links(forth, mid) && forth.follow(l.etype)
    ensures Link(mid, l.etype, l.exact) in Links(back, l.key) && back.follow(l.etype)
  {
    hide Links;
    assert l == Link(l.key, l.etype, l.exact);
  }

  lemma Prepended(g: Graph, start: u64, mid: u64, first: Link, rest: seq<Link>)
    requires first in Links(g, start) && g.follow(first.etype) && first.key == mid && IsPath(g, mid, rest)
    ensures IsPath(g, start, [first] + rest)
    ensures NodeAt(start, [first] + rest, |rest| + 1) == NodeAt(mid, rest, |rest|)
  {
    hide Links;
    var path := [first] + rest;
    assert forall i :: 0 <= i <= |rest| ==> NodeAt(start, path, i + 1) == NodeAt(mid, rest, i);
    forall i | 0 <= i < |path| ensures path[i] in Links(g, NodeAt(start, path, i)) && g.follow(path[i].etype) {
      if i > 0 { assert path[i] == rest[i - 1] && NodeAt(start, path, i - 1 + 1) == NodeAt(mid, rest, i - 1); }
    }
  }

  /** Walking downstream from `x` finds `y` at depth `d` exactly when walking upstream
      from `y` finds `x` at depth `d`. */
  lemma ImpactMirrorsLineage(forth: Graph, back: Graph, x: u64, y: u64, maxDepth: nat, hops: seq<Hop>,
                             mirrored: seq<Hop>, d: nat)
    requires Opposite(forth, back) && x != y
    requires Sound(forth, x, hops, maxDepth) && Complete(forth, x, hops, maxDepth)
    requires Sound(back, y, mirrored, maxDepth) && Complete(back, y, mirrored, maxDepth)
    requires forall p :: 0 <= p < |hops| ==> Continued(forth, hops, p)
    requires forall p :: 0 <= p < |mirrored| ==> Continued(back, mirrored, p)
    ensures (exists i :: 0 <= i < |hops| && hops[i].key == y && hops[i].depth == d)
       <==> (exists i :: 0 <= i < |mirrored| && mirrored[i].key == x && mirrored[i].depth == d)
  {
    hide Sound, Complete, Continued, Distance, Opposite;
    HopsAreDistances(forth, x, hops, maxDepth, y, d);
    HopsAreDistances(back, y, mirrored, maxDepth, x, d);
    OppositeSwaps(forth, back);
    if Distance(forth, x, y, d) { DistanceMirrors(forth, back, x, y, d); }
    if Distance(back, y, x, d) { DistanceMirrors(back, forth, y, x, d); }
  }

  lemma OppositeSwaps(forth: Graph, back: Graph)
    requires Opposite(forth, back)
    ensures Opposite(back, forth)
  {
    hide Links;
  }

  lemma DistanceMirrors(forth: Graph, back: Graph, x: u64, y: u64, d: nat)
    requires Opposite(forth, back) && Distance(forth, x, y, d)
    ensures Distance(back, y, x, d)
  {
    hide IsPath, Opposite;
    OppositeSwaps(forth, back);
    var path :| LeadsTo(forth, x, path, y, d);
    var rev := Reversed(forth, back, x, path);
    forall other | LeadsTo(back, y, other, x, |other|) ensures d <= |other| {
      var r := Reversed(back, forth, y, other);
    }
  }
}
