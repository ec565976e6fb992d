/** The overlay arena: committed log records kept as the bytes they were written as, an
    entry for each op made visible, and a frontier that moves once per publication. */
module Arena {
  import opened Ops
  import opened ByteCodec
  import opened History
  import opened WalRecord
  import opened WalScan
  import opened Chunks

  /** An entry's place is `segment * OFF + offset`. */
  const OFF := 0x40_0000_0000

  datatype Cell = Cell(seqNo: nat, at: nat)

  type Segments = seq<seq<Option<seq<byte>>>>

  function PackRef(segment: nat, off: nat): nat { segment * OFF + off }

  /** Segment and offset come back apart, and the pair fits 64 bits. */
  lemma PackRefIsLossless(segment: nat, off: nat)
    requires off < OFF
    ensures PackRef(segment, off) / OFF == segment && PackRef(segment, off) % OFF == off
    ensures segment < CAPACITY ==> PackRef(segment, off) < 0x1_0000_0000_0000_0000
  {
  }

  /** The op at an offset of a segment, by its length field. */
  function OpAt(utf8: Utf8, segment: seq<byte>, off: nat): Option<Op> {
    if off + 4 > |segment| then None
    else
      var len := Num(segment[off..off + 4]);
      if off + len > |segment| then None else Parse(utf8, segment[off..off + len])
  }

  function View(utf8: Utf8, segs: Segments, at: nat): Option<Op>
    requires Shaped(segs)
  {
    var s := at / OFF;
    if !There(segs, s) || Get(segs, s).None? then None else OpAt(utf8, Get(segs, s).value, at % OFF)
  }

  /** References paired with the entries they stand for. */
  predicate Located(utf8: Utf8, segment: seq<byte>, refs: seq<Cell>, es: seq<Entry>) {
    |refs| == |es| && forall i :: 0 <= i < |es| ==>
      refs[i].seqNo == es[i].seqNo && refs[i].at < OFF && OpAt(utf8, segment, refs[i].at) == Some(es[i].op)
  }

  lemma ChunkOf(k: nat, i: nat)
    requires Start(k) <= i < Start(k + 1)
    ensures Locate(i).0 == k
  {
    hide Locate;
    LocateInverts(k, i - Start(k));
  }

  type Cells = seq<seq<Cell>>

  /** Every segment published is there, and every entry below the frontier resolves. */
  ghost predicate Good(utf8: Utf8, segs: Segments, cells: Cells, nsegs: nat, frontier: nat) {
    && Shaped(segs) && Shaped(cells) && frontier <= CAPACITY && nsegs <= CAPACITY
    && (forall s: nat :: There(segs, s) ==> (Get(segs, s).Some? <==> s < nsegs))
    && (forall s: nat :: s < nsegs ==> There(segs, s))
    && forall i: nat :: i < frontier ==> Resolves(utf8, segs, cells, nsegs, i)
  }

  ghost predicate Resolves(utf8: Utf8, segs: Segments, cells: Cells, nsegs: nat, i: nat)
    requires Shaped(segs) && Shaped(cells)
  {
    There(cells, i) && Get(cells, i).at / OFF < nsegs && View(utf8, segs, Get(cells, i).at).Some?
  }

  ghost function EntryAt(utf8: Utf8, segs: Segments, cells: Cells, i: nat): Entry
    requires Shaped(segs) && Shaped(cells) && There(cells, i) && View(utf8, segs, Get(cells, i).at).Some?
  {
    Entry(Get(cells, i).seqNo, View(utf8, segs, Get(cells, i).at).value)
  }

  /** What a reader that captured the frontier iterates over. */
  ghost function Shown(utf8: Utf8, segs: Segments, cells: Cells, nsegs: nat, frontier: nat): (es: seq<Entry>)
    requires Good(utf8, segs, cells, nsegs, frontier)
    ensures |es| == frontier
  {
    seq(frontier, i requires 0 <= i < frontier =>
      assert Resolves(utf8, segs, cells, nsegs, i);
      EntryAt(utf8, segs, cells, i))
  }

  /** An entry reads the same in a later state that kept its cell and its segment. */
  lemma EntryKept(utf8: Utf8, segs: Segments, cells: Cells, nsegs: nat, segs': Segments, cells': Cells, nsegs': nat, i: nat)
    requires Shaped(segs) && Shaped(cells) && Shaped(segs') && Shaped(cells') && nsegs <= nsegs'
    requires Resolves(utf8, segs, cells, nsegs, i)
    requires There(cells', i) && Get(cells', i) == Get(cells, i)
    requires forall s: nat :: s < nsegs && There(segs, s) ==> There(segs', s) && Get(segs', s) == Get(segs, s)
    ensures Resolves(utf8, segs', cells', nsegs', i)
    ensures EntryAt(utf8, segs', cells', i) == EntryAt(utf8, segs, cells, i)
  {
    hide Shaped, There, Get, OpAt;
  }

  /** A state that kept every cell and segment in use shows the same. */
  lemma ShownKept(utf8: Utf8, segs: Segments, cells: Cells, nsegs: nat, frontier: nat,
                  segs': Segments, cells': Cells, nsegs': nat)
    requires Good(utf8, segs, cells, nsegs, frontier) && Shaped(segs') && Shaped(cells') && nsegs <= nsegs' <= CAPACITY
    requires forall i: nat :: i < frontier ==> There(cells, i) && There(cells', i) && Get(cells', i) == Get(cells, i)
    requires forall s: nat :: s < nsegs ==> There(segs, s) && There(segs', s) && Get(segs', s) == Get(segs, s)
    requires forall s: nat :: There(segs', s) ==> (Get(segs', s).Some? <==> s < nsegs')
    requires forall s: nat :: s < nsegs' ==> There(segs', s)
    ensures Good(utf8, segs', cells', nsegs', frontier)
    ensures Shown(utf8, segs', cells', nsegs', frontier) == Shown(utf8, segs, cells, nsegs, frontier)
  {
    hide Shaped, There, Get, EntryAt, Resolves;
    forall i: nat | i < frontier
      ensures Resolves(utf8, segs, cells, nsegs, i) && Resolves(utf8, segs', cells', nsegs', i)
    {
      EntryKept(utf8, segs, cells, nsegs, segs', cells', nsegs', i);
    }
    forall i | 0 <= i < frontier
      ensures Shown(utf8, segs', cells', nsegs', frontier)[i] == Shown(utf8, segs, cells, nsegs, frontier)[i]
    {
      EntryKept(utf8, segs, cells, nsegs, segs', cells', nsegs', i);
    }
  }

  lemma SegmentSet(utf8: Utf8, segs: Segments, cells: Cells, nsegs: nat, frontier: nat, segment: seq<byte>)
    requires Good(utf8, segs, cells, nsegs, frontier) && nsegs < CAPACITY && There(segs, nsegs)
    ensures var segs' := Set(segs, nsegs, Some(segment));
            && Good(utf8, segs', cells, nsegs + 1, frontier)
            && Shown(utf8, segs', cells, nsegs + 1, frontier) == Shown(utf8, segs, cells, nsegs, frontier)
            && There(segs', nsegs) && Get(segs', nsegs) == Some(segment)
            && forall s: nat :: There(segs', s) == There(segs, s)
  {
    hide Shaped, There, Get, Set, Resolves, Shown;
    var segs' := Set(segs, nsegs, Some(segment));
    SetGets(segs, nsegs, Some(segment));
    forall i: nat | i < frontier ensures There(cells, i) { CellThere(utf8, segs, cells, nsegs, i); }
    ShownKept(utf8, segs, cells, nsegs, frontier, segs', cells, nsegs + 1);
  }

  lemma CellThere(utf8: Utf8, segs: Segments, cells: Cells, nsegs: nat, i: nat)
    requires Shaped(segs) && Shaped(cells) && Resolves(utf8, segs, cells, nsegs, i)
    ensures There(cells, i)
  {
    hide There;
  }

  lemma CellSet(utf8: Utf8, segs: Segments, cells: Cells, nsegs: nat, frontier: nat, i: nat, v: Cell)
    requires Good(utf8, segs, cells, nsegs, frontier) && i >= frontier && There(cells, i)
    ensures var cells' := Set(cells, i, v);
            && Good(utf8, segs, cells', nsegs, frontier)
            && Shown(utf8, segs, cells', nsegs, frontier) == Shown(utf8, segs, cells, nsegs, frontier)
  {
    hide Shaped, There, Get, Set, Resolves, Shown;
    SetGets(cells, i, v);
    forall j: nat | j < frontier ensures There(cells, j) { CellThere(utf8, segs, cells, nsegs, j); }
    ShownKept(utf8, segs, cells, nsegs, frontier, segs, Set(cells, i, v), nsegs);
  }

  /** The entries written past the frontier stand for the ops they were written for. */
  ghost predicate Pending(segs: Segments, cells: Cells, nsegs: nat, frontier: nat, segment: seq<byte>, refs: seq<Cell>)
    requires Shaped(segs) && Shaped(cells)
  {
    && nsegs > 0 && There(segs, nsegs - 1) && Get(segs, nsegs - 1) == Some(segment)
    && forall j :: 0 <= j < |refs| ==>
         There(cells, frontier + j) && Get(cells, frontier + j) == Cell(refs[j].seqNo, PackRef(nsegs - 1, refs[j].at))
  }

  lemma PendingResolves(utf8: Utf8, segs: Segments, cells: Cells, nsegs: nat, frontier: nat,
                        segment: seq<byte>, refs: seq<Cell>, es: seq<Entry>, j: nat)
    requires Shaped(segs) && Shaped(cells) && Pending(segs, cells, nsegs, frontier, segment, refs)
    requires Located(utf8, segment, refs, es) && j < |refs|
    ensures Resolves(utf8, segs, cells, nsegs, frontier + j) && EntryAt(utf8, segs, cells, frontier + j) == es[j]
  {
    hide Shaped, There, Get, OpAt, PackRef;
    PackRefIsLossless(nsegs - 1, refs[j].at);
  }

  /** Once every new entry is in place, moving the frontier shows exactly them, after the others. */
  lemma FrontierMoves(utf8: Utf8, segs: Segments, cells: Cells, nsegs: nat, frontier: nat,
                      segment: seq<byte>, refs: seq<Cell>, es: seq<Entry>)
    requires Good(utf8, segs, cells, nsegs, frontier) && Pending(segs, cells, nsegs, frontier, segment, refs)
    requires Located(utf8, segment, refs, es) && frontier + |refs| <= CAPACITY
    ensures Good(utf8, segs, cells, nsegs, frontier + |refs|)
    ensures Shown(utf8, segs, cells, nsegs, frontier + |refs|) == Shown(utf8, segs, cells, nsegs, frontier) + es
  {
    hide Shaped, There, Get, Resolves, EntryAt, Pending, OpAt;
    FrontierGood(utf8, segs, cells, nsegs, frontier, segment, refs, es);
    var all, n := Shown(utf8, segs, cells, nsegs, frontier + |refs|), frontier;
    forall i | 0 <= i < |all| ensures all[i] == (Shown(utf8, segs, cells, nsegs, n) + es)[i] {
      if i >= n { PendingResolves(utf8, segs, cells, nsegs, n, segment, refs, es, i - n); }
    }
  }

  lemma FrontierGood(utf8: Utf8, segs: Segments, cells: Cells, nsegs: nat, frontier: nat,
                     segment: seq<byte>, refs: seq<Cell>, es: seq<Entry>)
    requires Good(utf8, segs, cells, nsegs, frontier) && Pending(segs, cells, nsegs, frontier, segment, refs)
    requires Located(utf8, segment, refs, es) && frontier + |refs| <= CAPACITY
    ensures Good(utf8, segs, cells, nsegs, frontier + |refs|)
  {
    hide Shaped, There, Get, Resolves, EntryAt, Pending, OpAt;
    forall i: nat | i < frontier + |refs| ensures Resolves(utf8, segs, cells, nsegs, i) {
      if i >= frontier { PendingResolves(utf8, segs, cells, nsegs, frontier, segment, refs, es, i - frontier); }
    }
  }

  lemma GoodShaped(utf8: Utf8, segs: Segments, cells: Cells, nsegs: nat, frontier: nat)
    requires Good(utf8, segs, cells, nsegs, frontier)
    ensures Shaped(segs) && Shaped(cells)
  {
  }

  class LogArena {
    var segs: Segments
    var cells: seq<seq<Cell>>
    var nsegs: nat
    var frontier: nat
    ghost const utf8: Utf8

    ghost predicate Valid()
      reads this
    {
      Good(utf8, segs, cells, nsegs, frontier)
    }

    ghost function Contents(): (es: seq<Entry>)
      reads this
      requires Valid()
      ensures |es| == frontier
    {
      Shown(utf8, segs, cells, nsegs, frontier)
    }

    ghost predicate Reserved(ops: nat, bytes: nat)
      reads this
      requires Shaped(segs) && Shaped(cells)
    {
      && frontier + ops <= CAPACITY && nsegs < CAPACITY && bytes < OFF && There(segs, nsegs)
      && forall i :: frontier <= i < frontier + ops ==> There(cells, i)
    }

    constructor (ghost utf8: Utf8)
      ensures Valid() && Contents() == [] && this.utf8 == utf8
    {
      segs, cells, nsegs, frontier := seq(CHUNKS, _ => []), seq(CHUNKS, _ => []), 0, 0;
      this.utf8 := utf8;
    }

    /** Make the chunk of every cell from the frontier to `end`. */
    method MakeCells(end: nat)
      requires Shaped(cells) && frontier <= end <= CAPACITY
      modifies this`cells
      ensures Shaped(cells)
      ensures forall j: nat :: old(There(cells, j)) ==> There(cells, j) && Get(cells, j) == old(Get(cells, j))
      ensures forall i :: frontier <= i < end ==> There(cells, i)
    {
      hide Shaped, There, Get, Made, Locate, Start;
      var i := frontier;
      while i < end
        invariant frontier <= i
        invariant Shaped(cells)
        invariant forall j: nat :: old(There(cells, j)) ==> There(cells, j) && Get(cells, j) == old(Get(cells, j))
        invariant forall j :: frontier <= j < i && j < end ==> There(cells, j)
        decreases end - i
      {
        var k := Locate(i).0;
        MadeKeeps(cells, i, Cell(0, 0));
        cells := Made(cells, i, Cell(0, 0));
        NextStart(i);
        forall j | i <= j < Start(k + 1) && j < end ensures There(cells, j) { SameChunk(cells, i, j); }
        i := Start(k + 1);
      }
    }

    /** Make room for one segment and its ops, or refuse; nothing visible changes. */
    method Reserve(ops: nat, bytes: nat) returns (ok: bool)
      requires Valid()
      modifies this`segs, this`cells
      ensures Valid() && Contents() == old(Contents())
      ensures ok <==> frontier + ops <= CAPACITY && nsegs < CAPACITY && bytes < OFF
      ensures ok ==> Reserved(ops, bytes)
    {
      hide Shaped, There, Get, Made, Resolves, EntryAt, Shown;
      var end := frontier + ops;
      if end > CAPACITY || nsegs >= CAPACITY || bytes >= OFF {
        return false;
      }
      ghost var before, was := segs, cells;
      MadeKeeps(segs, nsegs, None);
      MadeEmpty(segs, nsegs);
      segs := Made(segs, nsegs, None);
      MakeCells(end);
      forall i: nat | i < frontier ensures There(was, i) { CellThere(utf8, before, was, nsegs, i); }
      ShownKept(utf8, before, was, nsegs, frontier, segs, cells, nsegs);
      return true;
    }

    /** Publish one reserved segment: fill its cell and its entries, then move the frontier
        once. Nothing is allocated, and until the frontier moves readers see no change. */
    method Publish(segment: seq<byte>, refs: seq<Cell>, ghost es: seq<Entry>)
      requires Valid() && Reserved(|refs|, |segment|) && Located(utf8, segment, refs, es)
      modifies this
      ensures Valid() && Contents() == old(Contents()) + es
      ensures frontier == old(frontier) + |refs| && nsegs == old(nsegs) + 1
      ensures forall i: nat :: There(cells, i) == old(There(cells, i)) && There(segs, i) == old(There(segs, i))
    {
      hide Shaped, There, Get, Set, Resolves, Shown, Located, PackRef, Good;
      var s := nsegs;
      GoodShaped(utf8, segs, cells, nsegs, frontier);
      SegmentSet(utf8, segs, cells, nsegs, frontier, segment);
      segs := Set(segs, s, Some(segment));
      nsegs := s + 1;
      GoodShaped(utf8, segs, cells, nsegs, frontier);
      var i := frontier;
      for k := 0 to |refs|
        invariant i == frontier + k && frontier == old(frontier) && nsegs == s + 1 && segs == Set(old(segs), s, Some(segment))
        invariant Good(utf8, segs, cells, nsegs, frontier) && Shown(utf8, segs, cells, nsegs, frontier) == old(Contents())
        invariant Shaped(segs) && Shaped(cells) && forall j: nat :: There(cells, j) == old(There(cells, j))
        invariant forall j :: 0 <= j < k ==> Get(cells, frontier + j) == Cell(refs[j].seqNo, PackRef(s, refs[j].at))
      {
        CellSet(utf8, segs, cells, nsegs, frontier, i, Cell(refs[k].seqNo, PackRef(s, refs[k].at)));
        SetGets(cells, i, Cell(refs[k].seqNo, PackRef(s, refs[k].at)));
        cells := Set(cells, i, Cell(refs[k].seqNo, PackRef(s, refs[k].at)));
        i := i + 1;
      }
      FrontierMoves(utf8, segs, cells, nsegs, frontier, segment, refs, es);
      frontier := i;
    }
  }

  lemma NextStart(i: nat)
    ensures i < Start(Locate(i).0 + 1)
  {
    hide Locate;
    LocateInBounds(i);
  }

  /** Cells up to the next chunk's first are there when one of this chunk is. */
  lemma SameChunk<T>(c: seq<seq<T>>, i: nat, j: nat)
    requires Shaped(c) && There(c, i) && i <= j < Start(Locate(i).0 + 1)
    ensures There(c, j)
  {
    hide Locate;
    LocateInBounds(i);
    ChunkOf(Locate(i).0, j);
  }

  /** A chunk just made holds nothing. */
  lemma MadeEmpty(c: Segments, i: nat)
    requires Shaped(c)
    ensures Shaped(Made(c, i, None))
    ensures forall j: nat :: There(Made(c, i, None), j) && !There(c, j) ==> Get(Made(c, i, None), j) == None
  {
    hide Locate;
    MadeKeeps(c, i, None);
    forall j: nat | There(Made(c, i, None), j) && !There(c, j) ensures Get(Made(c, i, None), j) == None {
      LocateInBounds(j);
    }
  }
}
