/** Compressed sparse rows: the layout of every per-node run in a base file, and the
    inversion that turns outbound edge rows into inbound ones. */
module Csr {
  import opened Ops

  function Flat<T>(rows: seq<seq<T>>): seq<T> {
    if rows == [] then [] else Flat(rows[..|rows| - 1]) + rows[|rows| - 1]
  }

  /** `index[i]` is where row `i` starts in `flat`, and the last entry where it ends. */
  ghost predicate IsCsr<T>(index: seq<nat>, flat: seq<T>, rows: seq<seq<T>>) {
    && |index| == |rows| + 1 && flat == Flat(rows)
    && forall i :: 0 <= i <= |rows| ==> index[i] == |Flat(rows[..i])|
  }

  lemma {:induction false} FlatPrefix<T>(rows: seq<seq<T>>, i: nat)
    requires i <= |rows|
    ensures Flat(rows[..i]) <= Flat(rows)
    decreases |rows|
  {
    if i == |rows| {
      assert rows[..i] == rows;
    } else {
      FlatPrefix(rows[..|rows| - 1], i);
      assert rows[..|rows| - 1][..i] == rows[..i];
    }
  }

  lemma FlatStep<T>(rows: seq<seq<T>>, i: nat)
    requires i < |rows|
    ensures Flat(rows[..i + 1]) == Flat(rows[..i]) + rows[i]
  {
    assert rows[..i + 1][..i] == rows[..i];
  }

  /** Every row is read back from its two index entries. */
  lemma RowOf<T>(index: seq<nat>, flat: seq<T>, rows: seq<seq<T>>, i: nat)
    requires IsCsr(index, flat, rows) && i < |rows|
    ensures index[i] <= index[i + 1] <= |flat| && flat[index[i]..index[i + 1]] == rows[i]
  {
    FlatStep(rows, i);
    FlatPrefix(rows, i + 1);
  }

  lemma WholeCsr<T>(index: seq<nat>, flat: seq<T>, rows: seq<seq<T>>)
    requires IsCsr(index, flat, rows)
    ensures index[0] == 0 && index[|rows|] == |flat|
    ensures forall i, j :: 0 <= i <= j <= |rows| ==> index[i] <= index[j]
  {
    assert rows[..|rows|] == rows;
    forall i, j | 0 <= i <= j <= |rows| ensures index[i] <= index[j] {
      FlatPrefix(rows[..j], i);
      assert rows[..j][..i] == rows[..i];
    }
  }

  /** One pass over the rows, appending to the index and to the records. */
  method Render<T>(rows: seq<seq<T>>) returns (index: seq<nat>, flat: seq<T>)
    ensures IsCsr(index, flat, rows)
  {
    index, flat := [], [];
    var i := 0;
    while i < |rows|
      invariant 0 <= i <= |rows| && |index| == i
      invariant flat == Flat(rows[..i])
      invariant forall j :: 0 <= j < i ==> index[j] == |Flat(rows[..j])|
    {
      FlatStep(rows, i);
      index := index + [|flat|];
      flat := flat + rows[i];
      i := i + 1;
    }
    assert rows[..|rows|] == rows;
    index := index + [|flat|];
  }

  // ---- inverting edge rows ----------------------------------------------------------------

  /** An edge record: the node at its other end, by dense id, with type, flags, weight. */
  datatype EdgeRec = EdgeRec(node: nat, etype: byte, flags: byte, weight: u16)

  ghost predicate RowsOk(rows: seq<seq<EdgeRec>>) {
    && (forall s, j :: 0 <= s < |rows| && 0 <= j < |rows[s]| ==> rows[s][j].node < |rows|)
    && (forall s :: 0 <= s < |rows| ==> NodesAscend(rows[s]))
  }

  predicate NodesAscend(row: seq<EdgeRec>) {
    forall i, j :: 0 <= i < j < |row| ==> row[i].node < row[j].node
  }

  /** The records of one row that point at `d`, turned round. */
  function Hits(row: seq<EdgeRec>, src: nat, d: nat): seq<EdgeRec> {
    if row == [] then []
    else
      var last := row[|row| - 1];
      Hits(row[..|row| - 1], src, d) + (if last.node == d then [last.(node := src)] else [])
  }

  function InboundOf(rows: seq<seq<EdgeRec>>, d: nat): seq<EdgeRec> {
    if rows == [] then []
    else InboundOf(rows[..|rows| - 1], d) + Hits(rows[|rows| - 1], |rows| - 1, d)
  }

  /** The two nested loops that fill the inbound rows, sources in order. */
  method Invert(rows: seq<seq<EdgeRec>>) returns (inbound: seq<seq<EdgeRec>>)
    requires RowsOk(rows)
    ensures |inbound| == |rows|
    ensures forall d :: 0 <= d < |rows| ==> inbound[d] == InboundOf(rows, d)
  {
    var n := |rows|;
    inbound := seq(n, _ => []);
    var src := 0;
    while src < n
      invariant 0 <= src <= n && |inbound| == n
      invariant forall d :: 0 <= d < n ==> inbound[d] == InboundOf(rows[..src], d)
    {
      var row := rows[src];
      assert rows[..src + 1][..src] == rows[..src];
      var j := 0;
      while j < |row|
        invariant 0 <= j <= |row| && |inbound| == n
        invariant forall d :: 0 <= d < n ==> inbound[d] == InboundOf(rows[..src], d) + Hits(row[..j], src, d)
      {
        var e := row[j];
        assert row[..j + 1][..j] == row[..j];
        inbound := inbound[e.node := inbound[e.node] + [EdgeRec(src, e.etype, e.flags, e.weight)]];
        j := j + 1;
      }
      assert row[..|row|] == row;
      src := src + 1;
    }
    assert rows[..n] == rows;
  }

  lemma {:induction false} HitsNone(row: seq<EdgeRec>, src: nat, d: nat)
    requires forall i :: 0 <= i < |row| ==> row[i].node != d
    ensures Hits(row, src, d) == []
  {
    if row != [] { HitsNone(row[..|row| - 1], src, d); }
  }

  lemma {:induction false} HitsAt(row: seq<EdgeRec>, src: nat, d: nat, i: nat)
    requires NodesAscend(row) && i < |row| && row[i].node == d
    ensures Hits(row, src, d) == [row[i].(node := src)]
  {
    var most := row[..|row| - 1];
    if i == |row| - 1 {
      HitsNone(most, src, d);
    } else {
      HitsAt(most, src, d, i);
      assert row[i].node < row[|row| - 1].node;
    }
  }

  /** A row with ascending destinations hits each destination at most once. */
  lemma HitsExactly(row: seq<EdgeRec>, src: nat, d: nat, e: EdgeRec)
    requires NodesAscend(row)
    ensures e in Hits(row, src, d) <==> e.node == src && e.(node := d) in row
    ensures |Hits(row, src, d)| <= 1
  {
    if i :| 0 <= i < |row| && row[i].node == d {
      HitsAt(row, src, d, i);
      if e.(node := d) in row {
        var j :| 0 <= j < |row| && row[j] == e.(node := d);
        HitsAt(row, src, d, j);
      }
    } else {
      HitsNone(row, src, d);
    }
  }

  /** The inversion is the transpose: a record is in row `d` of the inbound side if and
      only if its mirror is in its source's outbound row; sources strictly ascend, so each
      is there once. */
  lemma {:induction false} InboundIsTranspose(rows: seq<seq<EdgeRec>>, d: nat, e: EdgeRec)
    requires forall s :: 0 <= s < |rows| ==> NodesAscend(rows[s])
    ensures e in InboundOf(rows, d) <==> e.node < |rows| && e.(node := d) in rows[e.node]
    ensures NodesAscend(InboundOf(rows, d))
    ensures forall i :: 0 <= i < |InboundOf(rows, d)| ==> InboundOf(rows, d)[i].node < |rows|
  {
    if rows != [] {
      var most, src := rows[..|rows| - 1], |rows| - 1;
      InboundIsTranspose(most, d, e);
      HitsExactly(rows[src], src, d, e);
      var before, hits := InboundOf(most, d), Hits(rows[src], src, d);
      forall i | 0 <= i < |hits| ensures hits[i].node == src {
        HitsExactly(rows[src], src, d, hits[i]);
      }
      var all := before + hits;
      assert all == InboundOf(rows, d);
      forall i, j | 0 <= i < j < |all| ensures all[i].node < all[j].node {
        if j >= |before| {
          assert all[j] == hits[j - |before|];
          assert i < |before| ==> all[i] == before[i];
        }
      }
    }
  }

  // ---- no edge lost, none made ----------------------------------------------------------------

  /** The inbound rows of the first `n` nodes. */
  function InboundRows(rows: seq<seq<EdgeRec>>, n: nat): (inbound: seq<seq<EdgeRec>>)
    ensures |inbound| == n
  {
    seq(n, d requires 0 <= d < n => InboundOf(rows, d))
  }

  function HitCount(row: seq<EdgeRec>, src: nat, n: nat): nat {
    if n == 0 then 0 else HitCount(row, src, n - 1) + |Hits(row, src, n - 1)|
  }

  lemma {:induction false} HitCountSnoc(row: seq<EdgeRec>, src: nat, n: nat)
    requires row != []
    ensures HitCount(row, src, n) == HitCount(row[..|row| - 1], src, n) + if row[|row| - 1].node < n then 1 else 0
  {
    if n > 0 { HitCountSnoc(row, src, n - 1); }
  }

  /** Every record of a row is a hit at exactly one destination. */
  lemma {:induction false} HitsAreAll(row: seq<EdgeRec>, src: nat, n: nat)
    requires forall j :: 0 <= j < |row| ==> row[j].node < n
    ensures HitCount(row, src, n) == |row|
    decreases |row|, n
  {
    if row != [] {
      HitCountSnoc(row, src, n);
      HitsAreAll(row[..|row| - 1], src, n);
    } else if n > 0 {
      HitsAreAll(row, src, n - 1);
    }
  }

  lemma {:induction false} InboundSnoc(rows: seq<seq<EdgeRec>>, n: nat)
    requires rows != []
    ensures |Flat(InboundRows(rows, n))|
         == |Flat(InboundRows(rows[..|rows| - 1], n))| + HitCount(rows[|rows| - 1], |rows| - 1, n)
  {
    if n > 0 {
      InboundSnoc(rows, n - 1);
      assert InboundRows(rows, n)[..n - 1] == InboundRows(rows, n - 1);
      assert InboundRows(rows[..|rows| - 1], n)[..n - 1] == InboundRows(rows[..|rows| - 1], n - 1);
    }
  }

  /** The inbound rows hold as many records as the outbound ones. */
  lemma {:induction false} InboundCount(rows: seq<seq<EdgeRec>>, n: nat)
    requires forall s, j :: 0 <= s < |rows| && 0 <= j < |rows[s]| ==> rows[s][j].node < n
    ensures |Flat(InboundRows(rows, n))| == |Flat(rows)|
    decreases |rows|, n
  {
    if rows != [] {
      InboundSnoc(rows, n);
      InboundCount(rows[..|rows| - 1], n);
      HitsAreAll(rows[|rows| - 1], |rows| - 1, n);
    } else if n > 0 {
      InboundCount(rows, n - 1);
      assert InboundRows(rows, n)[..n - 1] == InboundRows(rows, n - 1);
    }
  }
}
