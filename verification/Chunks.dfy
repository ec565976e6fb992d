/** The chunked cells of the overlay arena: chunk `k` holds `64 * 2^k` of them, so that a
    cell, once there, never moves. */
module Chunks {

  const BASE_CAP := 64
  const CHUNKS := 20
  const CAPACITY := 67_108_800

  function Pow2(k: nat): (p: nat)
    ensures p > 0
  {
    if k == 0 then 1 else 2 * Pow2(k - 1)
  }

  /** The position of the highest bit set. */
  function Log2(x: nat): (k: nat)
    requires x > 0
    ensures Pow2(k) <= x < 2 * Pow2(k)
  {
    if x == 1 then 0 else 1 + Log2(x / 2)
  }

  /** The index of the first cell of chunk `k`. */
  function Start(k: nat): nat { BASE_CAP * (Pow2(k) - 1) }

  /** The chunk and the place in it of cell `i`. */
  function Locate(i: nat): (nat, nat) {
    var k := Log2(i / BASE_CAP + 1);
    assert i / BASE_CAP >= Pow2(k) - 1;
    (k, i - Start(k))
  }

  lemma {:induction false} Pow2Grows(j: nat, k: nat)
    requires j < k
    ensures 2 * Pow2(j) <= Pow2(k)
  {
    if j < k - 1 { Pow2Grows(j, k - 1); }
  }

  lemma Capacity()
    ensures Start(CHUNKS) == CAPACITY
  {
    assert Pow2(4) == 16;
    assert Pow2(8) == 2 * Pow2(7) == 4 * Pow2(6) == 8 * Pow2(5) == 256;
    assert Pow2(12) == 2 * Pow2(11) == 4 * Pow2(10) == 8 * Pow2(9) == 4096;
    assert Pow2(16) == 2 * Pow2(15) == 4 * Pow2(14) == 8 * Pow2(13) == 65536;
    assert Pow2(20) == 2 * Pow2(19) == 4 * Pow2(18) == 8 * Pow2(17) == 1048576;
  }

  /** Every cell below the capacity lies in one of the chunks, within its bounds. */
  lemma LocateInBounds(i: nat)
    ensures var (k, off) := Locate(i); i == Start(k) + off && off < BASE_CAP * Pow2(k)
    ensures i < CAPACITY ==> Locate(i).0 < CHUNKS
  {
    var (k, off) := Locate(i);
    Capacity();
    if k > CHUNKS { Pow2Grows(CHUNKS, k); }
  }

  /** And every place in a chunk is the place of exactly one cell. */
  lemma LocateInverts(k: nat, off: nat)
    requires off < BASE_CAP * Pow2(k)
    ensures Locate(Start(k) + off) == (k, off)
    ensures k < CHUNKS ==> Start(k) + off < CAPACITY
  {
    hide Locate, Pow2;
    var i := Start(k) + off;
    LocateInBounds(i);
    var j := Locate(i).0;
    if j < k { Pow2Grows(j, k); }
    if k < j { Pow2Grows(k, j); }
    if k < CHUNKS {
      Pow2Grows(k, CHUNKS);
      Capacity();
    }
  }

  lemma LocateInjective(i: nat, j: nat)
    ensures Locate(i) == Locate(j) ==> i == j
  {
    LocateInBounds(i);
    LocateInBounds(j);
  }

  // ---- chunked cells -------------------------------------------------------------------------------

  /** A chunk is either not there yet or whole. */
  ghost predicate Shaped<T>(c: seq<seq<T>>) {
    |c| == CHUNKS && forall k :: 0 <= k < CHUNKS ==> c[k] == [] || |c[k]| == BASE_CAP * Pow2(k)
  }

  predicate There<T>(c: seq<seq<T>>, i: nat) {
    Locate(i).0 < CHUNKS == |c| && c[Locate(i).0] != []
  }

  function Get<T>(c: seq<seq<T>>, i: nat): T
    requires Shaped(c) && There(c, i)
  {
    LocateInBounds(i);
    c[Locate(i).0][Locate(i).1]
  }

  function Set<T>(c: seq<seq<T>>, i: nat, v: T): seq<seq<T>>
    requires Shaped(c) && There(c, i)
  {
    LocateInBounds(i);
    var (k, off) := Locate(i);
    c[k := c[k][off := v]]
  }

  /** The cells with the chunk of `i` made, if there is one. */
  function Made<T>(c: seq<seq<T>>, i: nat, empty: T): seq<seq<T>>
  {
    var k := Locate(i).0;
    if k < CHUNKS == |c| && c[k] == [] then c[k := seq(BASE_CAP * Pow2(k), _ => empty)] else c
  }

  lemma SetGets<T>(c: seq<seq<T>>, i: nat, v: T)
    requires Shaped(c) && There(c, i)
    ensures Shaped(Set(c, i, v))
    ensures forall j: nat :: There(Set(c, i, v), j) == There(c, j)
    ensures forall j: nat :: There(c, j) ==> Get(Set(c, i, v), j) == if j == i then v else Get(c, j)
  {
    hide Pow2, Locate;
    LocateInBounds(i);
    forall j: nat | There(c, j) ensures Get(Set(c, i, v), j) == if j == i then v else Get(c, j) {
      LocateInBounds(j);
      LocateInjective(i, j);
    }
  }

  lemma MadeKeeps<T>(c: seq<seq<T>>, i: nat, empty: T)
    requires Shaped(c)
    ensures Shaped(Made(c, i, empty))
    ensures i < CAPACITY ==> There(Made(c, i, empty), i)
    ensures forall j: nat :: There(c, j) ==> There(Made(c, i, empty), j) && Get(Made(c, i, empty), j) == Get(c, j)
  {
    hide Pow2, Locate;
    LocateInBounds(i);
    forall j: nat | There(c, j) ensures There(Made(c, i, empty), j) && Get(Made(c, i, empty), j) == Get(c, j) {
      LocateInBounds(j);
    }
  }
}
