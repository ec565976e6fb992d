/** The vocabulary shared by every module: machine integers, texts as their UTF-8
    bytes, and the seven operations a transaction is made of. */
module Ops {

  type byte = b: int | 0 <= b < 0x100
  type u16 = n: int | 0 <= n < 0x1_0000
  type u32 = n: int | 0 <= n < 0x1_0000_0000
  type u64 = n: int | 0 <= n < 0x1_0000_0000_0000_0000

  /** A text, as the bytes of its UTF-8 encoding. */
  type text = seq<byte>

  datatype Option<+T> = None | Some(value: T)

  /** One sub-document segment, as an operation carries it. */
  datatype Seg = Seg(start: u32, len: u32, importance: u16, depth: byte, flags: byte, heading: text)

  /** One outbound edge: destination key, type tag, edge flags, weight. */
  datatype Edge = Edge(dst: u64, etype: byte, flags: byte, weight: u16)

  /** One keyed attribute. */
  datatype Attr = Attr(k: byte, value: text)

  datatype Op =
    | Upsert(key: u64, hash: u64, fetched: u64, flags: u16,
             url: text, title: Option<text>, snippet: Option<text>, etag: Option<text>)
    | Segs(key: u64, segs: seq<Seg>)
    | Edges(key: u64, edges: seq<Edge>)
    | Touch(key: u64, checkedAt: u64, outcome: byte, newHash: Option<u64>, newEtag: Option<text>,
            interval: u32, checks: u16, changes: u16, lastChange: u64, tombstone: bool)
    | Remove(key: u64)
    | Pin(key: u64, pinned: bool)
    | Attrs(key: u64, attrs: seq<Attr>)

  /** Destinations strictly ascending: what every stored edge set is. */
  predicate Ascending(edges: seq<Edge>) {
    forall i, j :: 0 <= i < j < |edges| ==> edges[i].dst < edges[j].dst
  }

  function TextLen(t: Option<text>): nat {
    if t.Some? then |t.value| else 0
  }

  function LabelBytes(segs: seq<Seg>): nat {
    if segs == [] then 0 else |segs[0].heading| + LabelBytes(segs[1..])
  }

  function ValueBytes(attrs: seq<Attr>): nat {
    if attrs == [] then 0 else |attrs[0].value| + ValueBytes(attrs[1..])
  }

  /** Encoded width of an operation, its 16-byte header included. */
  function OpSize(op: Op): nat {
    match op
    case Upsert(_, _, _, _, url, title, snippet, etag) =>
      48 + |url| + TextLen(title) + TextLen(snippet) + TextLen(etag)
    case Segs(_, segs) => 24 + 16 * |segs| + LabelBytes(segs)
    case Edges(_, edges) => 24 + 12 * |edges|
    case Touch(_, _, _, _, etag, _, _, _, _, _) => 56 + TextLen(etag)
    case Remove(_) => 16
    case Pin(_, _) => 16
    case Attrs(_, attrs) => 24 + 8 * |attrs| + ValueBytes(attrs)
  }

  function OpsSize(ops: seq<Op>): nat {
    if ops == [] then 0 else OpSize(ops[0]) + OpsSize(ops[1..])
  }

  /** Width of the log record header, and of the log header. */
  const RECORD_HEADER_LEN := 32
  const LOG_HEADER_LEN := 64

  /** The least element of a set of numbers. */
  lemma Smallest(keys: set<nat>) returns (g: nat)
    requires keys != {}
    ensures g in keys && forall h :: h in keys ==> g <= h
  {
    g :| g in keys;
    var rest := keys - {g};
    assert forall h :: h in keys ==> h == g || h in rest;
    if rest != {} {
      var m := Smallest(rest);
      if m < g { g := m; }
    }
  }
}
