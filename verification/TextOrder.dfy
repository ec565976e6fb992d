/** The order of texts by their bytes. */
module TextOrder {
  import opened Ops

  /** Strictly before, byte by byte. */
  predicate Before(a: text, b: text) {
    b != [] && (a == [] || a[0] < b[0] || (a[0] == b[0] && Before(a[1..], b[1..])))
  }

  lemma {:induction false} BeforeIsTotal(a: text, b: text)
    ensures !(Before(a, b) && Before(b, a)) && (a == b <==> !Before(a, b) && !Before(b, a))
  {
    if a != [] && b != [] {
      BeforeIsTotal(a[1..], b[1..]);
      assert a == [a[0]] + a[1..] && b == [b[0]] + b[1..];
    }
  }

  lemma {:induction false} BeforeIsTransitive(a: text, b: text, c: text)
    requires Before(a, b) && Before(b, c)
    ensures Before(a, c)
  {
    if a != [] && b != [] && c != [] && a[0] == b[0] == c[0] { BeforeIsTransitive(a[1..], b[1..], c[1..]); }
  }

  lemma {:induction false} PrefixIsNotBefore(t: text, a: text)
    requires t <= a
    ensures !Before(a, t)
  {
    if t != [] { PrefixIsNotBefore(t[1..], a[1..]); }
  }

  lemma PrefixTail(t: text, a: text)
    requires t != [] && a != [] && t[0] == a[0]
    ensures t <= a <==> t[1..] <= a[1..]
  {
    assert t == [t[0]] + t[1..] && a == [a[0]] + a[1..];
  }

  /** The texts that start with `t` lie together: past one that is not before `t` and does not
      start with it, none does. */
  lemma {:induction false} PrefixRunEnds(t: text, a: text, b: text)
    requires !Before(a, t) && !(t <= a) && Before(a, b)
    ensures !(t <= b)
  {
    if t != [] && a != [] && b != [] && a[0] == b[0] == t[0] {
      PrefixTail(t, a);
      PrefixTail(t, b);
      PrefixRunEnds(t[1..], a[1..], b[1..]);
    }
  }
}
