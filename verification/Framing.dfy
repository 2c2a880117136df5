/** Sequences framed by a separator or a head: what decides the split. */
module Framing {

  lemma {:induction false} FirstSplitIsUnique<T>(c: T, a: seq<T>, x: seq<T>, b: seq<T>, y: seq<T>)
    requires c !in a && c !in b && a + [c] + x == b + [c] + y
    ensures a == b && x == y
    decreases |a|
  {
    if a == [] {
      assert (b + [c] + y)[0] == c;
      assert b == [];
      assert x == (a + [c] + x)[1..] == (b + [c] + y)[1..] == y;
    } else {
      assert (a + [c] + x)[0] == a[0] == (b + [c] + y)[0];
      assert b != [] && b[0] == a[0];
      assert (a + [c] + x)[1..] == a[1..] + [c] + x && (b + [c] + y)[1..] == b[1..] + [c] + y;
      FirstSplitIsUnique(c, a[1..], x, b[1..], y);
      assert a == [a[0]] + a[1..] && b == [b[0]] + b[1..];
    }
  }

  /** Two heads begin some common sequence if and only if one begins the other. */
  lemma HeadsMeetIff<T(!new)>(s: seq<T>, t: seq<T>)
    ensures (exists a, b :: s + a == t + b) <==> s <= t || t <= s
  {
    forall a, b | s + a == t + b ensures s <= t || t <= s {
      if |s| <= |t| {
        assert s == (s + a)[..|s|] == (t + b)[..|s|] == t[..|s|];
      } else {
        assert t == (t + b)[..|t|] == (s + a)[..|t|] == s[..|t|];
      }
    }
    if s <= t {
      assert s + t[|s|..] == t + [];
    } else if t <= s {
      assert s + [] == t + s[|t|..];
    }
  }

  lemma PrefixCancels<T>(h: seq<T>, a: seq<T>, b: seq<T>)
    requires h + a == h + b
    ensures a == b
  {
    assert (h + a)[|h|..] == a && (h + b)[|h|..] == b;
  }
}
