/** Parts of a sequence that keep its order. */
module Subsequences {

  // The sequence without some of its elements, in its order.
  ghost predicate InOrder<T>(part: seq<T>, s: seq<T>)
    decreases |s|
  {
    if s == [] then part == []
    else
      || InOrder(part, s[..|s| - 1])
      || (part != [] && part[|part| - 1] == s[|s| - 1] && InOrder(part[..|part| - 1], s[..|s| - 1]))
  }

  // One more element, taken or not.
  lemma InOrderGrows<T>(part: seq<T>, s: seq<T>, x: T, taken: bool)
    requires InOrder(part, s)
    ensures InOrder(if taken then part + [x] else part, s + [x])
  {
    assert (s + [x])[..|s|] == s && (part + [x])[..|part|] == part;
  }

  // The same at the front.
  lemma {:induction false} InOrderCons<T>(part: seq<T>, s: seq<T>, x: T, taken: bool)
    requires InOrder(part, s)
    ensures InOrder(if taken then [x] + part else part, [x] + s)
    decreases |s|
  {
    var more := if taken then [x] + part else part;
    if s == [] {
      assert [x][..0] == [] && more[..|more|] == more;
    } else {
      var front, last := s[..|s| - 1], |part| - 1;
      assert ([x] + s)[..|s|] == [x] + front;
      if InOrder(part, front) {
        InOrderCons(part, front, x, taken);
      } else {
        InOrderCons(part[..last], front, x, taken);
        assert more[..|more| - 1] == if taken then [x] + part[..last] else part[..last];
      }
    }
  }

  // A part of a part is a part.
  lemma {:induction false} InOrderTransitive<T>(a: seq<T>, b: seq<T>, c: seq<T>)
    requires InOrder(a, b) && InOrder(b, c)
    ensures InOrder(a, c)
    decreases |b| + |c|
  {
    if c != [] {
      var c' := c[..|c| - 1];
      if InOrder(b, c') {
        InOrderTransitive(a, b, c');
      } else {
        var b' := b[..|b| - 1];
        if InOrder(a, b') {
          InOrderTransitive(a, b', c');
        } else {
          InOrderTransitive(a[..|a| - 1], b', c');
        }
      }
    }
  }
}
