/** The lexicographic order on integer sequences. */
module Lexicographic {

  /** Negative, zero or positive as `a` sorts before, with or after `b`. */
  function Order(a: seq<int>, b: seq<int>): (sign: int)
    ensures sign in {-1, 0, 1}
    decreases a
  {
    if a == [] || b == [] then (if b != [] then -1 else if a != [] then 1 else 0)
    else if a[0] != b[0] then (if a[0] < b[0] then -1 else 1)
    else Order(a[1..], b[1..])
  }

  lemma {:induction false} OrderAntisymmetric(a: seq<int>, b: seq<int>)
    ensures Order(a, b) == -Order(b, a)
    ensures Order(a, b) == 0 <==> a == b
    decreases a
  {
    if a != [] && b != [] && a[0] == b[0] {
      OrderAntisymmetric(a[1..], b[1..]);
      assert a == [a[0]] + a[1..] && b == [b[0]] + b[1..];
    }
  }

  lemma {:induction false} OrderTransitive(a: seq<int>, b: seq<int>, c: seq<int>)
    requires Order(a, b) <= 0 && Order(b, c) <= 0
    ensures Order(a, c) <= 0
    ensures Order(a, b) < 0 || Order(b, c) < 0 ==> Order(a, c) < 0
    decreases a
  {
    if a != [] && b != [] && c != [] && a[0] == b[0] == c[0] {
      OrderTransitive(a[1..], b[1..], c[1..]);
    }
  }

  lemma {:induction false} OrderOfCommonPrefix(prefix: seq<int>, a: seq<int>, b: seq<int>)
    ensures Order(prefix + a, prefix + b) == Order(a, b)
  {
    if prefix == [] {
      assert prefix + a == a && prefix + b == b;
    } else {
      assert (prefix + a)[1..] == prefix[1..] + a && (prefix + b)[1..] == prefix[1..] + b;
      OrderOfCommonPrefix(prefix[1..], a, b);
    }
  }

  /** The first element decides when the two differ in it. */
  lemma OrderOfHeads(x: int, a: seq<int>, y: int, b: seq<int>)
    ensures Order([x] + a, [y] + b) == if x < y then -1 else if x > y then 1 else Order(a, b)
  {
    assert ([x] + a)[1..] == a && ([y] + b)[1..] == b;
  }

  // Strings in the order of their character codes.

  function Codes(s: string): (codes: seq<int>)
    ensures |codes| == |s|
  {
    seq(|s|, i requires 0 <= i < |s| => s[i] as int)
  }

  /** String order, character code by character code. */
  predicate Before(a: string, b: string) {
    Order(Codes(a), Codes(b)) < 0
  }

  lemma DifferentCodes(a: string, b: string)
    ensures Order(Codes(a), Codes(b)) == 0 <==> a == b
  {
    OrderAntisymmetric(Codes(a), Codes(b));
    if Codes(a) == Codes(b) {
      forall i | 0 <= i < |a|
        ensures a[i] == b[i]
      {
        assert Codes(a)[i] == Codes(b)[i];
      }
    }
  }

  /** Strings are totally ordered: one of two different ones comes first, and coming first is
      transitive. */
  lemma BeforeIsTotal(a: string, b: string, c: string)
    ensures a == b || Before(a, b) || Before(b, a)
    ensures !(Before(a, b) && Before(b, a))
    ensures Before(a, b) && Before(b, c) ==> Before(a, c)
  {
    DifferentCodes(a, b);
    OrderAntisymmetric(Codes(a), Codes(b));
    if Before(a, b) && Before(b, c) {
      OrderTransitive(Codes(a), Codes(b), Codes(c));
    }
  }
}
