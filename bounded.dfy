/**
 * Python's `collections.deque(maxlen=n)` as a sequence, oldest element first:
 * appending to a full deque first drops its oldest element.
 */
module Bounded {
  /** The last `n` elements of `s` (all of them when there are fewer). */
  function LastN<T>(s: seq<T>, n: nat): (r: seq<T>)
    ensures |r| == (if |s| <= n then |s| else n)
    ensures r == s[|s| - |r|..]
  {
    if |s| <= n then s else s[|s| - n..]
  }

  /** `d.append(x)` on a deque with `maxlen` `n` that holds `s`. */
  function Push<T>(s: seq<T>, x: T, n: nat): seq<T>
    requires |s| <= n
  {
    if |s| < n then s + [x]
    else if n == 0 then []
    else s[1..] + [x]
  }

  /** An append keeps the newest `n` elements, so the deque never outgrows its bound; when full
      it loses exactly its oldest element. */
  lemma PushKeepsNewest<T>(s: seq<T>, x: T, n: nat)
    requires |s| <= n
    ensures Push(s, x, n) == LastN(s + [x], n)
    ensures |Push(s, x, n)| <= n
    ensures 0 < |s| == n ==> Push(s, x, n) == s[1..] + [x]
  {
    if |s| == n && n > 0 {
      assert (s + [x])[|s + [x]| - n..] == s[1..] + [x];
    }
  }

  /** Trimming to `n` early or late gives the same result. */
  lemma LastNAppend<T>(a: seq<T>, b: seq<T>, n: nat)
    ensures LastN(LastN(a, n) + b, n) == LastN(a + b, n)
  {
    var l := LastN(a, n);
    if |a| > n {
      var d := |a| - n;
      assert a + b == a[..d] + (l + b);
      assert (a + b)[d..] == l + b;
    }
  }
}
