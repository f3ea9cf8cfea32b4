/** The bounded history shared by the alert list of the anomaly detector and the domain log
    of the traffic statistics: append one entry, then, when the slice is longer than its
    capacity, keep only the last `cap` entries. */
module History {

  /** `if len(h) > cap { h = h[len(h)-cap:] }` */
  function Trim<T>(h: seq<T>, cap: nat): (r: seq<T>)
    ensures |r| == if |h| > cap then cap else |h|
    ensures r == h[|h| - |r|..]
  {
    if |h| > cap then h[|h| - cap..] else h
  }

  /** `h = append(h, x)` followed by the trim. */
  function Push<T>(h: seq<T>, x: T, cap: nat): seq<T> {
    Trim(h + [x], cap)
  }

  /** The history after pushing every element of `xs` in order. */
  function PushAll<T>(h: seq<T>, xs: seq<T>, cap: nat): seq<T>
    decreases |xs|
  {
    if xs == [] then h else PushAll(Push(h, xs[0], cap), xs[1..], cap)
  }

  /** Trimming an intermediate result does not change the final trim. */
  lemma TrimAppend<T>(s: seq<T>, t: seq<T>, cap: nat)
    ensures Trim(Trim(s, cap) + t, cap) == Trim(s + t, cap)
  {
    var u := Trim(s, cap);
    if |s| > cap {
      var k := |s| - cap;
      assert s + t == s[..k] + (u + t);
      assert (s + t)[|s + t| - cap..] == (u + t)[|u + t| - cap..];
    }
  }

  /** The same, with the intermediate and final histories named. */
  lemma TrimExtend<T>(h: seq<T>, a: seq<T>, b: seq<T>, cap: nat, h1: seq<T>, h2: seq<T>)
    requires h1 == Trim(h + a, cap) && h2 == Trim(h1 + b, cap)
    ensures h2 == Trim(h + (a + b), cap)
  {
    TrimAppend(h + a, b, cap);
    assert h + a + b == h + (a + b);
  }

  /** Pushing one entry after another keeps the most recent `cap` entries of everything
      pushed, oldest first, as long as the history starts within its capacity. */
  lemma {:induction false} PushAllKeepsLast<T>(h: seq<T>, xs: seq<T>, cap: nat)
    requires |h| <= cap
    ensures PushAll(h, xs, cap) == Trim(h + xs, cap)
    decreases |xs|
  {
    if xs != [] {
      PushAllKeepsLast(Push(h, xs[0], cap), xs[1..], cap);
      TrimAppend(h + [xs[0]], xs[1..], cap);
      assert h + [xs[0]] + xs[1..] == h + xs;
    }
  }

  /** The history never grows beyond its capacity, and reaching it means every push
      after that drops the oldest entry. */
  lemma PushBound<T>(h: seq<T>, x: T, cap: nat)
    requires |h| <= cap
    ensures |Push(h, x, cap)| <= cap
    ensures |h| < cap ==> Push(h, x, cap) == h + [x]
    ensures 0 < |h| == cap ==> Push(h, x, cap) == h[1..] + [x]
  {
  }
}
