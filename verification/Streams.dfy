/** What the rate-changing cores do to a stream, as functions on sequences. */
module Streams {
  import opened Bits

  function Copies(x: nat, n: nat): (s: seq<nat>)
    ensures |s| == n && forall k :: 0 <= k < n ==> s[k] == x
  {
    if n == 0 then [] else Copies(x, n - 1) + [x]
  }

  /** Every element n times. */
  function RepeatEach(s: seq<nat>, n: nat): seq<nat> {
    if s == [] then [] else Copies(s[0], n) + RepeatEach(s[1..], n)
  }

  /** The j-th copy of element q is at place q*n + j, and there are no other places. */
  lemma {:induction false} RepeatEachAt(s: seq<nat>, n: nat, q: nat, j: nat)
    requires q < |s| && j < n
    ensures |RepeatEach(s, n)| == |s| * n
    ensures q * n + j < |s| * n && RepeatEach(s, n)[q * n + j] == s[q]
  {
    RepeatLength(s, n);
    RepeatLength(s[1..], n);
    if q == 0 {
    } else {
      RepeatEachAt(s[1..], n, q - 1, j);
      assert q * n == n + (q - 1) * n && |s| * n == n + (|s| - 1) * n;
    }
  }

  lemma {:induction false} RepeatLength(s: seq<nat>, n: nat)
    ensures |RepeatEach(s, n)| == |s| * n
  {
    if s == [] {
    } else {
      RepeatLength(s[1..], n);
      assert |s| * n == n + (|s| - 1) * n;
    }
  }

  /** Elements n-1, 2n-1, 3n-1, ... */
  function EveryNth(s: seq<nat>, n: nat): seq<nat>
    requires n > 0
  {
    if |s| < n then [] else [s[n - 1]] + EveryNth(s[n..], n)
  }

  lemma {:induction false} RepeatSnoc(s: seq<nat>, x: nat, n: nat)
    ensures RepeatEach(s + [x], n) == RepeatEach(s, n) + Copies(x, n)
  {
    if s == [] {
      assert RepeatEach([x], n) == Copies(x, n) + [];
    } else {
      RepeatSnoc(s[1..], x, n);
      assert (s + [x])[1..] == s[1..] + [x];
    }
  }

  lemma {:induction false} EveryNthSnoc(s: seq<nat>, x: nat, n: nat)
    requires n > 0
    ensures EveryNth(s + [x], n) == EveryNth(s, n) + if Wrap(|s| + 1, n) == 0 then [x] else []
  {
    if |s| >= n {
      EveryNthSnoc(s[n..], x, n);
      assert (s + [x])[n..] == s[n..] + [x];
      assert Wrap(|s| + 1, n) == Wrap(|s| + 1 - n, n);
    } else if |s| + 1 == n {
      assert (s + [x])[n..] == [];
      assert Wrap(n, n) == Wrap(0, n);
    }
  }

  /** The k-th element kept is number k*n + n-1. */
  lemma {:induction false} EveryNthAt(s: seq<nat>, n: nat, k: nat)
    requires n > 0
    ensures k < |EveryNth(s, n)| <==> k * n + n <= |s|
    ensures k * n + n <= |s| ==> EveryNth(s, n)[k] == s[k * n + n - 1]
  {
    if k == 0 {
    } else if |s| < n {
      assert k * n >= 0;
    } else {
      EveryNthAt(s[n..], n, k - 1);
      assert k * n == (k - 1) * n + n;
    }
  }

  /** Decimating a partly transferred repetition gives back a prefix of the original,
      all of it once the repetition is complete. */
  lemma {:induction false} RoundTrip(p: seq<nat>, s: seq<nat>, n: nat)
    requires n > 0 && p <= RepeatEach(s, n)
    ensures EveryNth(p, n) <= s
    ensures p == RepeatEach(s, n) ==> EveryNth(p, n) == s
  {
    if |p| < n || s == [] {
    } else {
      var rest := RepeatEach(s[1..], n);
      assert RepeatEach(s, n)[n..] == rest;
      assert p[n..] <= rest;
      RoundTrip(p[n..], s[1..], n);
      assert p[n - 1] == Copies(s[0], n)[n - 1];
      assert s == [s[0]] + s[1..];
    }
  }
}
