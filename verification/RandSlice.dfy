/** The shuffle that the gRPC balancer applies to its addresses.  The random numbers
are a parameter; a vector of them is legal if each is one that `rand.Intn` can return. */
module Shuffling {

  /** The `i`-th number picks one of the first `n - i` positions. */
  predicate Legal(n: nat, choices: seq<nat>) {
    && |choices| == (if n == 0 then 0 else n - 1)
    && forall i | 0 <= i < |choices| :: choices[i] < n - i
  }

  function Swap<T>(s: seq<T>, i: nat, j: nat): (r: seq<T>)
    requires i < |s| && j < |s|
    ensures |r| == |s|
  {
    s[i := s[j]][j := s[i]]
  }

  lemma {:induction false} SwapPermutes<T>(s: seq<T>, i: nat, j: nat)
    requires i < |s| && j < |s|
    ensures multiset(Swap(s, i, j)) == multiset(s)
  {
  }

  /** Swaps the last position with the chosen one, then shuffles what precedes it. */
  function Shuffle<T>(s: seq<T>, choices: seq<nat>): (r: seq<T>)
    requires Legal(|s|, choices)
    ensures |r| == |s|
    decreases |s|
  {
    if |s| <= 1 then s
    else
      var last := |s| - 1;
      var swapped := Swap(s, last, choices[0]);
      Shuffle(swapped[..last], choices[1..]) + [swapped[last]]
  }

  method SwapInPlace(a: array<string>, i: nat, j: nat)
    requires i < a.Length && j < a.Length
    modifies a
    ensures a[..] == Swap(old(a[..]), i, j)
  {
    var t := a[i];
    a[i] := a[j];
    a[j] := t;
  }

  /** What the shuffle has yet to do after `i` swaps. */
  function Rest<T>(s: seq<T>, choices: seq<nat>, i: nat): seq<T>
    requires i < |s| && Legal(|s|, choices)
  {
    Shuffle(s[..|s| - i], choices[i..]) + s[|s| - i..]
  }

  /** One swap moves the boundary of the shuffled part by one. */
  lemma {:induction false} ShuffleStep<T>(s: seq<T>, choices: seq<nat>, i: nat)
    requires i < |s| - 1 && Legal(|s|, choices)
    ensures Rest(Swap(s, |s| - i - 1, choices[i]), choices, i + 1) == Rest(s, choices, i)
  {
    var n := |s| - i;
    var s' := Swap(s, n - 1, choices[i]);
    assert choices[i..][1..] == choices[i + 1..];
    assert Swap(s[..n], n - 1, choices[i]) == s'[..n];
    assert s'[..n][..n - 1] == s'[..n - 1];
    assert s'[n - 1..] == [s'[n - 1]] + s[n..];
  }

  lemma {:induction false} ShuffleEnds<T>(s: seq<T>, choices: seq<nat>)
    requires |s| > 0 && Legal(|s|, choices)
    ensures Rest(s, choices, 0) == Shuffle(s, choices)
    ensures Rest(s, choices, |s| - 1) == s
  {
    assert s[..|s|] == s && choices[0..] == choices;
    assert s[..1] + s[1..] == s;
  }

  method SwapNext(a: array<string>, choices: seq<nat>, i: nat)
    requires i < a.Length - 1 && Legal(a.Length, choices)
    modifies a
    ensures Rest(a[..], choices, i + 1) == Rest(old(a[..]), choices, i)
  {
    ShuffleStep(a[..], choices, i);
    SwapInPlace(a, a.Length - i - 1, choices[i]);
  }

  method RandSlice(a: array<string>, choices: seq<nat>)
    requires Legal(a.Length, choices)
    modifies a
    ensures a[..] == Shuffle(old(a[..]), choices)
  {
    var size := a.Length;
    if size < 1 {
      return;
    }
    ShuffleEnds(a[..], choices);
    ghost var goal := Shuffle(a[..], choices);
    for i := 0 to size - 1
      invariant Rest(a[..], choices, i) == goal
    {
      SwapNext(a, choices, i);
    }
    ShuffleEnds(a[..], choices);
  }

  // ----- the shuffle is uniform

  predicate Distinct<T(==)>(s: seq<T>) {
    forall i, j | 0 <= i < j < |s| :: s[i] != s[j]
  }

  /** Nothing is lost or added. */
  lemma {:induction false} ShufflePermutes<T>(s: seq<T>, choices: seq<nat>)
    requires Legal(|s|, choices)
    ensures multiset(Shuffle(s, choices)) == multiset(s)
    decreases |s|
  {
    if |s| > 1 {
      var last := |s| - 1;
      var swapped := Swap(s, last, choices[0]);
      SwapPermutes(s, last, choices[0]);
      ShufflePermutes(swapped[..last], choices[1..]);
      assert swapped == swapped[..last] + [swapped[last]];
    }
  }

  /** Different random numbers give different orders of distinct elements. */
  lemma {:induction false} ShuffleInjective<T>(s: seq<T>, c: seq<nat>, d: seq<nat>)
    requires Legal(|s|, c) && Legal(|s|, d) && Distinct(s)
    requires Shuffle(s, c) == Shuffle(s, d)
    ensures c == d
    decreases |s|
  {
    if |s| > 1 {
      var last := |s| - 1;
      var p, q := Swap(s, last, c[0]), Swap(s, last, d[0]);
      var x, y := Shuffle(s, c), Shuffle(s, d);
      assert x[last] == p[last] == s[c[0]] && y[last] == q[last] == s[d[0]];
      assert c[0] == d[0];
      assert x[..last] == Shuffle(p[..last], c[1..]) && y[..last] == Shuffle(q[..last], d[1..]);
      ShuffleInjective(p[..last], c[1..], d[1..]);
      assert c == [c[0]] + c[1..] && d == [d[0]] + d[1..];
    }
  }

  lemma {:induction false} SameLast<T>(s: seq<T>, t: seq<T>)
    requires multiset(s) == multiset(t) && |s| == |t| > 0 && s[|s| - 1] == t[|t| - 1]
    ensures multiset(s[..|s| - 1]) == multiset(t[..|t| - 1])
  {
    WithoutLast(s);
    WithoutLast(t);
  }

  lemma {:induction false} WithoutLast<T>(s: seq<T>)
    requires |s| > 0
    ensures multiset(s[..|s| - 1]) == multiset(s) - multiset{s[|s| - 1]}
  {
    assert s == s[..|s| - 1] + [s[|s| - 1]];
  }

  /** One swap puts the right element last. */
  lemma {:induction false} ChooseLast<T>(s: seq<T>, t: seq<T>) returns (i: nat)
    requires multiset(s) == multiset(t) && |s| == |t| > 0
    ensures i < |s|
    ensures var swapped := Swap(s, |s| - 1, i);
            && swapped[|s| - 1] == t[|s| - 1]
            && multiset(swapped[..|s| - 1]) == multiset(t[..|s| - 1])
  {
    var last := |s| - 1;
    assert t[last] in multiset(s);
    i :| i < |s| && s[i] == t[last];
    SwapPermutes(s, last, i);
    SameLast(Swap(s, last, i), t);
  }

  /** Every order of the elements comes up. */
  lemma {:induction false} ShuffleSurjective<T>(s: seq<T>, t: seq<T>) returns (c: seq<nat>)
    requires |s| == |t| && multiset(s) == multiset(t)
    ensures Legal(|s|, c) && Shuffle(s, c) == t
    decreases |s|
  {
    if |s| == 0 {
      c := [];
    } else {
      var i := ChooseLast(s, t);
      var last := |s| - 1;
      var swapped := Swap(s, last, i);
      assert t == t[..last] + [t[last]];
      if last == 0 {
        c := [];
      } else {
        var rest := ShuffleSurjective(swapped[..last], t[..last]);
        c := [i] + rest;
        ShuffleCons(s, i, rest);
      }
    }
  }

  lemma {:induction false} ShuffleCons<T>(s: seq<T>, i: nat, rest: seq<nat>)
    requires |s| > 1 && i < |s| && Legal(|s| - 1, rest)
    ensures Legal(|s|, [i] + rest)
    ensures var swapped := Swap(s, |s| - 1, i);
            Shuffle(s, [i] + rest) == Shuffle(swapped[..|s| - 1], rest) + [swapped[|s| - 1]]
  {
    assert ([i] + rest)[1..] == rest;
  }

  /** Every order of distinct elements comes up for exactly one vector of legal random
      numbers, so that uniform numbers make it as likely as any other. */
  lemma {:induction false} ShuffleUniform<T>(s: seq<T>, t: seq<T>) returns (c: seq<nat>)
    requires Distinct(s) && multiset(s) == multiset(t)
    ensures Legal(|s|, c) && Shuffle(s, c) == t
    ensures forall d | Legal(|s|, d) && Shuffle(s, d) == t :: d == c
  {
    assert |s| == |multiset(s)| == |multiset(t)| == |t|;
    c := ShuffleSurjective(s, t);
    forall d | Legal(|s|, d) && Shuffle(s, d) == t
      ensures d == c
    {
      ShuffleInjective(s, c, d);
    }
  }
}
