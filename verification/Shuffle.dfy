/** The in-place Fisher-Yates shuffle of src/random.c. */
module Shuffle {
  import opened Orders

  function Exchanged(s: seq<int>, i: nat, j: nat): (r: seq<int>)
    requires i < |s| && j < |s|
    ensures |r| == |s| && r[i] == s[j] && r[j] == s[i]
    ensures forall k :: 0 <= k < |s| && k != i && k != j ==> r[k] == s[k]
  {
    s[i := s[j]][j := s[i]]
  }

  /** A choice for each position but the last of n: cs[k] picks one of the n - k entries left. */
  ghost predicate Choices(cs: seq<nat>, n: nat) {
    && |cs| + 1 == n
    && forall k :: 0 <= k < |cs| ==> cs[k] < n - k
  }

  /** The arrangement that the swaps from position i on lead to. */
  ghost function Shuffled(s: seq<int>, i: nat, cs: seq<nat>): (r: seq<int>)
    requires Choices(cs, |s|) && i < |s|
    ensures |r| == |s|
    ensures forall k :: 0 <= k < i ==> r[k] == s[k]
    decreases |s| - i
  {
    if i + 1 == |s| then s else Shuffled(Exchanged(s, i, i + cs[i]), i + 1, cs)
  }

  /** What n - 1 values of rand(), from value number `from` on, choose in a table of n. */
  function Draws(rand: nat -> nat, from: nat, n: nat): (cs: seq<nat>)
    requires n >= 1
    ensures Choices(cs, n)
    ensures forall k :: 0 <= k < n - 1 ==> cs[k] == rand(from + k) % (n - k)
  {
    seq(n - 1, k requires 0 <= k < n - 1 => rand(from + k) % (n - k))
  }

  lemma DrawStep(s: seq<int>, rand: nat -> nat, from: nat, i: nat)
    requires i + 1 < |s|
    ensures var cs := Draws(rand, from, |s|);
      var c := rand(from + i) % (|s| - i);
      0 <= c < |s| - i && Shuffled(s, i, cs) == Shuffled(Exchanged(s, i, i + c), i + 1, cs)
  {
  }

  lemma ShuffleDone(s: seq<int>, cs: seq<nat>)
    requires Choices(cs, |s|)
    ensures Shuffled(s, |s| - 1, cs) == s
  {
  }

  method SwapEntries(arr: array<int>, a: nat, b: nat)
    requires a < arr.Length && b < arr.Length
    modifies arr
    ensures arr[a] == old(arr[b]) && arr[b] == old(arr[a])
    ensures forall k :: 0 <= k < arr.Length && k != a && k != b ==> arr[k] == old(arr[k])
    ensures arr[..] == Exchanged(old(arr[..]), a, b)
  {
    var tmp := arr[a];
    arr[a] := arr[b];
    arr[b] := tmp;
  }

  method Shuffle(arr: array<int>, rand: nat -> nat, from: nat) returns (next: nat)
    requires arr.Length >= 1
    modifies arr
    ensures next == from + arr.Length - 1
    ensures arr[..] == Shuffled(old(arr[..]), 0, Draws(rand, from, arr.Length))
  {
    hide Shuffled, Draws;
    ghost var cs := Draws(rand, from, arr.Length);
    var n := arr.Length;
    for i := 0 to n - 1
      invariant Shuffled(arr[..], i, cs) == Shuffled(old(arr[..]), 0, cs)
    {
      DrawStep(arr[..], rand, from, i);
      var rnd := i + rand(from + i) % (n - i);
      SwapEntries(arr, i, rnd);
    }
    next := from + n - 1;
    ShuffleDone(arr[..], cs);
  }

  /** The tables ts arise one from the other, the first from s: at step k the entry at k is exchanged
      with the one chosen cs[k] places on, and every other entry stays. */
  ghost predicate BySwaps(s: seq<int>, from: nat, cs: seq<nat>, ts: seq<seq<int>>) {
    && |cs| + 1 == |s| && from < |s| && |ts| == |s| - from && ts[0] == s
    && forall k :: from <= k < |cs| ==> SwapsAt(ts[k - from], ts[k + 1 - from], k, k + cs[k])
  }

  ghost predicate SwapsAt(s: seq<int>, t: seq<int>, i: nat, j: nat) {
    && i < |s| == |t| && j < |s| && t[i] == s[j] && t[j] == s[i]
    && forall k :: 0 <= k < |s| && k != i && k != j ==> t[k] == s[k]
  }

  /** The shuffle is a chain of exchanges. */
  lemma {:induction false} ShuffledBySwaps(s: seq<int>, i: nat, cs: seq<nat>) returns (ts: seq<seq<int>>)
    requires Choices(cs, |s|) && i < |s|
    ensures BySwaps(s, i, cs, ts) && Shuffled(s, i, cs) == ts[|ts| - 1]
    decreases |s| - i
  {
    if i + 1 == |s| {
      ts := [s];
    } else {
      var next := Exchanged(s, i, i + cs[i]);
      var rest := ShuffledBySwaps(next, i + 1, cs);
      ts := [s] + rest;
      forall k | i <= k < |cs|
        ensures SwapsAt(ts[k - i], ts[k + 1 - i], k, k + cs[k])
      {
        if k > i {
          assert ts[k - i] == rest[k - (i + 1)] && ts[k + 1 - i] == rest[k + 1 - (i + 1)];
        }
      }
    }
  }

  /** A shuffled slot table is a slot table. */
  lemma {:induction false} StaysPerm(o: seq<int>, i: nat, cs: seq<nat>)
    requires IsPerm(o) && Choices(cs, |o|) && i < |o|
    ensures IsPerm(Shuffled(o, i, cs))
    decreases |o| - i
  {
    if i + 1 < |o| {
      StaysPerm(Exchanged(o, i, i + cs[i]), i + 1, cs);
    }
  }

  /** Different choices lead to different arrangements. */
  lemma {:induction false} OneToOne(s: seq<int>, i: nat, cs: seq<nat>, ds: seq<nat>)
    requires Distinct(s) && Choices(cs, |s|) && Choices(ds, |s|) && i < |s|
    requires Shuffled(s, i, cs) == Shuffled(s, i, ds)
    ensures forall k :: i <= k < |cs| ==> cs[k] == ds[k]
    decreases |s| - i
  {
    if i + 1 < |s| {
      var s1, s2 := Exchanged(s, i, i + cs[i]), Exchanged(s, i, i + ds[i]);
      assert s[i + cs[i]] == s1[i] == Shuffled(s1, i + 1, cs)[i];
      assert s[i + ds[i]] == s2[i] == Shuffled(s2, i + 1, ds)[i];
      OneToOne(s1, i + 1, cs, ds);
    }
  }

  /** The arrangement depends on no choice made before position i. */
  lemma {:induction false} LaterChoices(s: seq<int>, i: nat, cs: seq<nat>, ds: seq<nat>)
    requires Choices(cs, |s|) && Choices(ds, |s|) && i < |s|
    requires forall k :: i <= k < |cs| ==> cs[k] == ds[k]
    ensures Shuffled(s, i, cs) == Shuffled(s, i, ds)
    decreases |s| - i
  {
    if i + 1 < |s| {
      LaterChoices(Exchanged(s, i, i + cs[i]), i + 1, cs, ds);
    }
  }

  /** Choosing c at position i and then going on as in rest. */
  lemma Prepend(s: seq<int>, i: nat, c: nat, rest: seq<nat>) returns (cs: seq<nat>)
    requires Choices(rest, |s|) && i + 1 < |s| && c < |s| - i
    ensures Choices(cs, |s|)
    ensures Shuffled(s, i, cs) == Shuffled(Exchanged(s, i, i + c), i + 1, rest)
  {
    cs := rest[i := c];
    LaterChoices(Exchanged(s, i, i + c), i + 1, rest, cs);
  }

  /** Two arrangements of the same pairwise distinct entries. */
  ghost predicate Rearranged(s: seq<int>, t: seq<int>) {
    && |s| == |t| && Distinct(s) && Distinct(t)
    && forall x :: x in s <==> x in t
  }

  lemma SwapRearranged(s: seq<int>, i: nat, j: nat, t: seq<int>)
    requires Rearranged(s, t) && i < |s| && j < |s|
    ensures Rearranged(Exchanged(s, i, j), t)
  {
    var r := Exchanged(s, i, j);
    assert s[i] == r[j] && s[j] == r[i];
    forall x | x in s
      ensures x in r
    {
      var k :| 0 <= k < |s| && s[k] == x;
      assert r[if k == i then j else if k == j then i else k] == x;
    }
  }

  /** Every arrangement that agrees before position i is reached by some choices from i on. */
  lemma {:induction false} Onto(s: seq<int>, i: nat, t: seq<int>) returns (cs: seq<nat>)
    requires Rearranged(s, t) && i < |s|
    requires forall k :: 0 <= k < i ==> s[k] == t[k]
    ensures Choices(cs, |s|) && Shuffled(s, i, cs) == t
    decreases |s| - i
  {
    var x := t[i];
    assert x in t && x in s;
    var at :| 0 <= at < |s| && s[at] == x;
    assert at >= i;
    if i + 1 == |s| {
      cs := seq(|s| - 1, _ => 0);
      assert s == t;
    } else {
      SwapRearranged(s, i, at, t);
      var rest := Onto(Exchanged(s, i, at), i + 1, t);
      cs := Prepend(s, i, at - i, rest);
    }
  }

  /** From any slot table, each slot table is reached by exactly one vector of choices. */
  lemma EachPermutationOnce(o: seq<int>, t: seq<int>)
    requires IsPerm(o) && IsPerm(t) && |o| == |t| >= 1
    ensures exists cs :: Choices(cs, |o|) && Shuffled(o, 0, cs) == t
    ensures forall cs, ds ::
      Choices(cs, |o|) && Choices(ds, |o|) && Shuffled(o, 0, cs) == t == Shuffled(o, 0, ds)
      ==> cs == ds
  {
    forall x
      ensures x in o <==> x in t
    {
      if 0 <= x < |o| {
        Surjective(o, x);
        Surjective(t, x);
      }
    }
    var found := Onto(o, 0, t);
    forall cs, ds |
      Choices(cs, |o|) && Choices(ds, |o|) && Shuffled(o, 0, cs) == t == Shuffled(o, 0, ds)
      ensures cs == ds
    {
      OneToOne(o, 0, cs, ds);
    }
  }

  lemma SmallRemainder(a: nat, n: nat)
    requires a < n
    ensures a % n == a
  {
  }

  lemma SameDraws(rand: nat -> nat, from: nat, cs: seq<nat>, n: nat)
    requires n >= 1 && Choices(cs, n) && forall x :: from <= x < from + |cs| ==> rand(x) == cs[x - from]
    ensures Draws(rand, from, n) == cs
  {
    var drawn := Draws(rand, from, n);
    forall k | 0 <= k < |drawn|
      ensures drawn[k] == cs[k]
    {
      assert rand(from + k) == cs[from + k - from];
      SmallRemainder(cs[k], n - k);
    }
  }

  /** Every vector of choices is what some values of rand() choose. */
  lemma EveryChoiceDrawn(cs: seq<nat>, n: nat, from: nat)
    requires n >= 1 && Choices(cs, n)
    ensures exists rand: nat -> nat :: Draws(rand, from, n) == cs
  {
    hide Draws;
    var rand: nat -> nat := (x: nat) => if from <= x < from + |cs| then cs[x - from] else 0;
    SameDraws(rand, from, cs, n);
  }
}
