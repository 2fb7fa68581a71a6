/** Slot tables. Entry i of a table is the place that element i moves to. */
module Orders {

  /** No two entries of s are equal. */
  ghost predicate Distinct<T>(s: seq<T>) {
    forall i, j :: 0 <= i < j < |s| ==> s[i] != s[j]
  }

  /** A table of n entries that are the numbers 0..n-1, each once. */
  ghost predicate IsPerm(o: seq<int>) {
    && (forall i :: 0 <= i < |o| ==> 0 <= o[i] < |o|)
    && Distinct(o)
  }

  function Identity(n: nat): (o: seq<int>)
    ensures IsPerm(o) && |o| == n
  {
    seq(n, i => i)
  }

  function Reverse<T>(s: seq<T>): (r: seq<T>)
    ensures |r| == |s|
    ensures forall i :: 0 <= i < |s| ==> r[i] == s[|s| - 1 - i]
  {
    seq(|s|, i requires 0 <= i < |s| => s[|s| - 1 - i])
  }

  /** The table for the mirrored sequence. */
  function Mirror(o: seq<int>): (m: seq<int>)
    ensures |m| == |o|
  {
    seq(|o|, i requires 0 <= i < |o| => |o| - 1 - o[|o| - 1 - i])
  }

  /** The table left when the last element and its slot are removed. */
  ghost function Squeeze(o: seq<int>): (r: seq<int>)
    requires IsPerm(o) && o != []
    ensures |r| == |o| - 1 && IsPerm(r)
  {
    var q := o[|o| - 1];
    seq(|o| - 1, i requires 0 <= i < |o| - 1 => if o[i] > q then o[i] - 1 else o[i])
  }

  lemma {:induction false} Surjective(o: seq<int>, p: int)
    requires IsPerm(o) && 0 <= p < |o|
    ensures exists i :: 0 <= i < |o| && o[i] == p
    decreases |o|
  {
    var q := o[|o| - 1];
    if p != q {
      Surjective(Squeeze(o), if p > q then p - 1 else p);
    }
  }

  /** The element that ends up in slot p. */
  ghost function Slot(o: seq<int>, p: int): (i: int)
    requires IsPerm(o) && 0 <= p < |o|
    ensures 0 <= i < |o| && o[i] == p
  {
    Surjective(o, p);
    var i :| 0 <= i < |o| && o[i] == p;
    i
  }

  /** s rearranged so that element i stands in slot o[i]. */
  ghost function Place<T>(s: seq<T>, o: seq<int>): (r: seq<T>)
    requires IsPerm(o) && |o| == |s|
    ensures |r| == |s|
    ensures forall i :: 0 <= i < |s| ==> r[o[i]] == s[i]
  {
    seq(|s|, p requires 0 <= p < |s| => s[Slot(o, p)])
  }

  /** Any filling that puts element i into slot o[i] is the placement. */
  lemma PlaceUnique<T>(s: seq<T>, o: seq<int>, r: seq<T>)
    requires IsPerm(o) && |o| == |s| == |r|
    requires forall i :: 0 <= i < |s| ==> r[o[i]] == s[i]
    ensures r == Place(s, o)
  {
    forall p | 0 <= p < |s|
      ensures r[p] == Place(s, o)[p]
    {
      var i := Slot(o, p);
      assert r[o[i]] == s[i];
    }
  }

  lemma PlaceIdentity<T>(s: seq<T>)
    ensures Place(s, Identity(|s|)) == s
  {
    PlaceUnique(s, Identity(|s|), s);
  }

  lemma MirrorPerm(o: seq<int>)
    requires IsPerm(o)
    ensures IsPerm(Mirror(o))
  {
    var m := Mirror(o);
    forall i, j | 0 <= i < j < |m|
      ensures m[i] != m[j]
    {
      assert o[|o| - 1 - j] != o[|o| - 1 - i];
    }
  }

  /** Mirroring is its own inverse. */
  lemma MirrorTwice(o: seq<int>)
    ensures Mirror(Mirror(o)) == o
  {
  }

  /** Placing the reversed sequence by the mirrored table reverses the placement: what makes
      a permuted epilogue undo a permuted prologue. */
  lemma PlaceMirror<T>(s: seq<T>, o: seq<int>)
    requires IsPerm(o) && |o| == |s|
    ensures IsPerm(Mirror(o))
    ensures Place(Reverse(s), Mirror(o)) == Reverse(Place(s, o))
  {
    MirrorPerm(o);
    var r, m := Reverse(Place(s, o)), Mirror(o);
    forall i | 0 <= i < |s|
      ensures r[m[i]] == Reverse(s)[i]
    {
      var j := |s| - 1 - i;
      assert m[i] == |s| - 1 - o[j];
      assert r[m[i]] == Place(s, o)[o[j]];
    }
    PlaceUnique(Reverse(s), m, r);
  }
}
