/** Overwriting parts of a buffer. Every write of the transformer is a patch; what the
    buffer holds afterwards is the value of Apply. */
module Patches {

  datatype Patch<T> = Patch(at: nat, body: seq<T>) {
    predicate Covers(x: int) {
      at <= x < at + |body|
    }
  }

  function Splice<T>(s: seq<T>, p: Patch<T>): (r: seq<T>)
    requires p.at + |p.body| <= |s|
    ensures |r| == |s|
  {
    s[..p.at] + p.body + s[p.at + |p.body|..]
  }

  lemma SpliceAt<T>(s: seq<T>, p: Patch<T>, x: nat)
    requires p.at + |p.body| <= |s| && x < |s|
    ensures Splice(s, p)[x] == if p.Covers(x) then p.body[x - p.at] else s[x]
  {
  }

  ghost predicate Fits<T>(ps: seq<Patch<T>>, n: nat) {
    forall k :: 0 <= k < |ps| ==> ps[k].at + |ps[k].body| <= n
  }

  ghost predicate Clear<T>(p: Patch<T>, q: Patch<T>) {
    p.at + |p.body| <= q.at || q.at + |q.body| <= p.at
  }

  /** No two patches of the list overlap. */
  ghost predicate AllClear<T>(ps: seq<Patch<T>>) {
    forall i, j :: 0 <= i < j < |ps| ==> Clear(ps[i], ps[j])
  }

  ghost predicate Covered<T>(ps: seq<Patch<T>>, x: int) {
    exists k :: 0 <= k < |ps| && ps[k].Covers(x)
  }

  /** The same places and sizes, whatever is written there. */
  ghost predicate SameLayout<T>(ps: seq<Patch<T>>, qs: seq<Patch<T>>) {
    && |ps| == |qs|
    && forall k :: 0 <= k < |ps| ==> ps[k].at == qs[k].at && |ps[k].body| == |qs[k].body|
  }

  function Apply<T>(s: seq<T>, ps: seq<Patch<T>>): (r: seq<T>)
    requires Fits(ps, |s|)
    ensures |r| == |s|
  {
    if ps == [] then s else Splice(Apply(s, ps[..|ps| - 1]), ps[|ps| - 1])
  }

  lemma ApplyNone<T>(s: seq<T>)
    ensures Apply(s, []) == s
  {
  }

  lemma ApplyLast<T>(s: seq<T>, ps: seq<Patch<T>>)
    requires Fits(ps, |s|) && ps != []
    ensures var n := |ps| - 1;
      && Fits(ps[..n], |s|) && ps[n].at + |ps[n].body| <= |s|
      && Apply(s, ps) == Splice(Apply(s, ps[..n]), ps[n])
  {
    hide Splice;
  }

  lemma {:induction false} Outside<T>(s: seq<T>, ps: seq<Patch<T>>, x: nat)
    requires Fits(ps, |s|) && x < |s| && !Covered(ps, x)
    ensures Apply(s, ps)[x] == s[x]
  {
    hide Splice;
    if ps != [] {
      var n := |ps| - 1;
      assert !ps[n].Covers(x);
      SpliceAt(Apply(s, ps[..n]), ps[n], x);
      assert forall k :: 0 <= k < n ==> ps[..n][k] == ps[k];
      Outside(s, ps[..n], x);
    }
  }

  lemma {:induction false} ByteInside<T>(s: seq<T>, ps: seq<Patch<T>>, k: nat, x: nat)
    requires Fits(ps, |s|) && AllClear(ps) && k < |ps| && ps[k].Covers(x)
    ensures Apply(s, ps)[x] == ps[k].body[x - ps[k].at]
  {
    hide Splice;
    var n := |ps| - 1;
    SpliceAt(Apply(s, ps[..n]), ps[n], x);
    if k < n {
      assert Clear(ps[k], ps[n]);
      assert forall i :: 0 <= i < n ==> ps[..n][i] == ps[i];
      ByteInside(s, ps[..n], k, x);
    }
  }

  /** Each patch of a list without overlaps is read back in full. */
  lemma ReadBack<T>(s: seq<T>, ps: seq<Patch<T>>, k: nat)
    requires Fits(ps, |s|) && AllClear(ps) && k < |ps|
    ensures Apply(s, ps)[ps[k].at..ps[k].at + |ps[k].body|] == ps[k].body
  {
    forall j | 0 <= j < |ps[k].body|
      ensures Apply(s, ps)[ps[k].at + j] == ps[k].body[j]
    {
      ByteInside(s, ps, k, ps[k].at + j);
    }
  }

  /** A list without overlaps may be applied in any order: only which patches it holds matters. */
  lemma OrderFree<T>(s: seq<T>, ps: seq<Patch<T>>, qs: seq<Patch<T>>)
    requires Fits(ps, |s|) && Fits(qs, |s|) && AllClear(ps) && AllClear(qs)
    requires forall k :: 0 <= k < |ps| ==> ps[k] in qs
    requires forall k :: 0 <= k < |qs| ==> qs[k] in ps
    ensures Apply(s, ps) == Apply(s, qs)
  {
    forall x | 0 <= x < |s|
      ensures Apply(s, ps)[x] == Apply(s, qs)[x]
    {
      if Covered(ps, x) {
        var k :| 0 <= k < |ps| && ps[k].Covers(x);
        assert ps[k] in qs;
        var m :| 0 <= m < |qs| && qs[m] == ps[k];
        ByteInside(s, ps, k, x);
        ByteInside(s, qs, m, x);
      } else {
        forall m | 0 <= m < |qs|
          ensures !qs[m].Covers(x)
        {
          assert qs[m] in ps;
        }
        Outside(s, ps, x);
        Outside(s, qs, x);
      }
    }
  }

  /** Patching again with the same layout forgets the first patching. */
  lemma Overwrite<T>(s: seq<T>, ps: seq<Patch<T>>, qs: seq<Patch<T>>)
    requires Fits(ps, |s|) && AllClear(ps) && SameLayout(ps, qs)
    ensures Fits(qs, |s|) && AllClear(qs)
    ensures Apply(Apply(s, ps), qs) == Apply(s, qs)
  {
    LayoutKept(ps, qs, |s|);
    var t := Apply(s, ps);
    forall x | 0 <= x < |s|
      ensures Apply(t, qs)[x] == Apply(s, qs)[x]
    {
      if Covered(qs, x) {
        var k :| 0 <= k < |qs| && qs[k].Covers(x);
        ByteInside(t, qs, k, x);
        ByteInside(s, qs, k, x);
      } else {
        assert forall k :: 0 <= k < |ps| ==> ps[k].Covers(x) == qs[k].Covers(x);
        Outside(t, qs, x);
        Outside(s, qs, x);
        Outside(s, ps, x);
      }
    }
  }

  lemma LayoutKept<T>(ps: seq<Patch<T>>, qs: seq<Patch<T>>, n: nat)
    requires Fits(ps, n) && AllClear(ps) && SameLayout(ps, qs)
    ensures Fits(qs, n) && AllClear(qs)
  {
    forall i, j | 0 <= i < j < |qs|
      ensures Clear(qs[i], qs[j])
    {
      assert Clear(ps[i], ps[j]);
    }
  }

  lemma SpliceSame<T>(s: seq<T>, p: Patch<T>)
    requires p.at + |p.body| <= |s| && s[p.at..p.at + |p.body|] == p.body
    ensures Splice(s, p) == s
  {
    forall x | 0 <= x < |s|
      ensures Splice(s, p)[x] == s[x]
    {
      assert p.Covers(x) ==> p.body[x - p.at] == s[p.at..p.at + |p.body|][x - p.at];
    }
  }

  /** Patches that repeat what the buffer holds change nothing. */
  lemma {:induction false} Idle<T>(s: seq<T>, ps: seq<Patch<T>>)
    requires Fits(ps, |s|)
    requires forall k :: 0 <= k < |ps| ==> s[ps[k].at..ps[k].at + |ps[k].body|] == ps[k].body
    ensures Apply(s, ps) == s
  {
    if ps != [] {
      var n := |ps| - 1;
      assert forall k :: 0 <= k < n ==> ps[..n][k] == ps[k];
      Idle(s, ps[..n]);
      SpliceSame(s, ps[n]);
    }
  }

  lemma {:induction false} Compose<T>(s: seq<T>, ps: seq<Patch<T>>, qs: seq<Patch<T>>)
    requires Fits(ps, |s|) && Fits(qs, |s|)
    ensures Fits(ps + qs, |s|)
    ensures Apply(s, ps + qs) == Apply(Apply(s, ps), qs)
  {
    hide Apply, Splice;
    assert forall k :: 0 <= k < |ps + qs| ==> (ps + qs)[k] == if k < |ps| then ps[k] else qs[k - |ps|];
    if qs == [] {
      assert ps + qs == ps;
      ApplyNone(Apply(s, ps));
    } else {
      var n := |qs| - 1;
      assert forall k :: 0 <= k < n ==> qs[..n][k] == qs[k];
      Compose(s, ps, qs[..n]);
      assert (ps + qs)[..|ps + qs| - 1] == ps + qs[..n];
      ApplyLast(s, ps + qs);
      ApplyLast(Apply(s, ps), qs);
    }
  }
}
