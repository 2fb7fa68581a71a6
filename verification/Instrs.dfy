/** Instructions as the transformer sees them, and what it relies on in the decoder and encoder
    of DynamoRIO. Both are parameters: every result holds for each instruction set that obeys
    the laws below. */
module Instrs {
  import opened Orders

  datatype Option<+T> = None | Some(value: T)

  newtype byte = x: int | 0 <= x < 256

  type Reg = r: int | 0 <= r < 16

  const RSP: Reg := 4
  const RBP: Reg := 5

  datatype Kind = Push(reg: Reg) | Pop(reg: Reg) | Other

  /** A decoded instruction keeps a copy of its bytes. */
  datatype Instr = Instr(kind: Kind, raw: seq<byte>)

  datatype Isa = Isa(decode: seq<byte> -> Option<Instr>, encode: Instr -> Option<seq<byte>>)

  /** Decoding consumes at least one byte, looks at no byte beyond those it consumes, and the
      encoder writes a decoded instruction back as those bytes. */
  ghost predicate Law(isa: Isa, s: seq<byte>, t: seq<byte>) {
    isa.decode(s).Some? ==>
      var i := isa.decode(s).value;
      && i.raw != [] && i.raw <= s
      && (i.raw <= t ==> isa.decode(t) == isa.decode(s))
      && isa.encode(i) == Some(i.raw)
  }

  ghost predicate Lawful(isa: Isa) {
    forall s, t {:trigger Law(isa, s, t)} :: Law(isa, s, t)
  }

  /** An instruction that decodes from its own bytes and encodes to them. */
  ghost predicate Known(isa: Isa, i: Instr) {
    i.raw != [] && isa.decode(i.raw) == Some(i) && isa.encode(i) == Some(i.raw)
  }

  ghost predicate AllKnown(isa: Isa, l: seq<Instr>) {
    forall k :: 0 <= k < |l| ==> Known(isa, l[k])
  }

  lemma Decoded(isa: Isa, s: seq<byte>)
    requires Lawful(isa) && isa.decode(s).Some?
    ensures var i := isa.decode(s).value; Known(isa, i) && i.raw <= s
  {
    assert Law(isa, s, isa.decode(s).value.raw);
  }

  lemma DecodesAgain(isa: Isa, i: Instr, t: seq<byte>)
    requires Lawful(isa) && Known(isa, i) && i.raw <= t
    ensures isa.decode(t) == Some(i)
  {
    assert Law(isa, i.raw, t);
  }

  /** The bytes of a list of instructions. */
  function Flat(l: seq<Instr>): seq<byte> {
    if l == [] then [] else l[0].raw + Flat(l[1..])
  }

  lemma {:induction false} FlatAppend(a: seq<Instr>, b: seq<Instr>)
    ensures Flat(a + b) == Flat(a) + Flat(b)
  {
    if a == [] {
      assert a + b == b;
    } else {
      assert (a + b)[0] == a[0] && (a + b)[1..] == a[1..] + b;
      FlatAppend(a[1..], b);
    }
  }

  lemma FlatOne(i: Instr)
    ensures Flat([i]) == i.raw
  {
    assert Flat([i][1..]) == [];
  }

  lemma FlatSplit(l: seq<Instr>, k: nat)
    requires k <= |l|
    ensures Flat(l) == Flat(l[..k]) + Flat(l[k..])
  {
    assert l == l[..k] + l[k..];
    FlatAppend(l[..k], l[k..]);
  }

  /** The bytes before, in and after the part from a to b. */
  lemma FlatParts(l: seq<Instr>, a: nat, b: nat)
    requires a <= b <= |l|
    ensures Flat(l) == Flat(l[..a]) + Flat(l[a..b]) + Flat(l[b..])
    ensures Flat(l[..b]) == Flat(l[..a]) + Flat(l[a..b])
  {
    FlatSplit(l, b);
    FlatSplit(l[..b], a);
    assert l[..b][..a] == l[..a] && l[..b][a..] == l[a..b];
  }

  /** Taking one instruction out of a list shortens its bytes by that instruction's. */
  lemma FlatWithout(l: seq<Instr>, k: nat)
    requires k < |l|
    ensures |Flat(l)| == |l[k].raw| + |Flat(l[..k] + l[k + 1..])|
  {
    FlatAppend(l[..k], l[k + 1..]);
    FlatParts(l, k, k + 1);
    assert l[k..k + 1] == [l[k]];
    FlatOne(l[k]);
  }

  /** Rearranging a list by a slot table keeps its byte length. */
  lemma {:induction false} FlatPlaced(a: seq<Instr>, o: seq<int>, b: seq<Instr>)
    requires IsPerm(o) && |o| == |a| == |b|
    requires forall i :: 0 <= i < |a| ==> b[o[i]] == a[i]
    ensures |Flat(b)| == |Flat(a)|
    decreases |a|
  {
    hide Flat;
    if a == [] {
      assert a == b;
    } else {
      var n, q := |a| - 1, o[|a| - 1];
      var c := b[..q] + b[q + 1..];
      var o' := Squeeze(o);
      forall i | 0 <= i < n
        ensures c[o'[i]] == a[..n][i]
      {
        assert o[i] != o[n] && b[o[i]] == a[i];
      }
      FlatPlaced(a[..n], o', c);
      assert a[..n] + a[n + 1..] == a[..n];
      FlatWithout(a, n);
      FlatWithout(b, q);
      assert b[o[n]] == a[n];
    }
  }

  lemma {:induction false} FlatNonEmpty(isa: Isa, l: seq<Instr>)
    requires AllKnown(isa, l)
    ensures |Flat(l)| >= |l|
  {
    if l != [] {
      FlatNonEmpty(isa, l[1..]);
    }
  }

  /** What a push or a pop names; the transformer reads this of pushes and pops only. */
  function RegOf(i: Instr): Reg
    requires !i.kind.Other?
  {
    i.kind.reg
  }

  /** The instructions a prologue is made of: pushes, but not of rbp. */
  predicate InPrologue(i: Instr) {
    i.kind.Push? && i.kind.reg != RBP
  }

  /** The instructions an epilogue is made of: pops, but not of rbp. */
  predicate InEpilogue(i: Instr) {
    i.kind.Pop? && i.kind.reg != RBP
  }
}
