/** A machine that executes pushes and pops, and the argument that a permuted prologue with a
    permuted epilogue means the same to any program that leaves the save slots alone. */
module Machine {
  import opened Instrs
  import opened Analysis

  type Regs = s: seq<int> | |s| == 16 witness [0, 0, 0, 0, 0, 0, 0, 0, 0, 0, 0, 0, 0, 0, 0, 0]

  /** Registers, with rsp among them, and a memory of 8-byte words. */
  datatype State = State(regs: Regs, mem: map<int, int>)

  function Load(m: map<int, int>, a: int): int {
    if a in m then m[a] else 0
  }

  /** A push stores the value its register has before rsp moves; a pop moves rsp before it writes
      its register. So it is for rsp itself. */
  function Step(i: Instr, s: State): State
    requires !i.kind.Other?
  {
    var sp := s.regs[RSP];
    match i.kind
    case Push(r) => State(s.regs[RSP := sp - 8], s.mem[sp - 8 := s.regs[r]])
    case Pop(r) => State(s.regs[RSP := sp + 8][r := Load(s.mem, sp)], s.mem)
  }

  ghost predicate StackOnly(l: seq<Instr>) {
    forall k :: 0 <= k < |l| ==> !l[k].kind.Other?
  }

  function Exec(l: seq<Instr>, s: State): State
    requires StackOnly(l)
  {
    if l == [] then s else Exec(l[1..], Step(l[0], s))
  }

  ghost predicate Pushes(l: seq<Instr>) {
    forall k :: 0 <= k < |l| ==> l[k].kind.Push?
  }

  /** The value that push number i of l stores when l starts in s. */
  function Stored(l: seq<Instr>, s: State, i: nat): int
    requires i < |l| && !l[i].kind.Other?
  {
    if RegOf(l[i]) == RSP then s.regs[RSP] - 8 * i else s.regs[RegOf(l[i])]
  }

  /** The stack holds what the pushes l stored from state s. */
  ghost predicate Holds(l: seq<Instr>, s: State, mem: map<int, int>)
    requires Pushes(l)
  {
    forall i :: 0 <= i < |l| ==> Load(mem, s.regs[RSP] - 8 * (i + 1)) == Stored(l, s, i)
  }

  predicate IsSlot(a: int, sp: int, n: nat) {
    sp - 8 * n <= a < sp
  }

  /** The save slots of n pushes from stack pointer sp. */
  ghost function SaveSlots(sp: int, n: nat): iset<int> {
    iset a | IsSlot(a, sp, n)
  }

  lemma {:induction false} AfterPushes(l: seq<Instr>, s: State)
    requires Pushes(l)
    ensures var t := Exec(l, s);
      && t.regs == s.regs[RSP := s.regs[RSP] - 8 * |l|]
      && Holds(l, s, t.mem)
      && forall a :: a !in SaveSlots(s.regs[RSP], |l|) ==> Load(t.mem, a) == Load(s.mem, a)
    decreases |l|
  {
    if l != [] {
      var u, t := Step(l[0], s), Exec(l, s);
      var sp := s.regs[RSP];
      AfterPushes(l[1..], u);
      assert Exec(l[1..], u) == t;
      forall i | 0 <= i < |l|
        ensures Load(t.mem, sp - 8 * (i + 1)) == Stored(l, s, i)
      {
        if i > 0 {
          assert Load(t.mem, u.regs[RSP] - 8 * (i - 1 + 1)) == Stored(l[1..], u, i - 1);
        }
      }
    }
  }

  ghost predicate Saves(l: seq<Instr>, r: Reg)
    requires StackOnly(l)
  {
    exists k :: 0 <= k < |l| && RegOf(l[k]) == r
  }

  /** What the registers are after the pops: saved ones have their values from s, rsp is back at
      its value in s, and the others are as in now. */
  function Restored(r: Reg, saved: bool, s: State, now: Regs): int {
    if saved || r == RSP then s.regs[r] else now[r]
  }

  /** The pops that mirror the pushes restore every saved register and rsp, and nothing else. */
  lemma {:induction false} AfterPops(pro: seq<Instr>, epi: seq<Instr>, s: State, t: State)
    requires Mirrors(pro, epi) && Holds(pro, s, t.mem)
    requires t.regs[RSP] == s.regs[RSP] - 8 * |pro|
    ensures Exec(epi, t).mem == t.mem
    ensures forall r: Reg :: Exec(epi, t).regs[r] == Restored(r, Saves(pro, r), s, t.regs)
    decreases |pro|
  {
    if pro != [] {
      var n := |pro| - 1;
      var last := RegOf(pro[n]);
      assert RegOf(epi[0]) == last;
      var u := Step(epi[0], t);
      assert Load(t.mem, s.regs[RSP] - 8 * (n + 1)) == Stored(pro, s, n);
      assert u.regs[RSP] == s.regs[RSP] - 8 * n;
      forall k | 0 <= k < n
        ensures RegOf(epi[1..][k]) == RegOf(pro[..n][n - 1 - k])
      {
        assert RegOf(epi[k + 1]) == RegOf(pro[|pro| - 1 - (k + 1)]);
      }
      forall i | 0 <= i < n
        ensures Load(u.mem, s.regs[RSP] - 8 * (i + 1)) == Stored(pro[..n], s, i)
      {
        assert Stored(pro[..n], s, i) == Stored(pro, s, i);
      }
      AfterPops(pro[..n], epi[1..], s, u);
      forall r: Reg
        ensures Saves(pro, r) <==> Saves(pro[..n], r) || r == last
      {
        SavesLast(pro, r);
      }
    }
  }

  lemma SavesLast(l: seq<Instr>, r: Reg)
    requires StackOnly(l) && l != []
    ensures Saves(l, r) <==> Saves(l[..|l| - 1], r) || r == RegOf(l[|l| - 1])
  {
    var n := |l| - 1;
    if Saves(l, r) {
      var k :| 0 <= k < |l| && RegOf(l[k]) == r;
      assert k < n ==> RegOf(l[..n][k]) == r;
    }
    if Saves(l[..n], r) {
      var k :| 0 <= k < n && RegOf(l[..n][k]) == r;
      assert RegOf(l[k]) == r;
    }
  }

  /** The instructions push or pop registers that are pairwise distinct, and not rsp. */
  ghost predicate DistinctRegs(l: seq<Instr>)
    requires StackOnly(l)
  {
    && (forall i :: 0 <= i < |l| ==> RegOf(l[i]) != RSP)
    && (forall i, j :: 0 <= i < j < |l| ==> RegOf(l[i]) != RegOf(l[j]))
  }

  /** Pops of registers other than rsp. */
  ghost predicate Pops(l: seq<Instr>) {
    forall k :: 0 <= k < |l| ==> l[k].kind.Pop? && l[k].kind.reg != RSP
  }

  /** A state that tells any two registers apart: each holds its own number. */
  const Numbered: State := State([0, 1, 2, 3, 4, 5, 6, 7, 8, 9, 10, 11, 12, 13, 14, 15], map[])

  /** A register that is popped gets its last value, whichever pop that is, and another stays. */
  lemma {:induction false} PoppedValue(epi: seq<Instr>, t: State, r: Reg)
    requires Pops(epi) && r != RSP
    ensures var u := Exec(epi, t);
      u.regs[r] == t.regs[r] || exists k: nat :: PopsAt(epi, k, r) && u.regs[r] == Load(t.mem, t.regs[RSP] + 8 * k)
    decreases |epi|
  {
    if epi != [] {
      var v, u := Step(epi[0], t), Exec(epi, t);
      PoppedValue(epi[1..], v, r);
      if u.regs[r] == v.regs[r] {
        assert PopsAt(epi, 0, r) || v.regs[r] == t.regs[r];
      } else {
        var k: nat :| PopsAt(epi[1..], k, r) && u.regs[r] == Load(v.mem, v.regs[RSP] + 8 * k);
        assert PopsAt(epi, k + 1, r);
      }
    }
  }

  ghost predicate PopsAt(epi: seq<Instr>, k: nat, r: Reg) {
    k < |epi| && epi[k].kind == Pop(r)
  }

  /** If the stack of t holds what the pushes stored from s, the pops give every pushed register its value
      in s. */
  ghost predicate GivesBack(pro: seq<Instr>, epi: seq<Instr>, s: State, t: State)
    requires Pushes(pro) && Pops(epi)
  {
    Holds(pro, s, t.mem) && t.regs[RSP] == s.regs[RSP] - 8 * |pro| ==>
      forall k :: 0 <= k < |pro| ==> Exec(epi, t).regs[RegOf(pro[k])] == s.regs[RegOf(pro[k])]
  }

  /** What is_epilogue tests for is exactly what an epilogue is for: as many pops as there are pushes
      of distinct registers give the registers back, whatever else has happened, if and only if they are
      the register reverse of the pushes. */
  lemma MirrorsExactly(pro: seq<Instr>, epi: seq<Instr>)
    requires Pushes(pro) && DistinctRegs(pro) && Pops(epi) && |epi| == |pro|
    ensures Mirrors(pro, epi) <==> forall s, t :: GivesBack(pro, epi, s, t)
  {
    hide Exec, Mirrors, DistinctRegs, GivesBack;
    if Mirrors(pro, epi) {
      forall s, t
        ensures GivesBack(pro, epi, s, t)
      {
        MirrorsGiveBack(pro, epi, s, t);
      }
    }
    if forall s, t :: GivesBack(pro, epi, s, t) {
      assert GivesBack(pro, epi, Numbered, Emptied(pro));
      OnlyMirrorsGiveBack(pro, epi);
    }
  }

  lemma MirrorsGiveBack(pro: seq<Instr>, epi: seq<Instr>, s: State, t: State)
    requires Mirrors(pro, epi) && Pops(epi)
    ensures Pushes(pro) && GivesBack(pro, epi, s, t)
  {
    hide Exec;
    if Holds(pro, s, t.mem) && t.regs[RSP] == s.regs[RSP] - 8 * |pro| {
      AfterPops(pro, epi, s, t);
      assert forall k :: 0 <= k < |pro| ==> Saves(pro, RegOf(pro[k]));
    }
  }

  const Blank: Regs := [-1, -1, -1, -1, -1, -1, -1, -1, -1, -1, -1, -1, -1, -1, -1, -1]

  /** The state after the pushes from Numbered, with every register but rsp overwritten. */
  ghost function Emptied(pro: seq<Instr>): (t: State)
    requires Pushes(pro)
    ensures t.regs[RSP] == Numbered.regs[RSP] - 8 * |pro| && Holds(pro, Numbered, t.mem)
    ensures forall r: Reg :: r != RSP ==> t.regs[r] == -1
  {
    AfterPushes(pro, Numbered);
    State(Blank[RSP := Numbered.regs[RSP] - 8 * |pro|], Exec(pro, Numbered).mem)
  }

  lemma OnlyMirrorsGiveBack(pro: seq<Instr>, epi: seq<Instr>)
    requires Pushes(pro) && DistinctRegs(pro) && Pops(epi) && |epi| == |pro|
    requires GivesBack(pro, epi, Numbered, Emptied(pro))
    ensures Mirrors(pro, epi)
  {
    hide Exec, Emptied;
    var n := |pro|;
    forall j | 0 <= j < n
      ensures epi[n - 1 - j].kind == Pop(RegOf(pro[j]))
    {
      var r, t := RegOf(pro[j]), Emptied(pro);
      assert Exec(epi, t).regs[r] == r;
      PoppedValue(epi, t, r);
      var k: nat :| PopsAt(epi, k, r) && r == Load(t.mem, t.regs[RSP] + 8 * k);
      var i := n - 1 - k;
      assert Load(t.mem, Numbered.regs[RSP] - 8 * (i + 1)) == Stored(pro, Numbered, i);
      assert RegOf(pro[i]) == RegOf(pro[j]);
      assert i == j;
    }
    forall k | 0 <= k < n
      ensures RegOf(epi[k]) == RegOf(pro[n - 1 - k])
    {
      assert epi[n - 1 - (n - 1 - k)] == epi[k];
    }
  }
}
