/** Executions of nested calls of permuted functions, compared with the originals. */
module Calls {
  import opened Instrs
  import opened Analysis
  import opened Machine

  /** The prologue of each function and its epilogues. */
  datatype Program = Program(prologues: seq<seq<Instr>>, epilogues: seq<seq<seq<Instr>>>)

  /** One execution as a tree. Work is any other code that runs: `run` says what it does to the
      state, and fills names memory that it is known to overwrite. Frame is one activation of
      function fn that leaves through its epilogue number `exit`. */
  datatype Act = Work(run: State -> State, fills: iset<int>) | Frame(fn: nat, exit: nat, body: seq<Act>)

  /** A state with the memory that finished activations have left dead. */
  datatype Config = Config(st: State, dead: iset<int>)

  /** Every prologue is pushes and every epilogue of a function mirrors its prologue. */
  ghost predicate Balanced(p: Program) {
    && |p.prologues| == |p.epilogues|
    && forall f :: 0 <= f < |p.prologues| ==>
         && Pushes(p.prologues[f])
         && forall k :: 0 <= k < |p.epilogues[f]| ==> Mirrors(p.prologues[f], p.epilogues[f][k])
  }

  /** The program has this function and this exit of it, made of pushes and pops. */
  ghost predicate Callable(p: Program, f: nat, k: nat) {
    && f < |p.prologues| && f < |p.epilogues| && k < |p.epilogues[f]|
    && StackOnly(p.prologues[f]) && StackOnly(p.epilogues[f][k])
  }

  /** Executing one act. An act that names no function or no exit of the program does nothing. */
  ghost function RunAct(p: Program, a: Act, c: Config): Config
    decreases a, 1
  {
    match a
    case Work(run, fills) => Config(run(c.st), c.dead - fills)
    case Frame(f, k, body) =>
      if !Callable(p, f, k) then c
      else
        var pro, epi := p.prologues[f], p.epilogues[f][k];
        var slots := SaveSlots(c.st.regs[RSP], |pro|);
        var inner := RunActs(p, body, Config(Exec(pro, c.st), c.dead - slots));
        Config(Exec(epi, inner.st), inner.dead + slots)
  }

  ghost function RunActs(p: Program, acts: seq<Act>, c: Config): Config
    decreases acts, 0
  {
    if acts == [] then c else RunActs(p, acts[1..], RunAct(p, acts[0], c))
  }

  /** Equal registers, and equal memory outside x. */
  ghost predicate Agree(s: State, t: State, x: iset<int>) {
    && s.regs == t.regs
    && forall a :: a !in x ==> Load(s.mem, a) == Load(t.mem, a)
  }

  ghost predicate Keeps(x: iset<int>, s: State, t: State) {
    forall a :: a in x ==> Load(s.mem, a) == Load(t.mem, a)
  }

  /** Work in state c.st that neither reads nor writes the save slots `active` of the activations
      it runs in, and does not read dead memory either. */
  ghost predicate Discreet(run: State -> State, fills: iset<int>, c: Config, active: iset<int>) {
    forall t: State :: Agree(c.st, t, active + c.dead) ==>
      Agree(run(c.st), run(t), active + (c.dead - fills)) && Keeps(active, t, run(t))
  }

  /** What is asked of an execution of the original program: work leaves save slots alone, a
      new activation does not push over the save slots of an active one, and each body returns
      rsp to where it found it. */
  ghost predicate Obeys(p: Program, a: Act, c: Config, active: iset<int>)
    decreases a, 1
  {
    match a
    case Work(run, fills) => Discreet(run, fills, c, active)
    case Frame(f, k, body) =>
      Callable(p, f, k) ==>
        var pro := p.prologues[f];
        var slots := SaveSlots(c.st.regs[RSP], |pro|);
        var start := Config(Exec(pro, c.st), c.dead - slots);
        && active !! slots
        && AllObey(p, body, start, active + slots)
        && RunActs(p, body, start).st.regs[RSP] == start.st.regs[RSP]
  }

  ghost predicate AllObey(p: Program, acts: seq<Act>, c: Config, active: iset<int>)
    decreases acts, 0
  {
    acts != [] ==> Obeys(p, acts[0], c, active) && AllObey(p, acts[1..], RunAct(p, acts[0], c), active)
  }

  /** Two programs whose prologues push the same registers, each in an order of its own. */
  ghost predicate Alike(p: Program, q: Program)
    requires Balanced(p) && Balanced(q)
  {
    && |p.prologues| == |q.prologues|
    && forall f :: 0 <= f < |p.prologues| ==>
         && |p.prologues[f]| == |q.prologues[f]| && |p.epilogues[f]| == |q.epilogues[f]|
         && forall r: Reg :: Saves(p.prologues[f], r) == Saves(q.prologues[f], r)
  }

  /** One act in the two programs, from states that agree outside the save slots and dead memory. */
  ghost predicate Matches(p: Program, q: Program, a: Act, c: Config, t: State, active: iset<int>)
  {
    var r, u := RunAct(p, a, c), RunAct(q, a, Config(t, c.dead));
    && u.dead == r.dead && Agree(r.st, u.st, active + r.dead)
    && Keeps(active, c.st, r.st) && Keeps(active, t, u.st)
  }

  ghost predicate AllMatch(p: Program, q: Program, acts: seq<Act>, c: Config, t: State, active: iset<int>)
  {
    var r, u := RunActs(p, acts, c), RunActs(q, acts, Config(t, c.dead));
    && u.dead == r.dead && Agree(r.st, u.st, active + r.dead)
    && Keeps(active, c.st, r.st) && Keeps(active, t, u.st)
  }

  /** After the two prologues the states agree outside the slots, and each program's slots hold
      what its own pushes stored. */
  lemma Entered(pro: seq<Instr>, pro': seq<Instr>, s: State, t: State, active: iset<int>, dead: iset<int>)
    requires Pushes(pro) && Pushes(pro') && |pro| == |pro'|
    requires Agree(s, t, active + dead)
    ensures var slots := SaveSlots(s.regs[RSP], |pro|);
      && Agree(Exec(pro, s), Exec(pro', t), active + slots + (dead - slots))
      && Exec(pro, s).regs[RSP] == Exec(pro', t).regs[RSP] == s.regs[RSP] - 8 * |pro|
      && Holds(pro, s, Exec(pro, s).mem) && Holds(pro', t, Exec(pro', t).mem)
      && (active !! slots ==> Keeps(active, s, Exec(pro, s)) && Keeps(active, t, Exec(pro', t)))
  {
    AfterPushes(pro, s);
    AfterPushes(pro', t);
  }

  /** Slots that a body kept still hold what the pushes stored. */
  lemma StillHolds(pro: seq<Instr>, s: State, m: State, t: State)
    requires Pushes(pro) && Holds(pro, s, m.mem)
    requires Keeps(SaveSlots(s.regs[RSP], |pro|), m, t)
    ensures Holds(pro, s, t.mem)
  {
    forall i | 0 <= i < |pro|
      ensures Load(t.mem, s.regs[RSP] - 8 * (i + 1)) == Stored(pro, s, i)
    {
      assert IsSlot(s.regs[RSP] - 8 * (i + 1), s.regs[RSP], |pro|);
    }
  }

  /** After the two epilogues the registers are equal again, and memory is untouched. */
  lemma Left(pro: seq<Instr>, epi: seq<Instr>, pro': seq<Instr>, epi': seq<Instr>,
             s: State, t: State, s': State, t': State)
    requires Mirrors(pro, epi) && Mirrors(pro', epi') && |pro| == |pro'|
    requires forall r: Reg :: Saves(pro, r) == Saves(pro', r)
    requires s.regs == t.regs && s'.regs == t'.regs && s'.regs[RSP] == s.regs[RSP] - 8 * |pro|
    requires Holds(pro, s, s'.mem) && Holds(pro', t, t'.mem)
    ensures Exec(epi, s').regs == Exec(epi', t').regs
    ensures Exec(epi, s').mem == s'.mem && Exec(epi', t').mem == t'.mem
  {
    AfterPops(pro, epi, s, s');
    AfterPops(pro', epi', t, t');
    forall i | 0 <= i < 16
      ensures Exec(epi, s').regs[i] == Exec(epi', t').regs[i]
    {
      var r: Reg := i;
    }
  }

  /** Balanced programs that are alike have the same functions and exits. */
  lemma SameCalls(p: Program, q: Program, f: nat, k: nat)
    requires Balanced(p) && Balanced(q) && Alike(p, q)
    ensures Callable(p, f, k) <==> Callable(q, f, k)
    ensures Callable(p, f, k) ==>
      Mirrors(p.prologues[f], p.epilogues[f][k]) && Mirrors(q.prologues[f], q.epilogues[f][k])
  {
    if f < |p.prologues| && k < |p.epilogues[f]| {
      assert Mirrors(p.prologues[f], p.epilogues[f][k]) && Mirrors(q.prologues[f], q.epilogues[f][k]);
    }
  }

  lemma {:induction false} FrameMatches(p: Program, q: Program, a: Act, c: Config, t: State, active: iset<int>)
    requires Balanced(p) && Balanced(q) && Alike(p, q)
    requires a.Frame? && Callable(p, a.fn, a.exit)
    requires Obeys(p, a, c, active) && Agree(c.st, t, active + c.dead)
    ensures Matches(p, q, a, c, t, active)
    decreases a, 1
  {
    hide Exec, Saves, Holds;
    var f, k := a.fn, a.exit;
    SameCalls(p, q, f, k);
    var pro, pro' := p.prologues[f], q.prologues[f];
    var slots := SaveSlots(c.st.regs[RSP], |pro|);
    Entered(pro, pro', c.st, t, active, c.dead);
    var start, t1 := Config(Exec(pro, c.st), c.dead - slots), Exec(pro', t);
    AllMatching(p, q, a.body, start, t1, active + slots);
    var r, u := RunActs(p, a.body, start), RunActs(q, a.body, Config(t1, start.dead));
    StillHolds(pro, c.st, start.st, r.st);
    StillHolds(pro', t, t1, u.st);
    Left(pro, p.epilogues[f][k], pro', q.epilogues[f][k], c.st, t, r.st, u.st);
  }

  /** Meaning is preserved: whatever the orders of the two programs, an execution ends with equal
      registers, equal rsp and equal memory outside dead slots and the slots still in use. */
  lemma {:induction false} Matching(p: Program, q: Program, a: Act, c: Config, t: State, active: iset<int>)
    requires Balanced(p) && Balanced(q) && Alike(p, q)
    requires Obeys(p, a, c, active) && Agree(c.st, t, active + c.dead)
    ensures Matches(p, q, a, c, t, active)
    decreases a, 2
  {
    if a.Frame? {
      SameCalls(p, q, a.fn, a.exit);
      if Callable(p, a.fn, a.exit) {
        FrameMatches(p, q, a, c, t, active);
      }
    }
  }

  lemma {:induction false} AllMatching(p: Program, q: Program, acts: seq<Act>, c: Config, t: State, active: iset<int>)
    requires Balanced(p) && Balanced(q) && Alike(p, q)
    requires AllObey(p, acts, c, active) && Agree(c.st, t, active + c.dead)
    ensures AllMatch(p, q, acts, c, t, active)
    decreases acts, 0
  {
    if acts != [] {
      Matching(p, q, acts[0], c, t, active);
      var r, u := RunAct(p, acts[0], c), RunAct(q, acts[0], Config(t, c.dead));
      AllMatching(p, q, acts[1..], r, u.st, active);
    }
  }
}
