/** Two calls from the host, worked out from the functions' text to the registers at the return: what
    the general theorems say of concrete programs, and that nothing they assume is out of reach. */
module Examples {
  import opened Words
  import opened IrOps
  import opened Machine
  import opened Abi
  import opened Ir
  import opened Execution
  import opened Relation
  import opened CodeBuffer
  import opened Translate
  import opened References
  import opened Translation
  import opened Correctness
  import opened Linking
  import opened Samples
  import Freshness

  lemma CallerDeclared()
    ensures FnDeclared(Caller(), 0, 3) && FnDeclared(Difference(), 0, 3)
  {
  }

  lemma ScaleDeclared()
    ensures FnDeclared(Scale(), 0, 3)
  {
    hide Scale, Declared, OperandsOf;
    var f := Scale();
    ScaleEntry();
    forall i, j | 0 <= i < |f.body| && 0 <= j < |OperandsOf(f.body[i])| ensures Declared(OperandsOf(f.body[i])[j], 0, 3) {
      if i < 5 {
        EntryDeclared(i, j);
      } else {
        RestDeclared(i, j);
      }
    }
  }

  lemma EntryDeclared(i: nat, j: nat)
    requires i < 5 && |Scale().body| == 11 && j < |OperandsOf(Scale().body[i])|
    ensures Declared(OperandsOf(Scale().body[i])[j], 0, 3)
  {
    hide Scale;
    ScaleEntry();
  }

  lemma RestDeclared(i: nat, j: nat)
    requires 5 <= i < 11 && |Scale().body| == 11 && j < |OperandsOf(Scale().body[i])|
    ensures Declared(OperandsOf(Scale().body[i])[j], 0, 3)
  {
    hide Scale;
    ScaleRest();
  }

  lemma SamplesWf(p: Program)
    requires p.fns == Fns()
    ensures WfModule(p, []) && |p.fns| == 3 && forall k | 0 <= k < |p.fns| :: Freshness.Direct(p.fns[k])
  {
    hide WfFn, Freshness.Direct, FnDeclared, Scale, Caller, Difference;
    ScaleEntry();
    ScaleWf();
    ScaleDirect();
    ScaleDeclared();
    CallerWf();
    DifferenceWf();
    CallerDeclared();
    SampleBlocks();
  }

  lemma SampleBlocks()
    ensures Blocks(Scale()) && Blocks(Caller()) && Blocks(Difference())
    ensures |Caller().parent| == |Caller().body| && |Difference().parent| == |Difference().body|
  {
    hide Scale;
    ScaleEntry();
  }

  // ----- Calls from the host -----

  /** A module of functions has been translated and the host calls the k-th. */
  ghost predicate Called(w: World, cb: CodeBuf, p: Program, k: nat, vals: seq<nat>, m: State)
    requires WfModule(p, [])
    reads cb, cb.code, cb.code.buf, cb.data, cb.data.buf
  {
    && Relocated(cb, p, []) && Hosts(w, cb, p, []) && m.State? && Loaded(cb, m.mem)
    && k < |w.p.fns| && HostCall(w, k, vals, m)
  }

  lemma EmptyMemory(base: nat, addresses: map<GlobalRef, word>)
    ensures InitialMemory(base, VariablesBytes(addresses, [], 0)) == map[]
  {
  }

  lemma CalledIs(w: World, cb: CodeBuf, p: Program, k: nat, vals: seq<nat>, m: State)
    requires WfModule(p, []) && Called(w, cb, p, k, vals, m)
    ensures w.p.fns == p.fns && k < |p.fns| && PlanOk(w.p) && 0 <= w.p.limit
    ensures m.State? && vals == StackArgs(m.mem, m.regs[ESP] as int + 4, p.fns[k].params)
  {
    hide WfModule, Relocated, Loaded, PlanOk, StackArgs, WorldOk, StackBytes, Vars, Out;
  }

  lemma Returns(w: World, cb: CodeBuf, p: Program, k: nat, vals: seq<nat>, m: State, n: nat, s': IrState)
    returns (steps: nat, t: State)
    requires p.fns == Fns() && WfModule(p, []) && Called(w, cb, p, k, vals, m) && m.State? && s'.Done? && k < |w.p.fns|
    requires IrRun(w.p, false, n, Start(w.p, k, vals, m.regs[ESP] as int - 4 - Vars(w.p.fns[k]), map[])) == Some(s')
    ensures Steps(w, steps, m) == t && ReturnsTo(m, w.p.fns[k].ret, s'.ret, t)
  {
    hide WfModule, Relocated, Hosts, Loaded, HostCall, Fns, Freshness.Direct, IrRun, Start, Vars, Steps, ReturnsTo;
    SamplesWf(p);
    EmptyMemory(cb.data.base, cb.globals);
    steps, t := DirectModuleRuns(w, cb, p, [], k, vals, m, n, s');
  }

  // ----- Difference -----

  lemma DifferenceStops(p: Program, vals: seq<nat>, hi: int, prog: Mem)
    requires p.fns == Fns() && |p.plan| == 3 && |vals| == 3
    ensures IrRun(p, false, 2, Start(p, 2, vals, hi, prog)) == Some(Done(Some((vals[0] - vals[2]) % W32), Drop(prog, hi, hi)))
  {
    hide Scale, Caller, Drop;
    var v := (vals[0] - vals[2]) % W32;
    var s0 := Start(p, 2, vals, hi, prog);
    var s1 := Running(Cons(Frame(2, 1, ArgEnv(vals)[Res(0) := v], hi, hi), Nil), prog);
    assert Step(p, false, s0) == Some(s1);
    assert Step(p, false, s1) == Some(Done(Some(v), Drop(prog, hi, hi)));
    assert IrRun(p, false, 1, s1) == Some(Done(Some(v), Drop(prog, hi, hi)));
  }

  lemma DifferenceArgs(mem: Mem, a: int)
    ensures var vals := StackArgs(mem, a, Difference().params);
      |vals| == 3 && vals[0] == WordAt(mem, a) && vals[2] == WordAt(mem, a + 12)
  {
    hide WordAt;
    var tys := Difference().params;
    assert tys[1..] == [I64, I32] && tys[1..][1..] == [I32] && tys[1..][1..][1..] == [];
    Pow2Widths();
    WordFits(mem, a);
    WordFits(mem, a + 12);
  }

  lemma WordFits(mem: Mem, a: int)
    ensures WordAt(mem, a) < W32 && WordAt(mem, a) % W32 == WordAt(mem, a)
  {
  }

  /** The host passes three arguments, the second of 64 bits, and finds the first minus the third in eax. */
  lemma DifferenceRuns(w: World, cb: CodeBuf, p: Program, vals: seq<nat>, m: State) returns (steps: nat, t: State)
    requires p.fns == Fns() && WfModule(p, []) && Called(w, cb, p, 2, vals, m)
    ensures m.State? && Steps(w, steps, m) == t && t.State? && t.eip == WordAt(m.mem, m.regs[4])
    ensures t.regs[0] == (WordAt(m.mem, m.regs[4] as int + 4) - WordAt(m.mem, m.regs[4] as int + 16)) % 0x1_0000_0000
  {
    hide WfModule, Called, IrRun, Start, Vars, Steps, WordAt, StackArgs, PlanOk, Scale, Caller, Pow2;
    CalledIs(w, cb, p, 2, vals, m);
    PlanSize(w.p);
    DifferenceArgs(m.mem, m.regs[ESP] as int + 4);
    var hi := m.regs[ESP] as int - 4 - Vars(w.p.fns[2]);
    DifferenceStops(w.p, vals, hi, map[]);
    var v := (vals[0] - vals[2]) % W32;
    steps, t := Returns(w, cb, p, 2, vals, m, 2, Done(Some(v), Drop(map[], hi, hi)));
    Pow2Widths();
  }

  lemma PlanSize(p: Program)
    requires PlanOk(p)
    ensures |p.plan| == |p.fns|
  {
  }

  // ----- Caller and Scale -----

  lemma RunFrom(p: Program, n: nat, s: IrState, s1: IrState)
    requires Step(p, false, s) == Some(s1)
    ensures IrRun(p, false, n + 1, s) == IrRun(p, false, n, s1)
  {
    hide Step;
  }

  lemma NoSteps(p: Program, s: IrState)
    ensures IrRun(p, false, 0, s) == Some(s)
  {
  }

  /** Behind the switch. */
  lemma ScaleEnds(p: Program, hi: int, lo: int, mem: Mem) returns (mem': Mem)
    requires RoomFor(p, hi)
    ensures IrRun(p, false, 7, InScale(p, hi, 4, AfterLoad(p, hi), lo, mem)) == Some(Done(Some(0xa_0000_0032), mem'))
  {
    hide Step, IrRun, InScale, AtReturn, AfterMul, Drop, Scale, Caller, Difference;
    var e0 := AfterLoad(p, hi);
    var e1 := e0[Res(4) := 1];
    var e2 := e1[Res(7) := 10];
    var e3 := e2[Res(8) := 10];
    var back := Drop(mem, lo, CalleeTop(p, hi));
    mem' := Drop(back, hi, hi);
    ScaleCompares(p, hi, lo, mem);
    RunFrom(p, 6, InScale(p, hi, 4, e0, lo, mem), InScale(p, hi, 5, e1, lo, mem));
    ScaleBranches(p, hi, lo, mem);
    RunFrom(p, 5, InScale(p, hi, 5, e1, lo, mem), InScale(p, hi, 7, e1, lo, mem));
    ScaleSelects(p, hi, lo, mem);
    RunFrom(p, 4, InScale(p, hi, 7, e1, lo, mem), InScale(p, hi, 8, e2, lo, mem));
    ScaleWidens(p, hi, lo, mem);
    RunFrom(p, 3, InScale(p, hi, 8, e2, lo, mem), InScale(p, hi, 9, e3, lo, mem));
    ScaleMultiplies(p, hi, lo, mem);
    RunFrom(p, 2, InScale(p, hi, 9, e3, lo, mem), InScale(p, hi, 10, AfterMul(p, hi), lo, mem));
    ScaleReturns(p, hi, lo, mem);
    RunFrom(p, 1, InScale(p, hi, 10, AfterMul(p, hi), lo, mem), AtReturn(p, hi, back));
    CallerReturns(p, hi, back);
    RunFrom(p, 0, AtReturn(p, hi, back), Done(Some(0xa_0000_0032), mem'));
    NoSteps(p, Done(Some(0xa_0000_0032), mem'));
  }

  /** Twelve steps through both functions. */
  lemma CallerEnds(p: Program, hi: int) returns (mem: Mem)
    requires RoomFor(p, hi)
    ensures IrRun(p, false, 12, Start(p, 1, [2], hi, map[])) == Some(Done(Some(0xa_0000_0032), mem))
  {
    hide Step, IrRun, InScale, AfterLoad, AfterStore, Scale, Caller, Difference;
    var top, e0, full := CalleeTop(p, hi), ENTRY[Res(0) := CalleeTop(p, hi) - 8], AfterStore(p, hi);
    mem := ScaleEnds(p, hi, top - 8, full);
    CallerCalls(p, hi);
    assert ArgEnv([2]) == map[Arg(0) := 2];
    RunFrom(p, 11, Start(p, 1, [2], hi, map[]), InScale(p, hi, 0, ENTRY, top, map[]));
    ScaleAllocates(p, hi);
    RunFrom(p, 10, InScale(p, hi, 0, ENTRY, top, map[]), InScale(p, hi, 1, e0, top - 8, map[]));
    ScaleStores(p, hi);
    RunFrom(p, 9, InScale(p, hi, 1, e0, top - 8, map[]), InScale(p, hi, 2, e0, top - 8, full));
    ScaleLoads(p, hi);
    RunFrom(p, 8, InScale(p, hi, 2, e0, top - 8, full), InScale(p, hi, 3, AfterLoad(p, hi), top - 8, full));
    ScaleSwitches(p, hi, top - 8, full);
    RunFrom(p, 7, InScale(p, hi, 3, AfterLoad(p, hi), top - 8, full), InScale(p, hi, 4, AfterLoad(p, hi), top - 8, full));
  }

  /** Called with 2, and with room for Scale's frame on the stack, the translated functions return
      (2^32 + 5) * 10 in edx:eax. */
  lemma CallerRuns(w: World, cb: CodeBuf, p: Program, m: State) returns (steps: nat, t: State)
    requires p.fns == Fns() && WfModule(p, []) && Called(w, cb, p, 1, [2], m) && m.State?
    requires |w.p.plan| == 3 && RoomFor(w.p, m.regs[ESP] as int - 4 - Vars(Caller()))
    ensures Steps(w, steps, m) == t && t.State? && t.eip == WordAt(m.mem, m.regs[4]) && t.regs[2] == 0xa && t.regs[0] == 0x32
  {
    hide WfModule, Called, IrRun, Start, Vars, Steps, WordAt, StackArgs, PlanOk, Scale, Caller, RoomFor;
    CalledIs(w, cb, p, 1, [2], m);
    var mem := CallerEnds(w.p, m.regs[ESP] as int - 4 - Vars(Caller()));
    steps, t := Returns(w, cb, p, 1, [2], m, 12, Done(Some(0xa_0000_0032), mem));
    DivModUnique(0xa_0000_0032, W32, t.regs[2], t.regs[0]);
  }

  // ----- A loop -----

  lemma LoopModule(p: Program)
    requires p.fns == [Freshness.Loop()]
    ensures WfModule(p, []) && Freshness.FreshProgram(p, [Freshness.NothingStale()]) && p.fns[0].ret == Some(I32)
  {
    hide WfFn, Freshness.FreshFn;
    Freshness.LoopWf();
    Freshness.LoopIsFresh();
    assert Blocks(Freshness.Loop()) && FnDeclared(Freshness.Loop(), 0, 1);
  }

  lemma LoopEnds(p: Program, hi: int)
    requires p.fns == [Freshness.Loop()] && |p.plan| == 1
    ensures IrRun(p, false, 4, Start(p, 0, [0], hi, map[])) == Some(Done(Some(5), Drop(map[], hi, hi)))
  {
    hide Step, IrRun, Drop;
    var e0, e1: Env := map[Arg(0) := 0], map[Arg(0) := 0, Res(1) := 5];
    var s1 := Running(Cons(Frame(0, 1, e1, hi, hi), Nil), map[]);
    var s2 := Running(Cons(Frame(0, 2, e1, hi, hi), Nil), map[]);
    var s3 := Running(Cons(Frame(0, 3, e1, hi, hi), Nil), map[]);
    LoopSteps(p, hi);
    assert ArgEnv([0]) == e0;
    RunFrom(p, 3, Start(p, 0, [0], hi, map[]), s1);
    RunFrom(p, 2, s1, s2);
    RunFrom(p, 1, s2, s3);
    RunFrom(p, 0, s3, Done(Some(5), Drop(map[], hi, hi)));
    NoSteps(p, Done(Some(5), Drop(map[], hi, hi)));
  }

  lemma LoopSteps(p: Program, hi: int)
    requires p.fns == [Freshness.Loop()] && |p.plan| == 1
    ensures var e0, e1: Env := map[Arg(0) := 0], map[Arg(0) := 0, Res(1) := 5];
      var s1 := Running(Cons(Frame(0, 1, e1, hi, hi), Nil), map[]);
      var s2 := Running(Cons(Frame(0, 2, e1, hi, hi), Nil), map[]);
      var s3 := Running(Cons(Frame(0, 3, e1, hi, hi), Nil), map[]);
      && Step(p, false, Running(Cons(Frame(0, 0, e0, hi, hi), Nil), map[])) == Some(s1)
      && Step(p, false, s1) == Some(s2) && Step(p, false, s2) == Some(s3)
      && Step(p, false, s3) == Some(Done(Some(5), Drop(map[], hi, hi)))
  {
    hide Edge, Drop;
    Freshness.LoopEdges(p);
  }

  /** The loop, entered with 0: its phi takes 5 on the way in, and that is returned. */
  lemma LoopRuns(w: World, cb: CodeBuf, p: Program, m: State) returns (steps: nat, t: State)
    requires p.fns == [Freshness.Loop()] && WfModule(p, []) && Called(w, cb, p, 0, [0], m)
    ensures m.State? && Steps(w, steps, m) == t && t.State? && t.eip == WordAt(m.mem, m.regs[4]) && t.regs[0] == 5
  {
    hide WfModule, Relocated, Hosts, Loaded, HostCall, IrRun, Start, Vars, Steps, WordAt, StackArgs, PlanOk, Pow2,
      Freshness.Loop, Freshness.FreshProgram;
    CalledIs(w, cb, p, 0, [0], m);
    PlanSize(w.p);
    LoopModule(w.p);
    EmptyMemory(cb.data.base, cb.globals);
    var hi := m.regs[ESP] as int - 4 - Vars(w.p.fns[0]);
    LoopEnds(w.p, hi);
    steps, t := CertifiedModuleRuns(w, cb, p, [], [Freshness.NothingStale()], 0, [0], m, 4, Done(Some(5), Drop(map[], hi, hi)));
    Pow2Widths();
  }
}
