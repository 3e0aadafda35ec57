/** Whole runs: from the host's call, through every step, to the return to the host. */
module Correctness {
  import opened Words
  import opened IrOps
  import opened Machine
  import opened Abi
  import opened Encoding
  import opened Ir
  import opened Codegen
  import opened Execution
  import opened Arithmetic
  import opened Relation
  import opened Frames
  import opened Placement
  import opened Operands
  import opened Results
  import opened MemoryOps
  import opened Helpers
  import opened Control
  import opened Transfers
  import opened Returns
  import opened Simulation
  import opened Agreement
  import opened Freshness

  /** n steps of the program. */
  function IrRun(p: Program, checked: bool, n: nat, s: IrState): Option<IrState> {
    if n == 0 then Some(s) else
    match Step(p, checked, s)
    case None => None
    case Some(s') => IrRun(p, checked, n - 1, s')
  }

  // ----- The outermost frame -----

  /** The function the host called, and the top of that call's allocas. */
  function Bottom(stack: Stack): (nat, int)
    requires stack.Cons?
  {
    if stack.rest.Nil? then (stack.top.fn, stack.top.hi) else Bottom(stack.rest)
  }

  lemma StepBottom(w: World, s: IrState, s': IrState)
    requires Here(w, s) && Step(w.p, true, s) == Some(s') && s'.Running?
    ensures s'.stack.Cons? && Bottom(s'.stack) == Bottom(s.stack)
  {
    hide Read, Edge, BranchEdge, SwitchEdge, FindFn, EvalBin, EvalCmp, EvalExt, Drop, Kill, Define, ReadAll,
      Initialised, Writable;
  }

  // ----- Runs -----

  /** Every finite run of the program, complete or not, is a run of the machine over the emitted
      bytes, and at its end slots, memory, blocks and frames correspond. */
  lemma {:induction false} RunSim(w: World, n: nat, s: IrState, m: State, s': IrState) returns (steps: nat, t: State)
    requires Related(w, s, m) && IrRun(w.p, true, n, s) == Some(s') && s'.Running?
    ensures Steps(w, steps, m) == t && Related(w, s', t) && Bottom(s'.stack) == Bottom(s.stack)
  {
    hide Related, Step, Steps;
    RelatedHere(w, s, m);
    if n == 0 {
      steps, t := 0, m;
      NoSteps(w, m);
    } else {
      var s1 := Step(w.p, true, s).value;
      StillRunning(w.p, n - 1, s1);
      var a, m1 := StepSim(w, s, m, s1);
      StepBottom(w, s, s1);
      var b;
      b, t := RunSim(w, n - 1, s1, m1, s');
      StepsAdd(w, a, b, m);
      steps := a + b;
    }
  }

  lemma NoSteps(w: World, m: State)
    ensures Steps(w, 0, m) == m
  {
  }

  /** A finished program takes no further step. */
  lemma StillRunning(p: Program, n: nat, s: IrState)
    requires IrRun(p, true, n, s).Some? && (n > 0 || s.Running?)
    ensures s.Running?
  {
    hide StepBranch, StepLocal, StepCall, StepReturn;
  }

  lemma {:induction false} RunSplit(p: Program, checked: bool, a: nat, b: nat, s: IrState)
    ensures IrRun(p, checked, a + b, s)
            == match IrRun(p, checked, a, s) case None => None case Some(t) => IrRun(p, checked, b, t)
  {
    hide Step;
    if a > 0 {
      match Step(p, checked, s) {
        case None =>
        case Some(t) => RunSplit(p, checked, a - 1, b, t);
      }
    }
  }

  /** What the host finds when the program is over. */
  ghost predicate Finished(w: World, k: nat, hi: int, s: IrState, t: State)
    requires s.Done? && k < |w.p.fns|
  {
    && t.State? && t.eip == w.hostRet && t.regs[EBP] == w.hostEbp && Saved(t) == w.hostSaved
    && t.regs[ESP] == (hi + Vars(w.p.fns[k]) + 8) % W32
    && Returned(w.p.fns[k].ret, s.ret, t)
    && forall a | a in s.mem :: Byte(t.mem, a) == s.mem[a]
  }

  /** A complete run returns to the host with the program's result in eax or edx:eax, the host's
      ebp and esp, and the program's memory. */
  lemma CompleteRun(w: World, n: nat, s: IrState, m: State, s': IrState) returns (steps: nat, t: State)
    requires Related(w, s, m) && IrRun(w.p, true, n, s) == Some(s') && s'.Done?
    ensures Here(w, s) && Bottom(s.stack).0 < |w.p.fns|
    ensures Steps(w, steps, m) == t && Finished(w, Bottom(s.stack).0, Bottom(s.stack).1, s', t)
  {
    hide Related, Step, Steps, Returned, Vars;
    RelatedHere(w, s, m);
    RunSplit(w.p, true, n - 1, 1, s);
    var s1 := IrRun(w.p, true, n - 1, s).value;
    assert IrRun(w.p, true, 1, s1) == Some(s');
    assert Step(w.p, true, s1) == Some(s');
    StillRunning(w.p, 1, s1);
    var a, m1 := RunSim(w, n - 1, s, m, s1);
    var b;
    b, t := LastSim(w, s1, m1, s');
    ReturnKeeps(w, s1, s');
    StepsAdd(w, a, b, m);
    steps := a + b;
  }

  // ----- The host's call -----

  /** The host has called function k: esp points at the return address, with the arguments above it
      as the calling convention places them, and globals and pooled constants are loaded. */
  ghost predicate Entered(w: World, k: nat, vals: seq<nat>, prog: Mem, m: State)
    requires k < |w.p.fns|
  {
    && m.State? && m.eip == AddressOf(w.p, Fun(k)) && m.regs[EBP] == w.hostEbp && Saved(m) == w.hostSaved
    && Read32(m.mem, m.regs[ESP]) == w.hostRet
    && m.regs[ESP] as int + 4 + StackBytes(w.p.fns[k].params) <= w.top
    && w.p.limit <= m.regs[ESP] as int - 4 - Vars(w.p.fns[k]) - Out(w.p.fns[k]) - 8
    && vals == StackArgs(m.mem, m.regs[ESP] as int + 4, w.p.fns[k].params)
    && (forall a | a in prog :: a in w.p.globals && Byte(m.mem, a) == prog[a])
    && PoolOk(w, m.mem)
  }

  /** The program's view of the same call. */
  function Start(p: Program, k: nat, vals: seq<nat>, hi: int, prog: Mem): IrState {
    Running(Cons(Frame(k, 0, ArgEnv(vals), hi, hi), Nil), prog)
  }

  lemma EntryFacts(w: World, k: nat, vals: seq<nat>, prog: Mem, m: State)
    requires Linked(w) && k < |w.p.fns| && Entered(w, k, vals, prog, m)
    ensures m.State? && m.eip == AddressOf(w.p, Fun(k)) && m.regs[EBP] == w.hostEbp && Saved(m) == w.hostSaved
    ensures 0 <= w.p.limit && w.top <= W32
    ensures w.p.limit <= m.regs[ESP] as int - 4 - Vars(w.p.fns[k]) - Out(w.p.fns[k]) - 8
  {
    hide PoolOk, Vars, Out, LabelsOk, CodeOk, WfFn, SlotBits, Pool, WorldOk, PlanOk, StackBytes, StackArgs;
  }

  /** Bytes at or above the return address and below the stack are what they were at the call. */
  lemma EntryMemory(w: World, k: nat, vals: seq<nat>, prog: Mem, m: State, m': Mem)
    requires Linked(w) && k < |w.p.fns| && Entered(w, k, vals, prog, m)
    requires m' == Write32(m.mem, m.regs[ESP] as int - 4, m.regs[EBP])
    ensures Read32(m', m.regs[ESP] as int - 4) == w.hostEbp && Read32(m', m.regs[ESP]) == w.hostRet
    ensures forall j | 0 <= j < |vals| ::
      vals[j] == SlotBits(w.p.fns[k], m', m.regs[ESP] as int - 4, Arg(j)) % w.p.fns[k].params[j].Modulus()
    ensures PoolOk(w, m') && forall a | a in prog :: a in w.p.globals && Byte(m', a) == prog[a]
  {
    hide Vars, Out, LabelsOk, CodeOk, WfFn, SlotBits, WorldOk, PlanOk, Write32, Read32, Pool, PoolOk, SlotOf, StackArgs,
      StackBytes;
    var at, f := m.regs[ESP] as int - 4, w.p.fns[k];
    ReadWrite32(m.mem, at, m.regs[EBP]);
    ReadSame(m.mem, m', m.regs[ESP], 4);
    forall j | 0 <= j < |vals| ensures vals[j] == SlotBits(f, m', at, Arg(j)) % f.params[j].Modulus() {
      SlotsAreArgs(f, m.mem, at, j);
      SlotBounds(f, Arg(j));
      SlotSame(f, m.mem, m', at, Arg(j));
    }
    PoolSame(w, m.mem, m');
  }

  lemma EntryFrame(w: World, k: nat, vals: seq<nat>, fr: Frame, m': Mem)
    requires Shaped(w.p) && k < |w.p.fns| && |vals| == |w.p.fns[k].params| && |w.p.fns[k].body| > 0
    requires fr == Frame(k, 0, ArgEnv(vals), fr.hi, fr.hi) && w.p.limit <= Sp(w.p, fr) - 8 && ArgsTop(w.p, fr) <= w.top
    requires Read32(m', Fp(w.p, fr)) == w.hostEbp && Read32(m', Fp(w.p, fr) + 4) == w.hostRet
    requires forall j | 0 <= j < |vals| ::
      vals[j] == SlotBits(w.p.fns[k], m', Fp(w.p, fr), Arg(j)) % w.p.fns[k].params[j].Modulus()
    ensures StackOk(w, Cons(fr, Nil), m')
  {
    hide Vars, Out, Read32, SlotBits, ArgsSize, Raw;
    var f, fp := w.p.fns[k], Fp(w.p, fr);
    forall r | r in fr.env ensures NameOk(w, f, r, fr.env[r], m', fp) {
      RawOfOwner(w, f, m', fp, r);
      RootOfOwner(f, r);
    }
    NamesGive(w, f, fr.env, m', fp);
  }

  /** Calling a function from the host establishes the relation once its prolog has run. */
  lemma EntrySim(w: World, k: nat, vals: seq<nat>, prog: Mem, m: State) returns (n: nat, t: State)
    requires Linked(w) && k < |w.p.fns| && Entered(w, k, vals, prog, m)
    ensures Steps(w, n, m) == t
    ensures Related(w, Start(w.p, k, vals, m.regs[ESP] as int - 4 - Vars(w.p.fns[k]), prog), t)
  {
    hide Linked, Entered, Vars, Out, Read32, Write32, SlotBits, PoolOk, Related, Prolog, ItemsAt, Run, Steps, Pc,
      Size, Straight, WfFn, StackOk, ArgsSize, WorldOk;
    EntryFacts(w, k, vals, prog, m);
    LinkedFns(w, k);
    PlanAt(w, k);
    WorldIn(w);
    var rest := PrologAt(w, k);
    var pro := Prolog(w.p.fns[k]);
    PrologRun(w, k, w.p.fns[k], m);
    RunIsSteps(w, k, pro, rest, m);
    n, t := |pro|, Run(w, k, pro, m);
    var hi := m.regs[ESP] as int - 4 - Vars(w.p.fns[k]);
    var fr := Frame(k, 0, ArgEnv(vals), hi, hi);
    EntryMemory(w, k, vals, prog, m, t.mem);
    EntryTop(w, k, vals, prog, m);
    EntryFrame(w, k, vals, fr, t.mem);
    MidFrom(w, fr, Nil, prog, t);
    MidIsRelated(w, fr, Nil, prog, t);
  }

  lemma EntryTop(w: World, k: nat, vals: seq<nat>, prog: Mem, m: State)
    requires k < |w.p.fns| && Entered(w, k, vals, prog, m)
    ensures m.regs[ESP] as int + 4 + ArgsSize(w.p.fns[k].params) <= w.top && |vals| == |w.p.fns[k].params|
  {
    hide PoolOk, Vars, Out, ArgsSize, SlotBits, StackBytes;
    ArgsSizeIs(w.p.fns[k].params);
  }

  lemma WorldIn(w: World)
    requires Linked(w)
    ensures WorldOk(w)
  {
    hide WorldOk, LabelsOk, CodeOk, DataOk, WfFn, PlanOk;
  }

  /** Every finite run of a call from the host, complete or not. */
  lemma HostRun(w: World, k: nat, vals: seq<nat>, prog: Mem, m: State, n: nat, s': IrState) returns (steps: nat, t: State)
    requires Linked(w) && k < |w.p.fns| && Entered(w, k, vals, prog, m)
    requires IrRun(w.p, true, n, Start(w.p, k, vals, m.regs[ESP] as int - 4 - Vars(w.p.fns[k]), prog)) == Some(s') && s'.Running?
    ensures Steps(w, steps, m) == t && Related(w, s', t)
  {
    hide Linked, Entered, Vars, Related, Steps, IrRun, Start;
    EntryFacts(w, k, vals, prog, m);
    var s := Start(w.p, k, vals, m.regs[ESP] as int - 4 - Vars(w.p.fns[k]), prog);
    var a, m1 := EntrySim(w, k, vals, prog, m);
    var b;
    b, t := RunSim(w, n, s, m1, s');
    StepsAdd(w, a, b, m);
    steps := a + b;
  }

  lemma HostReturn(w: World, k: nat, vals: seq<nat>, prog: Mem, m: State, s: IrState, t: State)
    requires k < |w.p.fns| && Entered(w, k, vals, prog, m) && s.Done?
    requires Finished(w, k, m.regs[ESP] as int - 4 - Vars(w.p.fns[k]), s, t)
    ensures m.State? && ReturnsTo(m, w.p.fns[k].ret, s.ret, t)
  {
    hide PoolOk, Vars, Out, StackBytes, StackArgs, Read32, AddressOf;
    LittleEndian(m.mem, m.regs[ESP]);
    if w.p.fns[k].ret.Some? {
      ModulusPow2(w.p.fns[k].ret.value);
    }
  }

  /** The compiler is correct for every call from the host whose program run completes: the
      emitted bytes return to the host as the calling convention demands, with the program's result
      and the program's memory in place. */
  lemma CompiledCall(w: World, k: nat, vals: seq<nat>, prog: Mem, m: State, n: nat, s': IrState) returns (steps: nat, t: State)
    requires Linked(w) && k < |w.p.fns| && Entered(w, k, vals, prog, m)
    requires IrRun(w.p, true, n, Start(w.p, k, vals, m.regs[ESP] as int - 4 - Vars(w.p.fns[k]), prog)) == Some(s') && s'.Done?
    ensures Steps(w, steps, m) == t && m.State? && ReturnsTo(m, w.p.fns[k].ret, s'.ret, t)
    ensures forall a | a in s'.mem :: Byte(t.mem, a) == s'.mem[a]
  {
    hide Linked, Entered, Vars, Related, Steps, IrRun, Returned, ReturnsTo;
    EntryFacts(w, k, vals, prog, m);
    var a, m1 := EntrySim(w, k, vals, prog, m);
    var b;
    b, t := CompleteRun(w, n, Start(w.p, k, vals, m.regs[ESP] as int - 4 - Vars(w.p.fns[k]), prog), m1, s');
    StepsAdd(w, a, b, m);
    steps := a + b;
    HostReturn(w, k, vals, prog, m, s', t);
  }

  // ----- The plain semantics -----

  /** A run that reads no overwritten name is a run of the plain semantics through the same
      blocks, with the same memory and result. */
  lemma {:induction false} RunAgrees(p: Program, n: nat, s: IrState, t: IrState)
    requires StateBelow(s, t) && IrRun(p, true, n, s).Some?
    ensures IrRun(p, false, n, t).Some? && StateBelow(IrRun(p, true, n, s).value, IrRun(p, false, n, t).value)
  {
    hide Step, StateBelow;
    if n > 0 {
      StepAgrees(p, s, t);
      RunAgrees(p, n - 1, Step(p, true, s).value, Step(p, false, t).value);
    }
  }

  lemma StartBelowItself(p: Program, k: nat, vals: seq<nat>, hi: int, prog: Mem)
    ensures StateBelow(Start(p, k, vals, hi, prog), Start(p, k, vals, hi, prog))
  {
  }

  /** The same for LLVM's own semantics: if its run ends and never reads an overwritten name, the
      machine returns that run's result and memory. */
  lemma CompiledProgram(w: World, k: nat, vals: seq<nat>, prog: Mem, m: State, n: nat, s': IrState)
    returns (steps: nat, t: State)
    requires Linked(w) && k < |w.p.fns| && Entered(w, k, vals, prog, m)
    requires var s := Start(w.p, k, vals, m.regs[ESP] as int - 4 - Vars(w.p.fns[k]), prog);
      IrRun(w.p, false, n, s) == Some(s') && s'.Done? && IrRun(w.p, true, n, s).Some?
    ensures Steps(w, steps, m) == t && m.State? && ReturnsTo(m, w.p.fns[k].ret, s'.ret, t)
    ensures forall a | a in s'.mem :: Byte(t.mem, a) == s'.mem[a]
  {
    hide Linked, Entered, Vars, Steps, IrRun, ReturnsTo, Start;
    EntryFacts(w, k, vals, prog, m);
    var hi := m.regs[ESP] as int - 4 - Vars(w.p.fns[k]);
    var s := Start(w.p, k, vals, hi, prog);
    StartBelowItself(w.p, k, vals, hi, prog);
    RunAgrees(w.p, n, s, s);
    steps, t := CompiledCall(w, k, vals, prog, m, n, s');
  }

  // ----- Programs that never read an overwritten name -----

  /** In a program with a certificate every run of LLVM's semantics is a run of the checked one. */
  lemma {:induction false} RunFresh(p: Program, certs: seq<Certificate>, n: nat, s: IrState, t: IrState)
    requires FreshProgram(p, certs) && StateLag(p, certs, s, t) && IrRun(p, false, n, t).Some?
    ensures IrRun(p, true, n, s).Some?
    decreases n
  {
    hide Step, StateLag, FreshProgram;
    CertsMatch(p, certs);
    if n > 0 {
      StepFresh(p, certs, s, t);
      RunFresh(p, certs, n - 1, Step(p, true, s).value, Step(p, false, t).value);
    }
  }

  lemma CertsMatch(p: Program, certs: seq<Certificate>)
    requires FreshProgram(p, certs)
    ensures |certs| == |p.fns|
  {
  }

  lemma StartFresh(p: Program, certs: seq<Certificate>, k: nat, vals: seq<nat>, hi: int, prog: Mem)
    requires FreshProgram(p, certs) && k < |p.fns|
    ensures |certs| == |p.fns| && StateLag(p, certs, Start(p, k, vals, hi, prog), Start(p, k, vals, hi, prog))
  {
    hide WfFn;
    assert FreshFn(p.fns[k], certs[k]);
    LagSame(p.fns[k], certs[k][0], ArgEnv(vals));
    StartBelowItself(p, k, vals, hi, prog);
    assert StackLag(p, certs, Nil, Nil);
  }

  /** For a program with a certificate the compiler is correct on every run of LLVM's semantics that
      ends, without any condition on the run. */
  lemma CertifiedProgram(w: World, certs: seq<Certificate>, k: nat, vals: seq<nat>, prog: Mem, m: State, n: nat, s': IrState)
    returns (steps: nat, t: State)
    requires Linked(w) && FreshProgram(w.p, certs) && k < |w.p.fns| && Entered(w, k, vals, prog, m)
    requires IrRun(w.p, false, n, Start(w.p, k, vals, m.regs[ESP] as int - 4 - Vars(w.p.fns[k]), prog)) == Some(s') && s'.Done?
    ensures Steps(w, steps, m) == t && m.State? && ReturnsTo(m, w.p.fns[k].ret, s'.ret, t)
    ensures forall a | a in s'.mem :: Byte(t.mem, a) == s'.mem[a]
  {
    hide Linked, Entered, Vars, Steps, IrRun, ReturnsTo, Start, FreshProgram, StateLag;
    EntryFacts(w, k, vals, prog, m);
    var hi := m.regs[ESP] as int - 4 - Vars(w.p.fns[k]);
    var s := Start(w.p, k, vals, hi, prog);
    StartFresh(w.p, certs, k, vals, hi, prog);
    RunFresh(w.p, certs, n, s, s);
    steps, t := CompiledProgram(w, k, vals, prog, m, n, s');
  }
}
