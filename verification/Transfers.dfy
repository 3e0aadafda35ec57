/** Entering and leaving functions, and carving allocas from the stack. */
module Transfers {
  import opened Words
  import opened IrOps
  import opened Machine
  import opened Encoding
  import opened Ir
  import opened Codegen
  import opened Execution
  import opened Arithmetic
  import opened Relation
  import opened Frames
  import opened Placement
  import opened Operands
  import opened Results
  import opened MemoryOps
  import opened Wide
  import opened Helpers
  import opened Control
  import opened Calls

  // ----- The call instruction -----

  /** The caller's side of a call is complete: arguments and return address are in place. */
  ghost predicate Called(w: World, s: IrState, m: State, fn: Value, args: seq<Value>, u: State)
    requires Here(w, s) && m.State? && Shaped(w.p) && TopInst(w, s).CallFn?
  {
    var f, sp := TopFn(w, s), Sp(w.p, s.stack.top);
    && u.State? && u.regs[EBP] == m.regs[EBP] && Saved(u) == Saved(m) && u.regs[ESP] == sp - 4
    && u.eip == Raw(w, f, m.mem, m.regs[EBP], fn) % W32
    && ArgsHeld(w, f, m.mem, m.regs[EBP], args, sp, u.mem)
    && Read32(u.mem, sp - 4) == ReturnAddr(w, s.stack.top)
    && forall a | !(w.p.limit <= a < s.stack.top.lo) :: Byte(u.mem, a) == Byte(m.mem, a)
  }

  /** call *%eax pushes the address behind it and jumps. */
  lemma CallEaxStep(w: World, k: nat, rest: seq<Item>, u: State)
    requires WorldOk(w) && u.State? && u.eip >= 0 && u.regs[ESP] >= 4 && ItemsAt(w, k, [Ins(CallEax)] + rest, u.eip)
    ensures var t := MachineStep(w, u);
      && t.State? && t.eip == u.regs[EAX] && t.regs == u.regs[ESP := u.regs[ESP] - 4]
      && t.mem == Write32(u.mem, u.regs[ESP] - 4, u.eip + 2) && u.eip + 2 < W32
  {
    hide ItemsAt, WorldOk, MachineStep, Write32, Size;
    StepIsItem(w, k, [Ins(CallEax)] + rest, u);
    ItemsAtParts(w, k, [Ins(CallEax)], rest, u.eip);
    AtBelow(w, k, [Ins(CallEax)], u.eip);
    TwoSizes(Ins(CallEax), Ins(CallEax));
    WordsAreSmall(u.eip + 2);
    WordsAreSmall(u.regs[ESP] - 4);
  }

  lemma CallSplit(f: Fn, i: nat, fn: Value, args: seq<Value>, pool: word, rest: seq<Item>)
    requires i < |f.body|
    ensures CallItems(f, fn, args, pool) + AfterCall(f, i) + rest
            == PassArgs(f, args, 0, pool) + ([MovePart(f, EAX, fn, 0)] + ([Ins(CallEax)] + (AfterCall(f, i) + rest)))
    ensures Size(CallItems(f, fn, args, pool)) == Size(PassArgs(f, args, 0, pool)) + ItemSize(MovePart(f, EAX, fn, 0)) + 2
  {
    hide PassArgs, MovePart, AfterCall, Size;
    var a, b := PassArgs(f, args, 0, pool), [MovePart(f, EAX, fn, 0), Ins(CallEax)];
    SizeAppend(a, b);
    TwoSizes(MovePart(f, EAX, fn, 0), Ins(CallEax));
  }

  lemma CallRun(w: World, s: IrState, m: State, fn: Value, args: seq<Value>) returns (n: nat, u: State)
    requires Related(w, s, m) && TopInst(w, s).CallFn? && TopInst(w, s).fn == fn && TopInst(w, s).args == args
    ensures Shaped(w.p) && Steps(w, n, m) == u && Called(w, s, m, fn, args, u)
  {
    hide Run, Raw, WfFn, WfValue, ItemsAt, Steps, Size, PassArgs, MovePart, AfterCall, Straight, Passing, Read32,
      Write32, WorldOk, Pc, Related, ItemsOf, PoolAddr, ArgsHeld, Fp, Sp, CallItems, EnvOk, BoolsOk, Geo,
      MachineStep;
    RelatedTop(w, s, m);
    var f, k, i := TopFn(w, s), s.stack.top.fn, s.stack.top.pc;
    var pool := PoolAddr(w, k, i) % W32;
    var rest := InstHere(w, s, m);
    CallIs(w, k, i);
    CallSplit(f, i, fn, args, pool, rest);
    var more := [Ins(CallEax)] + (AfterCall(f, i) + rest);
    PassReady(w, s, m, args);
    PassAll(w, s, m, args, 0, pool, m);
    var u1 := Run(w, k, PassArgs(f, args, 0, pool), m);
    PassingFacts(w, s, m, u1);
    RunIsSteps(w, k, PassArgs(f, args, 0, pool), [MovePart(f, EAX, fn, 0)] + more, m);
    var mv := [MovePart(f, EAX, fn, 0)];
    OneOperand(w, k, f, EAX, fn, Ptr, u1);
    PassingRaw(w, s, m, u1, fn, Ptr);
    MoveStraight(f, EAX, fn, 0);
    RunIsSteps(w, k, mv, more, u1);
    TwoSizes(mv[0], mv[0]);
    var u2 := Run(w, k, mv, u1);
    CallEaxStep(w, k, AfterCall(f, i) + rest, u2);
    u := MachineStep(w, u2);
    OneStep(w, u2);
    n := |PassArgs(f, args, 0, pool)| + 1 + 1;
    StepsAdd(w, |PassArgs(f, args, 0, pool)|, 1, m);
    StepsAdd(w, |PassArgs(f, args, 0, pool)| + 1, 1, m);
    ReturnPushed(w, s, m, fn, args, u1, u2, u);
  }

  lemma CallIs(w: World, k: nat, i: nat)
    requires Shaped(w.p) && k < |w.p.fns| && i < |w.p.fns[k].body| && w.p.fns[k].body[i].CallFn?
    ensures var inst := w.p.fns[k].body[i];
      ItemsOf(w.p, w.pool0, k, i) == CallItems(w.p.fns[k], inst.fn, inst.args, PoolAddr(w, k, i) % W32) + AfterCall(w.p.fns[k], i)
  {
    hide CallItems, PoolIndex, OutSize;
  }

  /** What argument passing needs: room and the pooled constants. */
  lemma PassReady(w: World, s: IrState, m: State, args: seq<Value>)
    requires Related(w, s, m) && TopInst(w, s).CallFn? && TopInst(w, s).args == args
    ensures Passing(w, s, m, m)
    ensures m.regs[ESP] as int + ArgsSize(TypesOf(TopFn(w, s), args)) <= s.stack.top.lo
    ensures forall j | 0 <= j < |ArgsPool(TopFn(w, s), args)| ::
      Cell(w, s.stack.top, m.mem, PoolAddr(w, s.stack.top.fn, s.stack.top.pc) % W32 + 8 * j, ArgsPool(TopFn(w, s), args)[j])
  {
    hide Related, Cell, ArgsPool, PoolAddr, WfFn, EnvOk, BoolsOk, Geo;
    RelatedTop(w, s, m);
    OutCovers(TopFn(w, s), s.stack.top.pc, |TopFn(w, s).body|);
    PoolHere(w, s, m);
    assert InstPool(TopFn(w, s), s.stack.top.pc) == ArgsPool(TopFn(w, s), args);
    if ArgsPool(TopFn(w, s), args) != [] {
      PoolWord(w, s, m);
    }
  }

  lemma ReturnPushed(w: World, s: IrState, m: State, fn: Value, args: seq<Value>, u1: State, u2: State, u: State)
    requires Related(w, s, m) && Shaped(w.p) && TopInst(w, s).CallFn? && TopInst(w, s).fn == fn && TopInst(w, s).args == args
    requires Passing(w, s, m, u1) && Kept(u1, u2) && u.State?
    requires u2.regs[EAX] == Raw(w, TopFn(w, s), m.mem, m.regs[EBP], fn) % W32
    requires ArgsHeld(w, TopFn(w, s), m.mem, m.regs[EBP], args, m.regs[ESP], u1.mem)
    requires u.eip == u2.regs[EAX] && u.regs == u2.regs[ESP := u2.regs[ESP] - 4]
    requires u2.regs[ESP] >= 4 && u2.eip + 2 < W32 && u2.eip >= 0
    requires u.mem == Write32(u2.mem, u2.regs[ESP] - 4, u2.eip + 2)
    requires u2.eip == m.eip + Size(PassArgs(TopFn(w, s), args, 0, PoolAddr(w, s.stack.top.fn, s.stack.top.pc) % W32))
                       + ItemSize(MovePart(TopFn(w, s), EAX, fn, 0))
    ensures Called(w, s, m, fn, args, u)
  {
    hide Raw, WfFn, Size, PassArgs, MovePart, Passing, Read32, Write32, PoolAddr, ArgsHeld, EnvOk, BoolsOk, Geo,
      Related, Pc, AfterCall;
    PassingFacts(w, s, m, u1);
    var f, sp := TopFn(w, s), m.regs[ESP];
    CallSplit(f, s.stack.top.pc, fn, args, PoolAddr(w, s.stack.top.fn, s.stack.top.pc) % W32, []);
    EipIsPc(w, s, m);
    ReadWrite32(u2.mem, sp - 4, u2.eip + 2);
    ArgsHeldSame(w, f, m.mem, m.regs[EBP], args, sp, u1.mem, u.mem);
  }

  lemma EipIsPc(w: World, s: IrState, m: State)
    requires Related(w, s, m)
    ensures Shaped(w.p) && m.eip == Pc(w, s.stack.top.fn, s.stack.top.pc)
  {
    hide StackOk, MemOk, PoolOk, Pc, CodeOk, LabelsOk, DataOk, WorldOk, PlanOk;
  }

  // ----- The prolog -----

  lemma PrologRun(w: World, k: nat, f: Fn, u: State)
    requires u.State? && u.regs[ESP] as int - 4 - Vars(f) - Out(f) >= 0
    ensures var t := Run(w, k, Prolog(f), u);
      var b := u.regs[ESP] - 4;
      && t.State? && Saved(t) == Saved(u) && t.regs[EBP] == b && t.regs[ESP] == b - Vars(f) - Out(f)
      && t.mem == Write32(u.mem, b, u.regs[EBP])
    ensures AllStraight(Prolog(f))
  {
    hide Run, ExecItem, Encode, Write32, VarsSize, OutSize;
    var size := Vars(f) + Out(f);
    var i, j, l := PushEbp, MovReg(EBP, ESP), SubEsp(size % W32);
    WordsAreSmall(u.regs[ESP] - 4);
    WordsAreSmall(size);
    WordsAreSmall(u.regs[ESP] - 4 - size);
    RunTwo(w, k, i, j, u);
    RunThen(w, k, [Ins(i), Ins(j)], Ins(l), u);
    var u2 := Run(w, k, [Ins(i), Ins(j)], u);
    RunIns(w, k, l, u2);
    RunAppend(w, k, [Ins(i), Ins(j)], [Ins(l)], u);
    assert [Ins(i), Ins(j)] + [Ins(l)] == Prolog(f);
  }

  // ----- The new frame -----

  /** The callee's arguments are where its frame layout expects them. */
  lemma ArgsArrive(w: World, s: IrState, m: State, g: nat, fr: Frame, args: seq<Value>, vals: seq<nat>, m': Mem)
    requires Related(w, s, m) && g < |w.p.fns| && WfFn(w.p.fns[g]) && fr == Frame(g, 0, ArgEnv(vals), fr.hi, fr.hi)
    requires forall j | 0 <= j < |args| :: WfValue(TopFn(w, s), args[j], TypeOf(TopFn(w, s), args[j]))
    requires ReadAll(w.p, s.stack.top.env, args) == Some(vals)
    requires TypesOf(TopFn(w, s), args) == w.p.fns[g].params
    requires Fp(w.p, fr) + 8 == Sp(w.p, s.stack.top)
    requires ArgsHeld(w, TopFn(w, s), m.mem, m.regs[EBP], args, Sp(w.p, s.stack.top), m')
    ensures EnvOk(w, w.p.fns[g], fr.env, m', Fp(w.p, fr)) && BoolsOk(w, w.p.fns[g], fr.env, m', Fp(w.p, fr))
  {
    hide Related, Fp, Sp, Read32, Read64, ArgsHeld, WfFn, WfValue, ReadAll;
    RelatedTop(w, s, m);
    forall r | r in fr.env ensures NameOk(w, w.p.fns[g], r, fr.env[r], m', Fp(w.p, fr)) {
      OneArrives(w, s, m, g, fr, args, vals, m', r.k);
    }
  }

  lemma OneArrives(w: World, s: IrState, m: State, g: nat, fr: Frame, args: seq<Value>, vals: seq<nat>, m': Mem, j: nat)
    requires Related(w, s, m) && g < |w.p.fns| && fr.fn == g && j < |args| == |vals|
    requires WfValue(TopFn(w, s), args[j], TypeOf(TopFn(w, s), args[j]))
    requires Read(w.p, s.stack.top.env, args[j]) == Some(vals[j])
    requires TypesOf(TopFn(w, s), args) == w.p.fns[g].params
    requires Fp(w.p, fr) + 8 == Sp(w.p, s.stack.top)
    requires ArgsHeld(w, TopFn(w, s), m.mem, m.regs[EBP], args, Sp(w.p, s.stack.top), m')
    ensures NameOk(w, w.p.fns[g], Arg(j), vals[j], m', Fp(w.p, fr))
  {
    hide Related, Fp, Sp, Read32, Read64, ArgsHeld, WfFn, Raw;
    RelatedTop(w, s, m);
    var f, ty := TopFn(w, s), TypeOf(TopFn(w, s), args[j]);
    assert w.p.fns[g].params[j] == ty;
    ArgsHeldAt(w, f, m.mem, m.regs[EBP], args, Sp(w.p, s.stack.top), m', j);
    ArgPosition(w.p.fns[g], j);
    ReadIsRaw(w, f, s.stack.top.env, m.mem, m.regs[EBP], args[j], ty);
    RawOfOwner(w, w.p.fns[g], m', Fp(w.p, fr), Arg(j));
    RootOfOwner(w.p.fns[g], Arg(j));
  }

  lemma SameAllocas(w: World, s: IrState, fr: Frame, a: int)
    requires Here(w, s) && fr.lo == fr.hi
    ensures ValidByte(w.p, Cons(fr, s.stack), a) <==> ValidByte(w.p, s.stack, a)
  {
  }

  /** Writing scratch memory only keeps the whole relation. */
  lemma ScratchKept(w: World, s: IrState, m: State, m': Mem)
    requires Related(w, s, m) && forall a | !(w.p.limit <= a < s.stack.top.lo) :: Byte(m', a) == Byte(m.mem, a)
    ensures Shaped(w.p) && StackOk(w, s.stack, m') && MemOk(w, s.stack, s.mem, m') && PoolOk(w, m')
  {
    hide WfFn, EnvOk, BoolsOk, ReturnAddr, Vars, Out, PoolOk, MemOk, ArgsSize, StackOk, Linked, FrameOk, Pc;
    RelatedTop(w, s, m);
    FrameKept(w, s, m, m');
    OnlyScratch(w, s.stack.top, m.mem, m');
    TopChanged(w, s.stack.top, s.stack.top, s.stack.rest, s.mem, m.mem, m');
  }

  /** The caller's frame and everything below it survive the callee's entry. */
  lemma CallerKept(w: World, s: IrState, m: State, u: State, fn: Value, args: seq<Value>, m': Mem)
    requires Related(w, s, m) && TopInst(w, s).CallFn? && Shaped(w.p)
    requires Called(w, s, m, fn, args, u)
    requires m' == Write32(u.mem, Sp(w.p, s.stack.top) - 8, Fp(w.p, s.stack.top))
    ensures StackOk(w, s.stack, m') && MemOk(w, s.stack, s.mem, m') && PoolOk(w, m')
    ensures Read32(m', Sp(w.p, s.stack.top) - 8) == Fp(w.p, s.stack.top)
    ensures Read32(m', Sp(w.p, s.stack.top) - 4) == ReturnAddr(w, s.stack.top)
    ensures forall a | a >= Sp(w.p, s.stack.top) :: Byte(m', a) == Byte(u.mem, a)
  {
    hide Raw, Read32, Write32, ArgsHeld, ReturnAddr, Vars, PoolOk, MemOk, StackOk, Related, EnvOk, BoolsOk, WfFn,
      OutSize, Geo, WfInst;
    RelatedTop(w, s, m);
    HelperRoom(w, s, m);
    var sp := Sp(w.p, s.stack.top);
    ReadWrite32(u.mem, sp - 8, Fp(w.p, s.stack.top));
    ReadSame(u.mem, m', sp - 4, 4);
    ScratchKept(w, s, m, m');
  }

  lemma FrameKept(w: World, s: IrState, m: State, m': Mem)
    requires Related(w, s, m) && forall a | !(w.p.limit <= a < s.stack.top.lo) :: Byte(m', a) == Byte(m.mem, a)
    ensures FrameOk(w, s.stack.top, m')
  {
    hide WfFn, EnvOk, BoolsOk, ReturnAddr, Vars, Out, PoolOk, MemOk, ArgsSize, Linked, StackOk, FrameOk;
    RelatedTop(w, s, m);
    RestOk(w, s.stack.top, s.stack.rest, m.mem);
    FrameSame(w, s.stack.top, m.mem, m');
  }

  /** The callee's frame joins the relation. */
  lemma EnterStack(w: World, s: IrState, m: State, fr: Frame, args: seq<Value>, vals: seq<nat>, u: State, m': Mem)
    requires Related(w, s, m) && TopInst(w, s).CallFn? && TopInst(w, s).args == args && Shaped(w.p)
    requires Called(w, s, m, TopInst(w, s).fn, args, u)
    requires fr.fn < |w.p.fns| && WfFn(w.p.fns[fr.fn]) && fr == Frame(fr.fn, 0, ArgEnv(vals), fr.hi, fr.hi)
    requires |w.p.fns[fr.fn].body| > 0 && Fp(w.p, fr) + 8 == Sp(w.p, s.stack.top) && w.p.limit <= Sp(w.p, fr) - 8
    requires ReadAll(w.p, s.stack.top.env, args) == Some(vals)
    requires TypesOf(TopFn(w, s), args) == w.p.fns[fr.fn].params && TopInst(w, s).ret == w.p.fns[fr.fn].ret
    requires m' == Write32(u.mem, Sp(w.p, s.stack.top) - 8, Fp(w.p, s.stack.top))
    ensures StackOk(w, Cons(fr, s.stack), m') && MemOk(w, Cons(fr, s.stack), s.mem, m') && PoolOk(w, m')
  {
    hide Raw, WfFn, Read32, Write32, ArgsHeld, EnvOk, BoolsOk, ReturnAddr, Vars, PoolOk, MemOk, ArgsSize, ReadAll,
      StackOk, Linked, ValidByte, OutSize, Related;
    RelatedTop(w, s, m);
    var sp := Sp(w.p, s.stack.top);
    OutCovers(TopFn(w, s), s.stack.top.pc, |TopFn(w, s).body|);
    CallerKept(w, s, m, u, TopInst(w, s).fn, args, m');
    ArgsHeldSame(w, TopFn(w, s), m.mem, m.regs[EBP], args, sp, u.mem, m');
    ArgsArrive(w, s, m, fr.fn, fr, args, vals, m');
    EnterFrame(w, s, fr, m');
    EnterProgram(w, s, fr, m');
  }

  lemma EnterProgram(w: World, s: IrState, fr: Frame, m': Mem)
    requires Here(w, s) && fr.lo == fr.hi && MemOk(w, s.stack, s.mem, m')
    ensures MemOk(w, Cons(fr, s.stack), s.mem, m')
  {
    hide ValidByte;
    forall a | a in s.mem ensures ValidByte(w.p, Cons(fr, s.stack), a) && Byte(m', a) == s.mem[a] {
      SameAllocas(w, s, fr, a);
    }
  }

  lemma LinkedFns(w: World, k: nat)
    requires Linked(w) && k < |w.p.fns|
    ensures WfFn(w.p.fns[k]) && Shaped(w.p)
  {
    hide WfFn, LabelsOk, CodeOk, DataOk, WorldOk, PlanOk;
  }

  lemma OnlyScratch(w: World, fr: Frame, m: Mem, m': Mem)
    requires fr.fn < |w.p.fns| && forall a | !(w.p.limit <= a < fr.lo) :: Byte(m', a) == Byte(m, a)
    ensures OnlyTop(w, fr, m, m')
  {
  }

  /** The links between the callee's frame and its caller's. */
  lemma EnterFrame(w: World, s: IrState, fr: Frame, m': Mem)
    requires Here(w, s) && Shaped(w.p) && TopInst(w, s).CallFn? && StackOk(w, s.stack, m')
    requires fr.fn < |w.p.fns| && fr.pc < |w.p.fns[fr.fn].body| && fr.lo == fr.hi && w.p.limit <= Sp(w.p, fr) - 8
    requires EnvOk(w, w.p.fns[fr.fn], fr.env, m', Fp(w.p, fr)) && BoolsOk(w, w.p.fns[fr.fn], fr.env, m', Fp(w.p, fr))
    requires Fp(w.p, fr) + 8 == Sp(w.p, s.stack.top) && ArgsTop(w.p, fr) <= s.stack.top.lo
    requires TopInst(w, s).ret == w.p.fns[fr.fn].ret
    requires Read32(m', Fp(w.p, fr)) == Fp(w.p, s.stack.top) && Read32(m', Fp(w.p, fr) + 4) == ReturnAddr(w, s.stack.top)
    ensures StackOk(w, Cons(fr, s.stack), m')
  {
    hide EnvOk, BoolsOk, ReturnAddr, Vars, Out, ArgsSize, Read32;
    FrameOrder(w, s.stack, m');
  }

  /** A call step: the machine reaches the callee's first instruction. */
  lemma CallSim(w: World, s: IrState, m: State, s': IrState) returns (n: nat, t: State)
    requires Related(w, s, m) && TopInst(w, s).CallFn? && Step(w.p, true, s) == Some(s')
    ensures Steps(w, n, m) == t && Related(w, s', t)
  {
    hide Raw, WfFn, Read32, Write32, ArgsHeld, EnvOk, BoolsOk, ReturnAddr, ReadAll, Linked, Related, Called, Run,
      Steps, ItemsAt, Prolog, Pc, Size, WorldOk, Straight, TypesOf, Out, Vars;
    RelatedTop(w, s, m);
    var top, inst := s.stack.top, TopInst(w, s);
    var args, fn := inst.args, inst.fn;
    var vals := ReadAll(w.p, top.env, args).value;
    var a := Read(w.p, top.env, fn).value;
    var g := FindFn(w.p, a, 0).value;
    FoundFn(w.p, a, 0);
    RelatedLinked(w, s, m);
    LinkedFns(w, g);
    PlanAt(w, g);
    var fr := s'.stack.top;
    var n1, u := CallRun(w, s, m, fn, args);
    CalledFacts(w, s, m, fn, args, u);
    ReadIsRaw(w, TopFn(w, s), top.env, m.mem, m.regs[EBP], fn, Ptr);
    HelperRoom(w, s, m);
    var rest := PrologAt(w, g);
    var pro := Prolog(w.p.fns[g]);
    PrologRun(w, g, w.p.fns[g], u);
    RunIsSteps(w, g, pro, rest, u);
    t := Run(w, g, pro, u);
    n := n1 + |pro|;
    StepsAdd(w, n1, |pro|, m);
    EnterStack(w, s, m, fr, args, vals, u, t.mem);
    MidIsRelated(w, fr, s.stack, s.mem, t);
  }

  lemma FoundFn(p: Program, a: nat, k: nat)
    requires k <= |p.fns|
    ensures FindFn(p, a, k).Some? ==> FindFn(p, a, k).value < |p.fns| && AddressOf(p, Fun(FindFn(p, a, k).value)) == a
    decreases |p.fns| - k
  {
    if k < |p.fns| && AddressOf(p, Fun(k)) != a {
      FoundFn(p, a, k + 1);
    }
  }

  lemma RelatedLinked(w: World, s: IrState, m: State)
    requires Related(w, s, m)
    ensures Linked(w) && WorldOk(w) && Shaped(w.p)
  {
    hide StackOk, MemOk, PoolOk, Pc, WorldOk, LabelsOk, CodeOk, DataOk, PlanOk, WfFn;
  }

  lemma PlanAt(w: World, k: nat)
    requires Linked(w) && k < |w.p.fns|
    ensures |w.p.plan| == |w.p.fns| && w.p.plan[k] == Plan(Vars(w.p.fns[k]), Out(w.p.fns[k])) && |w.p.fns[k].body| > 0
  {
    hide WorldOk, LabelsOk, CodeOk, DataOk, WfInst, WfBool, Vars, Out;
    assert WfFn(w.p.fns[k]);
  }

  lemma CalledFacts(w: World, s: IrState, m: State, fn: Value, args: seq<Value>, u: State)
    requires Here(w, s) && m.State? && Shaped(w.p) && TopInst(w, s).CallFn? && Called(w, s, m, fn, args, u)
    ensures u.State? && u.regs[EBP] == m.regs[EBP] && Saved(u) == Saved(m) && u.regs[ESP] == Sp(w.p, s.stack.top) - 4
    ensures u.eip == Raw(w, TopFn(w, s), m.mem, m.regs[EBP], fn) % W32
  {
    hide Raw, ArgsHeld, ReturnAddr, Read32, Out;
  }
}
