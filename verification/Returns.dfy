/** Returning to a suspended caller or to the host, and allocas. */
module Returns {
  import opened Words
  import opened IrOps
  import opened Machine
  import opened Encoding
  import opened Ir
  import opened Codegen
  import opened Execution
  import opened Arithmetic
  import opened Relation
  import opened Frames
  import opened Placement
  import opened Operands
  import opened Results
  import opened MemoryOps
  import opened Wide
  import opened Helpers
  import opened Control
  import opened Calls
  import opened Transfers

  // ----- The return instruction -----

  /** eax, or edx:eax, holds the returned bits. */
  predicate Holding(ty: Type, bits: nat, u: State) {
    u.State? && u.regs[EAX] == bits % W32 && (ty.I64? ==> u.regs[EDX] == bits / W32 % W32)
  }

  lemma TwoParts(w: World, k: nat, f: Fn, v: Value, s: State)
    requires WfFn(f) && WfValue(f, v, I64) && s.State? && Geo(f, s.regs[EBP])
    ensures var t := Run(w, k, [MovePart(f, EAX, v, 0), MovePart(f, EDX, v, 4)], s);
      var x := Raw(w, f, s.mem, s.regs[EBP], v);
      Kept(s, t) && Holding(I64, x, t)
    ensures AllStraight([MovePart(f, EAX, v, 0), MovePart(f, EDX, v, 4)])
  {
    hide MovePart, Raw, ExecItem, WfFn, WfValue, Run, ItemSize, Straight;
    var a, b := MovePart(f, EAX, v, 0), MovePart(f, EDX, v, 4);
    OneOperand(w, k, f, EAX, v, I64, s);
    var u := Run(w, k, [a], s);
    RunThen(w, k, [a], b, s);
    MoveExec(w, k, f, EDX, v, I64, 4, u.(eip := u.eip + ItemSize(b)));
    assert [a] + [b] == [a, b];
    MoveStraight(f, EAX, v, 0);
    MoveStraight(f, EDX, v, 4);
  }

  function ResultMoves(f: Fn, v: Option<Value>): seq<Item> {
    if v.None? then []
    else if TypeOf(f, v.value).I64? then [MovePart(f, EAX, v.value, 0), MovePart(f, EDX, v.value, 4)]
    else [MovePart(f, EAX, v.value, 0)]
  }

  lemma MovesRun(w: World, k: nat, f: Fn, v: Option<Value>, s: State)
    requires WfFn(f) && s.State? && Geo(f, s.regs[EBP]) && (v.Some? ==> WfValue(f, v.value, TypeOf(f, v.value)))
    ensures var t := Run(w, k, ResultMoves(f, v), s);
      Kept(s, t) && (v.Some? ==> Holding(TypeOf(f, v.value), Raw(w, f, s.mem, s.regs[EBP], v.value), t))
    ensures AllStraight(ResultMoves(f, v))
  {
    hide MovePart, Raw, ExecItem, WfFn, WfValue, Run, Straight;
    if v.None? {
      RunNone(w, k, s);
    } else if TypeOf(f, v.value).I64? {
      TwoParts(w, k, f, v.value, s);
    } else {
      OneOperand(w, k, f, EAX, v.value, TypeOf(f, v.value), s);
      MoveStraight(f, EAX, v.value, 0);
    }
  }

  /** leave; ret restores the caller's ebp and esp and jumps to the return address. */
  lemma LeaveRet(w: World, k: nat, rest: seq<Item>, u: State)
    requires WorldOk(w) && u.State? && u.eip >= 0 && u.regs[EBP] as int + 8 <= W32
    requires ItemsAt(w, k, [Ins(Leave)] + ([Ins(Ret)] + rest), u.eip)
    ensures var t := Steps(w, 2, u);
      && t.State? && t.mem == u.mem && t.eip == Read32(u.mem, u.regs[EBP] + 4)
      && t.regs == u.regs[ESP := (u.regs[EBP] as int + 8) % W32][EBP := Read32(u.mem, u.regs[EBP])]
  {
    hide ItemsAt, WorldOk, MachineStep, Size, Read32;
    var a, b := [Ins(Leave)], [Ins(Ret)] + rest;
    StepIsItem(w, k, a + b, u);
    var u1 := MachineStep(w, u);
    OneStep(w, u);
    assert (a + b)[1..] == b;
    WordsAreSmall(u.regs[EBP] as int + 4);
    StepIsItem(w, k, b, u1);
    OneStep(w, u1);
    StepsAdd(w, 1, 1, u);
    assert u.regs[ESP := u.regs[EBP] + 4][EBP := Read32(u.mem, u.regs[EBP])][ESP := (u.regs[EBP] as int + 8) % W32]
        == u.regs[ESP := (u.regs[EBP] as int + 8) % W32][EBP := Read32(u.mem, u.regs[EBP])];
  }

  lemma ReturnIs(w: World, k: nat, i: nat, rest: seq<Item>)
    requires Shaped(w.p) && k < |w.p.fns| && i < |w.p.fns[k].body| && w.p.fns[k].body[i].Return?
    ensures ItemsOf(w.p, w.pool0, k, i) + rest
            == ResultMoves(w.p.fns[k], w.p.fns[k].body[i].result) + ([Ins(Leave)] + ([Ins(Ret)] + rest))
  {
    hide PoolIndex, OutSize, MovePart;
  }

  /** The machine after a return instruction. */
  lemma ReturnRun(w: World, s: IrState, m: State, v: Option<Value>) returns (n: nat, u: State)
    requires Related(w, s, m) && TopInst(w, s) == Return(v)
    ensures Steps(w, n, m) == u && u.State? && u.mem == m.mem && Saved(u) == Saved(m)
    ensures u.eip == Read32(m.mem, Fp(w.p, s.stack.top) + 4) && u.regs[EBP] == Read32(m.mem, Fp(w.p, s.stack.top))
    ensures u.regs[ESP] == (Fp(w.p, s.stack.top) + 8) % W32
    ensures v.Some? ==> Holding(TypeOf(TopFn(w, s), v.value), Raw(w, TopFn(w, s), m.mem, m.regs[EBP], v.value), u)
  {
    hide Related, WfFn, ItemsAt, Run, Steps, Raw, WorldOk, ResultMoves, ItemsOf, Pc, Size, Straight, EnvOk,
      BoolsOk, Read32, Fp, Sp;
    RelatedTop(w, s, m);
    var f, k := TopFn(w, s), s.stack.top.fn;
    var rest := InstHere(w, s, m);
    ReturnIs(w, k, s.stack.top.pc, rest);
    MovesRun(w, k, f, v, m);
    var moves := ResultMoves(f, v);
    RunIsSteps(w, k, moves, [Ins(Leave)] + ([Ins(Ret)] + rest), m);
    var u1 := Run(w, k, moves, m);
    LeaveRet(w, k, rest, u1);
    u := Steps(w, 2, u1);
    n := |moves| + 2;
    StepsAdd(w, |moves|, 2, m);
  }

  // ----- Resuming the caller -----

  /** The program bytes that remain after the callee's allocas are released. */
  lemma ReleasedProgram(w: World, fr: Frame, rest: Stack, prog: Mem, m: Mem)
    requires MemOk(w, Cons(fr, rest), prog, m)
    ensures MemOk(w, rest, Drop(prog, fr.lo, fr.hi), m)
  {
    forall a | a in Drop(prog, fr.lo, fr.hi) ensures ValidByte(w.p, rest, a) && Byte(m, a) == prog[a] {
      assert ValidByte(w.p, Cons(fr, rest), a);
    }
  }

  lemma ItemsAtTail(w: World, k: nat, a: seq<Item>, b: seq<Item>, rest: seq<Item>, pos: nat)
    requires ItemsAt(w, k, a + b + rest, pos)
    ensures ItemsAt(w, k, b + rest, pos + Size(a)) && Size(a + b) == Size(a) + Size(b)
  {
    hide ItemsAt, Size;
    assert a + b + rest == a + (b + rest);
    ItemsAtParts(w, k, a, b + rest, pos);
    SizeAppend(a, b);
  }

  lemma AfterCallAt(w: World, c: Frame) returns (rest: seq<Item>)
    requires Linked(w) && Shaped(w.p) && c.fn < |w.p.fns| && c.pc < |w.p.fns[c.fn].body| && w.p.fns[c.fn].body[c.pc].CallFn?
    ensures var f := w.p.fns[c.fn];
      && ItemsAt(w, c.fn, AfterCall(f, c.pc) + rest, ReturnAddr(w, c))
      && Pc(w, c.fn, c.pc + 1) == ReturnAddr(w, c) + Size(AfterCall(f, c.pc)) && ReturnAddr(w, c) >= 0
  {
    hide Linked, ItemsAt, CallItems, AfterCall, Size, Pc, ItemsOf, PoolAddr, Shaped;
    rest := InstAt(w, c.fn, c.pc);
    var f := w.p.fns[c.fn];
    CallIs(w, c.fn, c.pc);
    var call := CallItems(f, f.body[c.pc].fn, f.body[c.pc].args, PoolAddr(w, c.fn, c.pc) % W32);
    ItemsAtTail(w, c.fn, call, AfterCall(f, c.pc), rest, Pc(w, c.fn, c.pc));
  }

  /** The spill of the returned bits. */
  lemma AfterCallRun(w: World, k: nat, f: Fn, i: nat, u: State)
    requires i < |f.body| && f.body[i].CallFn? && u.State? && Geo(f, u.regs[EBP])
    ensures var t := Run(w, k, AfterCall(f, i), u);
      var at := u.regs[EBP] + SlotOf(f, Res(i));
      && t.State? && t.regs == u.regs
      && SlotBits(f, t.mem, u.regs[EBP], Res(i)) == (if f.body[i].ResultType().I64? then u.regs[EAX] + W32 * u.regs[EDX] else u.regs[EAX])
      && forall a | !(at <= a < at + SlotBytes(f, Res(i))) :: Byte(t.mem, a) == Byte(u.mem, a)
    ensures AllStraight(AfterCall(f, i))
  {
    hide Run, ExecItem, Spill, Geo, Read32, Write32, Read64, SlotOf, ItemSize, Straight;
    var at, one := u.regs[EBP] + SlotOf(f, Res(i)), Spill(f, EAX, i, 0);
    RunOne(w, k, one, u);
    SpillExec(w, k, f, EAX, i, 0, u.(eip := u.eip + ItemSize(one)));
    SpillStraight(f, EAX, i, 0);
    if f.body[i].ResultType().I64? {
      var two := Spill(f, EDX, i, 4);
      var u1 := Run(w, k, [one], u);
      RunThen(w, k, [one], two, u);
      SpillExec(w, k, f, EDX, i, 4, u1.(eip := u1.eip + ItemSize(two)));
      SpillStraight(f, EDX, i, 4);
      assert [one] + [two] == AfterCall(f, i);
      TwoHalves(u.mem, at, u.regs[EAX], u.regs[EDX]);
    } else {
      ReadWrite32(u.mem, at, u.regs[EAX]);
    }
  }

  /** The caller's frame once the call is over. */
  function Resumed(w: World, c: Frame, result: Option<nat>): Frame
    requires c.fn < |w.p.fns|
  {
    var env := Kill(w.p.fns[c.fn], c.env, {c.pc});
    c.(pc := c.pc + 1, env := if result.Some? then env[Res(c.pc) := result.value] else env)
  }

  /** The bits returned are the result the program sees. */
  predicate Returned(ty: Option<Type>, result: Option<nat>, u: State) {
    u.State? && (ty.Some? <==> result.Some?) &&
    (ty.Some? ==> result.value == (if ty.value.I64? then u.regs[EAX] + W32 * u.regs[EDX] else u.regs[EAX] % ty.value.Modulus()))
  }

  lemma ResumedFrame(w: World, c: Frame, m: Mem, m': Mem, result: Option<nat>, u: State)
    requires c.fn < |w.p.fns| && WfFn(w.p.fns[c.fn]) && FrameOk(w, c, m) && c.pc + 1 < |w.p.fns[c.fn].body|
    requires w.p.fns[c.fn].body[c.pc].CallFn? && OnlySlot(w, c, c.pc, m, m')
    requires Returned(w.p.fns[c.fn].body[c.pc].ret, result, u)
    requires SlotBits(w.p.fns[c.fn], m', Fp(w.p, c), Res(c.pc))
             == if w.p.fns[c.fn].body[c.pc].ResultType().I64? then u.regs[EAX] + W32 * u.regs[EDX] else u.regs[EAX]
    ensures FrameOk(w, Resumed(w, c, result), m')
  {
    hide WfFn, SlotBits, SlotOf, SlotBytes, OnlySlot, Raw, Vars, Out, IsBool;
    var f, ty := w.p.fns[c.fn], w.p.fns[c.fn].body[c.pc].ret;
    if ty.Some? {
      if ty.value.I64? {
        DivModUnique(result.value, W64, 0, result.value);
      }
      NoCallBool(f, c.pc);
      StoredFrame(w, c, m, m', result.value);
    } else {
      var fr' := Resumed(w, c, result);
      forall r | r in fr'.env ensures Raw(w, f, m', Fp(w.p, c), Use(r)) == Raw(w, f, m, Fp(w.p, c), Use(r)) {
        VoidNotRef(w, f, c.env, m, Fp(w.p, c), r, c.pc);
        SurvivorsSame(w, c, m, m', 0, r);
      }
      KilledFrame(w, c.(pc := c.pc + 1), fr', m, m');
    }
  }

  lemma NoCallBool(f: Fn, i: nat)
    requires WfFn(f) && i < |f.body| && f.body[i].CallFn?
    ensures i !in f.bools
  {
    if i in f.bools {
      WfFnBool(f, i);
    }
  }

  lemma VoidNotRef(w: World, f: Fn, env: Env, m: Mem, fp: int, r: Ref, i: nat)
    requires EnvOk(w, f, env, m, fp) && r in env && i < |f.body| && !f.body[i].HasResult()
    ensures r != Res(i)
  {
    hide Raw;
  }

  /** From the return address to the instruction after the call. */
  lemma ResumeRun(w: World, c: Frame, r: Stack, prog: Mem, result: Option<nat>, u: State) returns (n: nat, t: State)
    requires Mid(w, c, r, prog, u) && Shaped(w.p) && w.p.fns[c.fn].body[c.pc].CallFn?
    requires u.eip == ReturnAddr(w, c) && Returned(w.p.fns[c.fn].body[c.pc].ret, result, u)
    ensures Steps(w, n, u) == t && Related(w, Running(Cons(Resumed(w, c, result), r), prog), t)
  {
    hide WfFn, ItemsAt, Run, Steps, WorldOk, AfterCall, Pc, Size, Straight, EnvOk, BoolsOk, SlotBits, SlotOf,
      SlotBytes, Linked, FrameOk, Returned, ReturnAddr, StackOk, MemOk, PoolOk, Related, Geo, Vars, Out, SlotSize,
      OnlyTop, Mid;
    MidFacts(w, c, r, prog, u);
    MidState(w, c, r, prog, u);
    MidLinked(w, c, r, prog, u);
    var f, k := w.p.fns[c.fn], c.fn;
    var rest := AfterCallAt(w, c);
    AfterCallRun(w, k, f, c.pc, u);
    RunIsSteps(w, k, AfterCall(f, c.pc), rest, u);
    n, t := |AfterCall(f, c.pc)|, Run(w, k, AfterCall(f, c.pc), u);
    var c' := Resumed(w, c, result);
    assert OnlySlot(w, c, c.pc, u.mem, t.mem);
    ResumedFrame(w, c, u.mem, t.mem, result, u);
    SlotInside(w, c, u.mem, t.mem);
    TopChanged(w, c, c', r, prog, u.mem, t.mem);
    SameGeometry(w.p, c, c');
    MidFrom(w, c', r, prog, t);
    MidIsRelated(w, c', r, prog, t);
  }

  lemma MidLinked(w: World, fr: Frame, rest: Stack, prog: Mem, u: State)
    requires Mid(w, fr, rest, prog, u)
    ensures Linked(w) && StackOk(w, Cons(fr, rest), u.mem) && MemOk(w, Cons(fr, rest), prog, u.mem) && PoolOk(w, u.mem)
  {
    hide Linked, StackOk, MemOk, PoolOk;
  }

  lemma MidFrom(w: World, fr: Frame, rest: Stack, prog: Mem, u: State)
    requires Linked(w) && fr.fn < |w.p.fns| && fr.pc < |w.p.fns[fr.fn].body| && u.State? && Shaped(w.p)
    requires u.regs[EBP] == Fp(w.p, fr) && u.regs[ESP] == Sp(w.p, fr) && Saved(u) == w.hostSaved
    requires StackOk(w, Cons(fr, rest), u.mem) && MemOk(w, Cons(fr, rest), prog, u.mem) && PoolOk(w, u.mem)
    ensures Mid(w, fr, rest, prog, u)
  {
    hide Linked, StackOk, MemOk, PoolOk, Fp, Sp;
  }

  lemma SlotInside(w: World, fr: Frame, m: Mem, m': Mem)
    requires fr.fn < |w.p.fns| && fr.pc < |w.p.fns[fr.fn].body| && !w.p.fns[fr.fn].body[fr.pc].Cast?
    requires OnlySlot(w, fr, fr.pc, m, m')
    ensures OnlyTop(w, fr, m, m')
  {
    hide SlotOf, SlotBytes, VarsSize;
    SlotBounds(w.p.fns[fr.fn], Res(fr.pc));
  }

  // ----- A whole return step -----

  /** The program's result in the machine's registers. */
  lemma ResultAgrees(w: World, s: IrState, m: State, v: Option<Value>, u: State, result: Option<nat>)
    requires Related(w, s, m) && TopInst(w, s) == Return(v) && u.State?
    requires v.Some? ==> Holding(TypeOf(TopFn(w, s), v.value), Raw(w, TopFn(w, s), m.mem, m.regs[EBP], v.value), u)
    requires result == (if v.Some? then Read(w.p, s.stack.top.env, v.value) else None) && (v.Some? ==> result.Some?)
    ensures Returned(TopFn(w, s).ret, result, u)
  {
    hide Related, Raw, WfFn, EnvOk, BoolsOk, Geo;
    RelatedTop(w, s, m);
    if v.Some? {
      var f, ty := TopFn(w, s), TypeOf(TopFn(w, s), v.value);
      ReadIsRaw(w, f, s.stack.top.env, m.mem, m.regs[EBP], v.value, ty);
      if ty.I64? {
        RawWide(w, f, m.mem, m.regs[EBP], v.value);
      }
    }
  }

  lemma RawWide(w: World, f: Fn, m: Mem, fp: int, v: Value)
    requires WfFn(f) && WfValue(f, v, I64)
    ensures var x := Raw(w, f, m, fp, v);
      x < W64 && x % W32 + W32 * (x / W32 % W32) == x && x % W64 == x
  {
    hide WfFn, Read64;
    RootWf(f, v, I64);
    var x := Raw(w, f, m, fp, v);
    DivModUnique(x, W64, 0, x);
    DivModUnique(x / W32, W32, 0, x / W32);
  }

  /** Returning to a suspended caller. */
  lemma ReturnSim(w: World, s: IrState, m: State, s': IrState) returns (n: nat, t: State)
    requires Related(w, s, m) && TopInst(w, s).Return? && s.stack.rest.Cons? && Step(w.p, true, s) == Some(s')
    ensures Steps(w, n, m) == t && Related(w, s', t)
  {
    hide Related, WfFn, Steps, Raw, WorldOk, Pc, EnvOk, BoolsOk, Read32, Fp, Sp, ReturnAddr, Linked, Kill, Drop,
      Mid, StackOk, MemOk, PoolOk, Returned, Holding;
    RelatedTop(w, s, m);
    RelatedLinked(w, s, m);
    var v, fr, c, r := TopInst(w, s).result, s.stack.top, s.stack.rest.top, s.stack.rest.rest;
    var result := if v.Some? then Read(w.p, fr.env, v.value) else None;
    var n1, u := ReturnRun(w, s, m, v);
    ResultAgrees(w, s, m, v, u, result);
    CallerMid(w, s, m, u);
    var prog := Drop(s.mem, fr.lo, fr.hi);
    var n2;
    n2, t := ResumeRun(w, c, r, prog, result, u);
    StepsAdd(w, n1, n2, m);
    n := n1 + n2;
  }

  /** The caller's frame pointer, stack pointer and return address are restored. */
  lemma CallerMid(w: World, s: IrState, m: State, u: State)
    requires Related(w, s, m) && s.stack.rest.Cons? && u.State? && u.mem == m.mem && Shaped(w.p)
    requires u.eip == Read32(m.mem, Fp(w.p, s.stack.top) + 4) && u.regs[EBP] == Read32(m.mem, Fp(w.p, s.stack.top))
    requires u.regs[ESP] == (Fp(w.p, s.stack.top) + 8) % W32 && Saved(u) == Saved(m)
    ensures var c := s.stack.rest.top;
      && Mid(w, c, s.stack.rest.rest, Drop(s.mem, s.stack.top.lo, s.stack.top.hi), u)
      && w.p.fns[c.fn].body[c.pc].CallFn? && w.p.fns[c.fn].body[c.pc].ret == TopFn(w, s).ret
      && u.eip == ReturnAddr(w, c)
  {
    hide Linked, MemOk, PoolOk, Pc, Read32, ReturnAddr, EnvOk, BoolsOk, Vars, Out, ArgsSize, Drop;
    RelatedTop(w, s, m);
    FrameOrder(w, s.stack.rest, m.mem);
    TopInSpace(w, s, m);
    ReleasedProgram(w, s.stack.top, s.stack.rest, s.mem, m.mem);
    WordsAreSmall(Fp(w.p, s.stack.top) + 8);
  }

  /** The host sees the program's result, its own ebp, esp, ebx, esi and edi, and the program's memory. */
  ghost predicate HandedBack(w: World, s: IrState, fr: Frame, t: State)
    requires s.Done? && fr.fn < |w.p.fns|
  {
    && t.State? && t.eip == w.hostRet && t.regs[EBP] == w.hostEbp && Saved(t) == w.hostSaved && t.regs[ESP] == (Fp(w.p, fr) + 8) % W32
    && Returned(w.p.fns[fr.fn].ret, s.ret, t)
    && forall a | a in s.mem :: Byte(t.mem, a) == s.mem[a]
  }

  /** Returning from the outermost call. */
  lemma ExitSim(w: World, s: IrState, m: State, s': IrState) returns (n: nat, t: State)
    requires Related(w, s, m) && TopInst(w, s).Return? && s.stack.rest.Nil? && Step(w.p, true, s) == Some(s')
    ensures Steps(w, n, m) == t && s'.Done? && HandedBack(w, s', s.stack.top, t)
  {
    hide Related, WfFn, Steps, Raw, WorldOk, Pc, EnvOk, BoolsOk, Read32, Fp, Sp, ReturnAddr, Linked, Mid, StackOk,
      MemOk, PoolOk, Returned, Holding;
    RelatedTop(w, s, m);
    RelatedLinked(w, s, m);
    var v, fr := TopInst(w, s).result, s.stack.top;
    var result := if v.Some? then Read(w.p, fr.env, v.value) else None;
    n, t := ReturnRun(w, s, m, v);
    ResultAgrees(w, s, m, v, t, result);
    HostLinks(w, s, m);
    ProgramAgrees(w, s, m);
  }

  lemma HostLinks(w: World, s: IrState, m: State)
    requires Related(w, s, m) && s.stack.rest.Nil?
    ensures Read32(m.mem, Fp(w.p, s.stack.top)) == w.hostEbp && Read32(m.mem, Fp(w.p, s.stack.top) + 4) == w.hostRet
  {
    hide Linked, MemOk, PoolOk, Pc, Read32, EnvOk, BoolsOk, Vars, Out, ArgsSize;
  }
}
