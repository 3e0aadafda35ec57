/** The compiler's correctness: every step of the program is a run of the machine over the
    emitted bytes that restores the relation; hence so is every run. */
module Simulation {
  import opened Words
  import opened IrOps
  import opened Machine
  import opened Encoding
  import opened Ir
  import opened Codegen
  import opened Execution
  import opened Arithmetic
  import opened Relation
  import opened Frames
  import opened Placement
  import opened Operands
  import opened Results
  import opened MemoryOps
  import opened Wide
  import opened Helpers
  import opened Control
  import opened Calls
  import opened Transfers
  import opened Returns

  // ----- Allocas -----

  /** Lowering the bottom of the top frame's alloca region. */
  function Lowered(fr: Frame, n: nat): Frame {
    fr.(lo := fr.lo - n)
  }

  lemma LoweredMid(w: World, s: IrState, m: State, n: nat, low: Frame, prog: Mem, u: State)
    requires Related(w, s, m) && low == Lowered(s.stack.top, n) && prog == Drop(s.mem, low.lo, s.stack.top.lo)
    requires u.State? && u.mem == m.mem && u.regs[EBP] == m.regs[EBP] && Saved(u) == Saved(m) && low.fn < |w.p.fns|
    requires u.regs[ESP] == Sp(w.p, low) && w.p.limit <= Sp(w.p, low) - 8
    ensures Mid(w, low, s.stack.rest, prog, u)
  {
    hide Linked, PoolOk, Pc, ReturnAddr, EnvOk, BoolsOk, Vars, Out, ArgsSize, ValidByte;
    RelatedTop(w, s, m);
    var fr, rest := s.stack.top, s.stack.rest;
    forall a | a in prog ensures ValidByte(w.p, Cons(low, rest), a) && Byte(u.mem, a) == prog[a] {
      LoweredValid(w.p, fr, rest, n, a);
    }
  }

  lemma LoweredValid(p: Program, fr: Frame, rest: Stack, n: nat, a: int)
    requires ValidByte(p, Cons(fr, rest), a)
    ensures ValidByte(p, Cons(Lowered(fr, n), rest), a)
  {
  }

  /** subl; leal: esp drops by the size and eax points behind the outgoing area. */
  lemma AllocaHead(w: World, k: nat, n: nat, out: nat, u: State)
    requires u.State? && n < W32 && u.regs[ESP] as int - n >= 0 && u.regs[ESP] as int - n + out < W32
    ensures var t := Run(w, k, [Ins(SubEsp(n % W32)), Ins(LeaEsp(EAX, out % W32))], u);
      t.State? && t.mem == u.mem && t.regs == u.regs[ESP := u.regs[ESP] - n][EAX := u.regs[ESP] - n + out]
  {
    hide Run, ExecItem, Encode;
    WordsAreSmall(n);
    WordsAreSmall(u.regs[ESP] - n);
    EbpAddress(u.regs[ESP] - n, out);
    RunTwo(w, k, SubEsp(n % W32), LeaEsp(EAX, out % W32), u);
  }

  lemma AllocaIs(w: World, k: nat, i: nat)
    requires Shaped(w.p) && k < |w.p.fns| && i < |w.p.fns[k].body| && w.p.fns[k].body[i].Alloca?
    ensures var f := w.p.fns[k];
      && ItemsOf(w.p, w.pool0, k, i)
         == [Ins(SubEsp(f.body[i].size % W32)), Ins(LeaEsp(EAX, Out(f) % W32))] + [Spill(f, EAX, i, 0)]
      && AllStraight(ItemsOf(w.p, w.pool0, k, i))
  {
    hide PoolIndex;
  }

  /** The step's result is the address just above the outgoing area, and until now no byte of its
      buffer belonged to anything: no global, no alloca, no slot or argument, no pooled constant. */
  ghost predicate Carved(w: World, s: IrState, s': IrState, t: State, size: nat)
    requires Here(w, s)
  {
    && s'.Running? && s'.stack.Cons? && t.State?
    && var v := s'.stack.top.lo;
       && Res(s.stack.top.pc) in s'.stack.top.env && s'.stack.top.env[Res(s.stack.top.pc)] == v
       && v == t.regs[ESP] as int + Out(TopFn(w, s)) && v + size == s.stack.top.lo
       && forall a | v <= a < v + size :: Unclaimed(w, s.stack, a)
  }

  ghost predicate Unclaimed(w: World, stack: Stack, a: int) {
    && w.p.limit <= a < w.top && !ValidByte(w.p, stack, a) && !InPrivate(w.p, stack, a)
    && !(w.pool0 <= a < w.pool0 + 8 * |Pool(w.p)|)
  }

  /** Below the top frame's allocas the stack is free. */
  lemma BelowIsFree(w: World, stack: Stack, mem: Mem, a: int)
    requires Shaped(w.p) && DataOk(w) && stack.Cons? && StackOk(w, stack, mem) && w.p.limit <= a < stack.top.lo <= w.top
    ensures Unclaimed(w, stack, a)
  {
    hide Pool, StackOk;
    StackTop(w, stack, mem);
    if InAllocas(stack, a) {
      AllocasAbove(w, stack, mem, a);
    }
    if InPrivate(w.p, stack, a) {
      PrivateApart(w, stack, mem, a);
    }
  }

  lemma StackTop(w: World, stack: Stack, mem: Mem)
    requires Shaped(w.p) && stack.Cons? && StackOk(w, stack, mem)
    ensures stack.top.lo <= stack.top.hi && stack.top.fn < |w.p.fns| && w.p.limit <= Sp(w.p, stack.top) - 8
  {
    hide EnvOk, BoolsOk, ReturnAddr, Vars, Out, ArgsSize;
  }

  lemma AllocaStep(w: World, s: IrState, s': IrState)
    requires Here(w, s) && TopInst(w, s).Alloca? && Step(w.p, true, s) == Some(s')
    ensures s'.Running? && s'.stack.Cons? && s'.stack.top.fn == s.stack.top.fn
    ensures var v := s.stack.top.lo - TopInst(w, s).size;
      s'.stack.top.lo == v >= 0 && Res(s.stack.top.pc) in s'.stack.top.env && s'.stack.top.env[Res(s.stack.top.pc)] == v
  {
    hide Kill, Drop, Room;
  }

  lemma RelatedStack(w: World, s: IrState, m: State)
    requires Related(w, s, m)
    ensures Here(w, s) && m.State? && Shaped(w.p) && DataOk(w) && StackOk(w, s.stack, m.mem) && s.stack.top.lo <= w.top
    ensures w.p.limit <= Sp(w.p, s.stack.top) == m.regs[ESP]
  {
    hide LabelsOk, CodeOk, WfFn, WorldOk, PlanOk, MemOk, PoolOk, DataOk, Pc, StackOk, Vars, Out;
    FrameBelowTop(w, s, m);
    StackTop(w, s.stack, m.mem);
  }

  lemma AllocaCarves(w: World, s: IrState, m: State, s': IrState, t: State)
    requires Related(w, s, m) && TopInst(w, s).Alloca? && Step(w.p, true, s) == Some(s') && Related(w, s', t)
    ensures Carved(w, s, s', t, TopInst(w, s).size)
  {
    hide Related, Step, Out, Pool, StackOk, Unclaimed, DataOk;
    RelatedStack(w, s, m);
    RelatedStack(w, s', t);
    AllocaStep(w, s, s');
    forall a | s'.stack.top.lo <= a < s.stack.top.lo ensures Unclaimed(w, s.stack, a) {
      BelowIsFree(w, s.stack, m.mem, a);
    }
  }

  /** An alloca's buffer is carved between the outgoing area and everything allocated before. */
  lemma AllocaSim(w: World, s: IrState, m: State, s': IrState) returns (n: nat, t: State)
    requires Related(w, s, m) && TopInst(w, s).Alloca? && Step(w.p, true, s) == Some(s')
    ensures Steps(w, n, m) == t && Related(w, s', t)
    ensures Carved(w, s, s', t, TopInst(w, s).size)
  {
    hide Carved, Related, WfFn, Steps, Raw, WorldOk, Pc, EnvOk, BoolsOk, Linked, Mid, StackOk, MemOk, PoolOk, Run, ItemsOf,
      Spill, Size, Straight, Out, Vars, Define, Drop, ItemSize, ExecItem, Geo, Write32, Read32, SlotOf, FrameOk;
    RelatedTop(w, s, m);
    HelperRoom(w, s, m);
    var f, k, i, fr := TopFn(w, s), s.stack.top.fn, s.stack.top.pc, s.stack.top;
    var size, rest := TopInst(w, s).size, s.stack.rest;
    var low, head, sp := Lowered(fr, size), [Ins(SubEsp(size % W32)), Ins(LeaEsp(EAX, Out(f) % W32))], Spill(f, EAX, i, 0);
    AllocaIs(w, k, i);
    AllocaHead(w, k, size, Out(f), m);
    var u := Run(w, k, head, m);
    LoweredMid(w, s, m, size, low, Drop(s.mem, low.lo, fr.lo), u);
    RunThen(w, k, head, sp, m);
    SpillExec(w, k, f, EAX, i, 0, u.(eip := u.eip + ItemSize(sp)));
    t := Run(w, k, head + [sp], m);
    n := |head + [sp]|;
    RunInst(w, s, m, t);
    AllocaStored(w, s, low, Drop(s.mem, fr.lo - size, fr.lo), u, t);
    AllocaCarves(w, s, m, s', t);
  }

  lemma AllocaStored(w: World, s: IrState, low: Frame, prog: Mem, u: State, t: State)
    requires Here(w, s) && TopInst(w, s).Alloca? && low == Lowered(s.stack.top, TopInst(w, s).size) && low.lo >= 0
    requires Mid(w, low, s.stack.rest, prog, u) && t.State? && t.regs == u.regs && u.regs[EAX] == low.lo
    requires t.mem == Write32(u.mem, u.regs[EBP] + SlotOf(TopFn(w, s), Res(low.pc)), u.regs[EAX])
    requires Shaped(w.p) && t.eip == Pc(w, low.fn, low.pc + 1)
    ensures Related(w, Running(Cons(Stored(w, low, low.lo), s.stack.rest), prog), t)
  {
    hide WfFn, Raw, WorldOk, Pc, EnvOk, BoolsOk, Linked, Mid, StackOk, MemOk, PoolOk, Out, Vars, Define, Geo,
      Write32, Read32, SlotOf, FrameOk, Related, OnlyTop, OnlySlot;
    MidFacts(w, low, s.stack.rest, prog, u);
    MidState(w, low, s.stack.rest, prog, u);
    MidLinked(w, low, s.stack.rest, prog, u);
    var f, at := TopFn(w, s), u.regs[EBP] + SlotOf(TopFn(w, s), Res(low.pc));
    ReadWrite32(u.mem, at, u.regs[EAX]);
    if low.pc in f.bools {
      WfFnBool(f, low.pc);
      assert false;
    }
    SlotWritten(w, low, u.mem, t.mem, u.regs[EAX]);
    StoredStack(w, low, s.stack.rest, prog, u.mem, t.mem, low.lo);
    var fr' := Stored(w, low, low.lo);
    SameGeometry(w.p, low, fr');
    MidFrom(w, fr', s.stack.rest, prog, t);
    MidIsRelated(w, fr', s.stack.rest, prog, t);
  }

  lemma SlotWritten(w: World, fr: Frame, m: Mem, m': Mem, x: word)
    requires fr.fn < |w.p.fns| && fr.pc < |w.p.fns[fr.fn].body| && w.p.fns[fr.fn].body[fr.pc].Alloca?
    requires m' == Write32(m, Fp(w.p, fr) + SlotOf(w.p.fns[fr.fn], Res(fr.pc)), x)
    ensures OnlySlot(w, fr, fr.pc, m, m') && SlotBits(w.p.fns[fr.fn], m', Fp(w.p, fr), Res(fr.pc)) == x && x % W32 == x
  {
    hide SlotOf, Write32, Read32, Vars;
    ReadWrite32(m, Fp(w.p, fr) + SlotOf(w.p.fns[fr.fn], Res(fr.pc)), x);
    WordsAreSmall(x);
  }

  // ----- Instructions without code -----

  /** A cast has no code: its value is read through its operand's storage. */
  lemma CastFrame(w: World, fr: Frame, m: Mem, x: nat)
    requires fr.fn < |w.p.fns| && WfFn(w.p.fns[fr.fn]) && FrameOk(w, fr, m) && w.p.fns[fr.fn].body[fr.pc].Cast?
    requires Read(w.p, fr.env, w.p.fns[fr.fn].body[fr.pc].a) == Some(x)
    ensures var inst := w.p.fns[fr.fn].body[fr.pc];
      fr.pc + 1 < |w.p.fns[fr.fn].body|
      && FrameOk(w, fr.(pc := fr.pc + 1, env := fr.env[Res(fr.pc) := x % inst.to.Modulus()]), m)
  {
    hide SlotBits, Vars, Out;
    var f, i, fp := w.p.fns[fr.fn], fr.pc, Fp(w.p, fr);
    assert WfInst(f, i);
    var a, from, to := f.body[i].a, f.body[i].from, f.body[i].to;
    ReadIsRaw(w, f, fr.env, m, fp, a, from);
    NarrowTwice(Raw(w, f, m, fp, a), from, to);
    if IsBool(f, Use(Res(i))) {
      BoolRaw(w, f, fr.env, m, fp, a);
    }
  }

  /** Falling through instructions that emit nothing. */
  lemma NoCode(w: World, s: IrState, m: State, fr': Frame)
    requires Related(w, s, m) && (TopInst(w, s).Cast? || TopInst(w, s).Phi?)
    requires fr' == s.stack.top.(pc := s.stack.top.pc + 1, env := fr'.env) && FrameOk(w, fr', m.mem)
    ensures Related(w, Running(Cons(fr', s.stack.rest), s.mem), m)
  {
    hide WfFn, Raw, WorldOk, Pc, EnvOk, BoolsOk, Linked, Mid, StackOk, MemOk, PoolOk, Related, FrameOk, OnlyTop,
      Fp, Sp;
    RelatedTop(w, s, m);
    RelatedLinked(w, s, m);
    EipIsPc(w, s, m);
    var rest := InstHere(w, s, m);
    NoCodeItems(w, s.stack.top.fn, s.stack.top.pc);
    RelatedIsMid(w, s, m);
    MidLinked(w, s.stack.top, s.stack.rest, s.mem, m);
    OnlyScratch(w, s.stack.top, m.mem, m.mem);
    TopChanged(w, s.stack.top, fr', s.stack.rest, s.mem, m.mem, m.mem);
    SameGeometry(w.p, s.stack.top, fr');
    MidFrom(w, fr', s.stack.rest, s.mem, m);
    MidIsRelated(w, fr', s.stack.rest, s.mem, m);
  }

  lemma NoCodeItems(w: World, k: nat, i: nat)
    requires Shaped(w.p) && k < |w.p.fns| && i < |w.p.fns[k].body| && (w.p.fns[k].body[i].Cast? || w.p.fns[k].body[i].Phi?)
    ensures ItemsOf(w.p, w.pool0, k, i) == [] && Size([]) == 0
  {
    hide PoolIndex, OutSize;
  }

  lemma PhiFrame(w: World, fr: Frame, m: Mem)
    requires fr.fn < |w.p.fns| && FrameOk(w, fr, m) && fr.pc + 1 < |w.p.fns[fr.fn].body|
    ensures FrameOk(w, fr.(pc := fr.pc + 1), m)
  {
    hide EnvOk, BoolsOk, Vars, Out;
  }

  // ----- Straight-line instructions -----

  predicate Local(inst: Inst) {
    inst.Bin? || inst.ICmp? || inst.LoadMem? || inst.StoreMem? || inst.Ext?
  }

  lemma PartsStraight(f: Fn, i: nat)
    ensures forall v, r: Reg, part :: Straight(MovePart(f, r, v, part))
    ensures forall r: Reg, part :: Straight(Spill(f, r, i, part))
    ensures forall v, r: Reg, q: word :: Straight(AddrToReg(f, r, v, q))
  {
    hide MovePart, Spill, AddrToReg, Straight;
    forall v, r: Reg, part ensures Straight(MovePart(f, r, v, part)) {
      MoveStraight(f, r, v, part);
    }
    forall r: Reg, part ensures Straight(Spill(f, r, i, part)) {
      SpillStraight(f, r, i, part);
    }
    forall v, r: Reg, q: word ensures Straight(AddrToReg(f, r, v, q)) {
      AddrStraight(f, r, v, q);
    }
  }

  lemma ComputeStraight(f: Fn, i: nat, pool: word, out: nat)
    requires i < |f.body| == |f.parent| && (f.body[i].Bin? || f.body[i].ICmp?)
    ensures AllStraight(InstItems(f, i, pool, out))
  {
    hide OpItems, CompareItems, MovePart, Spill, AddrToReg, Encode, WfValue, Extend;
    PartsStraight(f, i);
    match f.body[i] {
      case Bin(op, ty, a, b) => if !ty.I64? { OpStraight(op, ty); }
      case ICmp(p, ty, a, b) => if !ty.I64? { CompareStraight(p, ty); }
    }
  }

  /** Computing instructions have straight-line code. */
  lemma LocalStraight(f: Fn, i: nat, pool: word, out: nat)
    requires i < |f.body| == |f.parent| && Local(f.body[i])
    ensures AllStraight(InstItems(f, i, pool, out))
  {
    hide OpItems, CompareItems, MovePart, Spill, AddrToReg, Encode, WfValue, Extend;
    if f.body[i].Bin? || f.body[i].ICmp? {
      ComputeStraight(f, i, pool, out);
    } else {
      PartsStraight(f, i);
      if f.body[i].Ext? {
        ExtendStraight(EAX, f.body[i].sign, f.body[i].from);
      }
    }
  }

  lemma AddrStraight(f: Fn, reg: Reg, v: Value, pool: word)
    ensures Straight(AddrToReg(f, reg, v, pool))
  {
  }

  lemma LocalItems(w: World, k: nat, i: nat)
    requires Shaped(w.p) && k < |w.p.fns| && i < |w.p.fns[k].body| && Local(w.p.fns[k].body[i])
    ensures ItemsOf(w.p, w.pool0, k, i) == InstItems(w.p.fns[k], i, PoolAddr(w, k, i) % W32, Out(w.p.fns[k]))
    ensures AllStraight(ItemsOf(w.p, w.pool0, k, i))
  {
    hide InstItems, PoolIndex, OutSize;
    LocalStraight(w.p.fns[k], i, PoolAddr(w, k, i) % W32, Out(w.p.fns[k]));
  }

  /** What one step of a computing instruction reads and yields. */
  lemma BinStep(w: World, s: IrState, s': IrState) returns (v: nat)
    requires Here(w, s) && TopInst(w, s).Bin? && Step(w.p, true, s) == Some(s')
    ensures var inst, env := TopInst(w, s), s.stack.top.env;
      && Read(w.p, env, inst.a).Some? && Read(w.p, env, inst.b).Some?
      && EvalBin(inst.op, inst.ty, Read(w.p, env, inst.a).value, Read(w.p, env, inst.b).value) == Some(v)
      && s' == AfterResult(w, s, v)
  {
    hide EvalBin, Read, Define;
    var inst, env := TopInst(w, s), s.stack.top.env;
    v := EvalBin(inst.op, inst.ty, Read(w.p, env, inst.a).value, Read(w.p, env, inst.b).value).value;
  }

  lemma BinSim(w: World, s: IrState, m: State, s': IrState) returns (n: nat, t: State)
    requires Related(w, s, m) && TopInst(w, s).Bin? && Step(w.p, true, s) == Some(s')
    ensures Steps(w, n, m) == t && Related(w, s', t)
  {
    hide Related, WfFn, Steps, Run, ItemsOf, Straight, Delivers, EvalBin, Read, Step, AfterResult, OpItems,
      MovePart, PassAddr, Spill, EnvOk, BoolsOk, Geo, WorldOk, WfValue, AllStraight, BinItems;
    RelatedTop(w, s, m);
    var inst, k, i := TopInst(w, s), s.stack.top.fn, s.stack.top.pc;
    var v := BinStep(w, s, s');
    LocalItems(w, k, i);
    if inst.ty.I64? {
      BinWideRun(w, s, m, inst.op, inst.a, inst.b, v);
    } else {
      NarrowBin(TopFn(w, s), i, inst.op, inst.ty, inst.a, inst.b, PoolAddr(w, k, i) % W32);
      BinRun(w, s, m, inst.op, inst.ty, inst.a, inst.b, v);
    }
    n, t := |ItemsOf(w.p, w.pool0, k, i)|, Run(w, k, ItemsOf(w.p, w.pool0, k, i), m);
    Finish(w, s, m, t, v);
  }

  lemma NarrowBin(f: Fn, i: nat, op: BinOp, ty: Type, a: Value, b: Value, pool: word)
    requires OneWord(ty)
    ensures BinItems(f, i, op, ty, a, b, pool)
            == [MovePart(f, EAX, a, 0), MovePart(f, ECX, b, 0)] + OpItems(op, ty.Bits()) + [Spill(f, ResultReg(op), i, 0)]
  {
    hide MovePart, OpItems, Spill;
  }

  lemma ICmpStep(w: World, s: IrState, s': IrState) returns (v: nat)
    requires Here(w, s) && TopInst(w, s).ICmp? && Step(w.p, true, s) == Some(s')
    ensures var inst, env := TopInst(w, s), s.stack.top.env;
      && Read(w.p, env, inst.a).Some? && Read(w.p, env, inst.b).Some?
      && v == (if EvalCmp(inst.pred, inst.ty, Read(w.p, env, inst.a).value, Read(w.p, env, inst.b).value) then 1 else 0)
      && s' == AfterResult(w, s, v)
  {
    hide EvalCmp, Read, Define;
    var inst, env := TopInst(w, s), s.stack.top.env;
    v := if EvalCmp(inst.pred, inst.ty, Read(w.p, env, inst.a).value, Read(w.p, env, inst.b).value) then 1 else 0;
  }

  lemma ICmpSim(w: World, s: IrState, m: State, s': IrState) returns (n: nat, t: State)
    requires Related(w, s, m) && TopInst(w, s).ICmp? && Step(w.p, true, s) == Some(s')
    ensures Steps(w, n, m) == t && Related(w, s', t)
  {
    hide Related, WfFn, Steps, Run, ItemsOf, Straight, Delivers, EvalCmp, Read, Step, AfterResult, CompareItems,
      MovePart, PassAddr, Spill, EnvOk, BoolsOk, Geo, WorldOk, WfValue, AllStraight, ICmpItems;
    RelatedTop(w, s, m);
    var inst, k, i := TopInst(w, s), s.stack.top.fn, s.stack.top.pc;
    var v := ICmpStep(w, s, s');
    LocalItems(w, k, i);
    if inst.ty.I64? {
      ICmpWideRun(w, s, m, inst.pred, inst.a, inst.b, v);
    } else {
      NarrowICmp(TopFn(w, s), i, inst.pred, inst.ty, inst.a, inst.b, PoolAddr(w, k, i) % W32);
      ICmpRun(w, s, m, inst.pred, inst.ty, inst.a, inst.b, v);
    }
    n, t := |ItemsOf(w.p, w.pool0, k, i)|, Run(w, k, ItemsOf(w.p, w.pool0, k, i), m);
    Finish(w, s, m, t, v);
  }

  lemma NarrowICmp(f: Fn, i: nat, p: Pred, ty: Type, a: Value, b: Value, pool: word)
    requires OneWord(ty)
    ensures ICmpItems(f, i, p, ty, a, b, pool)
            == [MovePart(f, ECX, a, 0), MovePart(f, EAX, b, 0)] + CompareItems(p, ty.Bits()) + [Spill(f, EDX, i, 0)]
  {
    hide MovePart, CompareItems, Spill;
  }

  lemma LoadStep(w: World, s: IrState, s': IrState) returns (v: nat)
    requires Here(w, s) && TopInst(w, s).LoadMem? && Step(w.p, true, s) == Some(s')
    ensures var inst, env := TopInst(w, s), s.stack.top.env;
      && Read(w.p, env, inst.at).Some? && Initialised(s.mem, Read(w.p, env, inst.at).value, SizeOf(inst.ty))
      && v == ReadMem(s.mem, Read(w.p, env, inst.at).value, inst.ty) && s' == AfterResult(w, s, v)
  {
    hide ReadMem, Read, Define, Initialised;
    v := ReadMem(s.mem, Read(w.p, s.stack.top.env, TopInst(w, s).at).value, TopInst(w, s).ty);
  }

  lemma LoadSim(w: World, s: IrState, m: State, s': IrState) returns (n: nat, t: State)
    requires Related(w, s, m) && TopInst(w, s).LoadMem? && Step(w.p, true, s) == Some(s')
    ensures Steps(w, n, m) == t && Related(w, s', t)
  {
    hide Related, WfFn, Steps, Run, ItemsOf, Straight, Delivers, Read, Step, AfterResult, MovePart, Spill, EnvOk,
      BoolsOk, Geo, WorldOk, WfValue, Initialised, Read16, Read32, Read64, LoadItems, LoadOp, AllStraight;
    RelatedTop(w, s, m);
    var inst, k, i := TopInst(w, s), s.stack.top.fn, s.stack.top.pc;
    var v := LoadStep(w, s, s');
    LocalItems(w, k, i);
    if inst.ty.I64? {
      LoadWideRun(w, s, m, inst.at);
    } else {
      LoadRun(w, s, m, inst.ty, inst.at);
      NarrowLoad(TopFn(w, s), i, inst.ty, inst.at);
    }
    n, t := |ItemsOf(w.p, w.pool0, k, i)|, Run(w, k, ItemsOf(w.p, w.pool0, k, i), m);
    Finish(w, s, m, t, v);
  }

  lemma NarrowLoad(f: Fn, i: nat, ty: Type, at: Value)
    requires Narrow(ty)
    ensures LoadItems(f, i, ty, at) == [MovePart(f, EAX, at, 0), Ins(LoadOp(ty)), Spill(f, EAX, i, 0)]
  {
    hide MovePart, Spill;
  }

  lemma ExtStep(w: World, s: IrState, s': IrState) returns (v: nat)
    requires Here(w, s) && TopInst(w, s).Ext? && Step(w.p, true, s) == Some(s')
    ensures var inst, env := TopInst(w, s), s.stack.top.env;
      && Read(w.p, env, inst.a).Some? && v == EvalExt(inst.sign, inst.from, inst.to, Read(w.p, env, inst.a).value)
      && s' == AfterResult(w, s, v)
  {
    hide EvalExt, Read, Define;
    var inst := TopInst(w, s);
    v := EvalExt(inst.sign, inst.from, inst.to, Read(w.p, s.stack.top.env, inst.a).value);
  }

  lemma ExtSim(w: World, s: IrState, m: State, s': IrState) returns (n: nat, t: State)
    requires Related(w, s, m) && TopInst(w, s).Ext? && Step(w.p, true, s) == Some(s')
    ensures Steps(w, n, m) == t && Related(w, s', t)
  {
    hide Related, WfFn, Steps, Run, ItemsOf, Straight, Delivers, Read, Step, AfterResult, MovePart, Spill, EnvOk,
      BoolsOk, Geo, WorldOk, WfValue, EvalExt, Extend, ExtItems, AllStraight;
    RelatedTop(w, s, m);
    var inst, k, i := TopInst(w, s), s.stack.top.fn, s.stack.top.pc;
    var v := ExtStep(w, s, s');
    LocalItems(w, k, i);
    if inst.to.I64? {
      ExtWideRun(w, s, m, inst.sign, inst.from, inst.a);
    } else {
      NarrowExt(TopFn(w, s), i, inst.sign, inst.from, inst.to, inst.a);
      ExtRun(w, s, m, inst.sign, inst.from, inst.to, inst.a);
    }
    n, t := |ItemsOf(w.p, w.pool0, k, i)|, Run(w, k, ItemsOf(w.p, w.pool0, k, i), m);
    Finish(w, s, m, t, v);
  }

  lemma NarrowExt(f: Fn, i: nat, sign: bool, from: Type, to: Type, a: Value)
    requires OneWord(to)
    ensures ExtItems(f, i, sign, from, to, a) == [MovePart(f, EAX, a, 0)] + Extend(EAX, sign, from.Bits()) + [Spill(f, EAX, i, 0)]
  {
    hide MovePart, Spill, Extend;
  }

  lemma SelectSim(w: World, s: IrState, m: State, s': IrState) returns (n: nat, t: State)
    requires Related(w, s, m) && TopInst(w, s).Select? && Step(w.p, true, s) == Some(s')
    ensures Steps(w, n, m) == t && Related(w, s', t)
  {
    hide Related, WfFn, Steps, Delivers, Read, Define, EnvOk, BoolsOk, Geo, WorldOk, Pc;
    RelatedTop(w, s, m);
    var inst, env := TopInst(w, s), s.stack.top.env;
    n, t := SelectRun(w, s, m, inst.ty, inst.c, inst.a, inst.b);
    Landed(w, s, m, t, if Read(w.p, env, inst.c).value == 1 then Read(w.p, env, inst.a).value else Read(w.p, env, inst.b).value);
  }

  lemma StoreSim(w: World, s: IrState, m: State, s': IrState) returns (n: nat, t: State)
    requires Related(w, s, m) && TopInst(w, s).StoreMem? && Step(w.p, true, s) == Some(s')
    ensures Steps(w, n, m) == t && Related(w, s', t)
  {
    hide Related, WfFn, Steps, Run, ItemsOf, Straight, Read, MovePart, Spill, EnvOk, BoolsOk, Geo, WorldOk,
      WfValue, Writable, WriteMem, SameWrite, Pc, AddrToReg;
    RelatedTop(w, s, m);
    var inst, k, i := TopInst(w, s), s.stack.top.fn, s.stack.top.pc;
    var a, x := Read(w.p, s.stack.top.env, inst.at).value, Read(w.p, s.stack.top.env, inst.v).value;
    LocalItems(w, k, i);
    if inst.ty.I64? {
      StoreWideRun(w, s, m, inst.v, inst.at);
    } else {
      StoreRun(w, s, m, inst.ty, inst.v, inst.at);
      NarrowStore(TopFn(w, s), inst.ty, inst.v, inst.at, PoolAddr(w, k, i) % W32);
    }
    n, t := |ItemsOf(w.p, w.pool0, k, i)|, Run(w, k, ItemsOf(w.p, w.pool0, k, i), m);
    RunInst(w, s, m, t);
    StoredMem(w, s, m, t, WriteMem(s.mem, a, inst.ty, x), a, SizeOf(inst.ty));
  }

  lemma NarrowStore(f: Fn, ty: Type, v: Value, at: Value, pool: word)
    requires Narrow(ty)
    ensures StoreItems(f, ty, v, at, pool) == [MovePart(f, EDX, at, 0), MovePart(f, EAX, v, 0), Ins(StoreOp(ty))]
  {
    hide MovePart;
  }

  /** Falling through after the same bytes have been written on both sides. */
  lemma StoredMem(w: World, s: IrState, m: State, t: State, prog: Mem, a: int, n: nat)
    requires Related(w, s, m) && Writable(w.p, s.stack, a, n) && t.State? && SameWrite(m.mem, t.mem, s.mem, prog, a, n)
    requires t.regs[EBP] == m.regs[EBP] && Saved(t) == Saved(m) && t.regs[ESP] == m.regs[ESP]
    requires s.stack.top.pc + 1 < |TopFn(w, s).body|
    requires Shaped(w.p) && t.eip == Pc(w, s.stack.top.fn, s.stack.top.pc + 1)
    ensures Related(w, Running(Cons(s.stack.top.(pc := s.stack.top.pc + 1), s.stack.rest), prog), t)
  {
    hide Related, WfFn, EnvOk, BoolsOk, Geo, WorldOk, Writable, SameWrite, Pc, StackOk, MemOk, PoolOk, FrameOk, Fp,
      Sp, Linked;
    RelatedTop(w, s, m);
    RelatedLinked(w, s, m);
    StoreKeeps(w, s, m, t.mem, prog, a, n);
    var fr, rest := s.stack.top, s.stack.rest;
    var fr' := fr.(pc := fr.pc + 1);
    ArrivedStack(w, fr, fr', rest, t.mem);
    ProgramKept(w, fr, fr', rest, prog, t.mem, t.mem);
    SameGeometry(w.p, fr, fr');
    MidFrom(w, fr', rest, prog, t);
    MidIsRelated(w, fr', rest, prog, t);
  }

  lemma SilentSim(w: World, s: IrState, m: State, s': IrState) returns (n: nat, t: State)
    requires Related(w, s, m) && (TopInst(w, s).Cast? || TopInst(w, s).Phi?) && Step(w.p, true, s) == Some(s')
    ensures Steps(w, n, m) == t && Related(w, s', t)
  {
    hide Related, WfFn, Read, EnvOk, BoolsOk, Geo, WorldOk, StackOk, MemOk, PoolOk, FrameOk, Linked, Mid;
    RelatedTop(w, s, m);
    RelatedIsMid(w, s, m);
    MidFacts(w, s.stack.top, s.stack.rest, s.mem, m);
    n, t := 0, m;
    if TopInst(w, s).Cast? {
      CastFrame(w, s.stack.top, m.mem, Read(w.p, s.stack.top.env, TopInst(w, s).a).value);
    } else {
      PhiFrame(w, s.stack.top, m.mem);
    }
    NoCode(w, s, m, s'.stack.top);
  }

  // ----- Branches -----

  lemma JumpItems(w: World, k: nat, i: nat)
    requires Shaped(w.p) && k < |w.p.fns| && i < |w.p.fns[k].body|
    ensures var f, inst := w.p.fns[k], w.p.fns[k].body[i];
      && (inst.Goto? ==> ItemsOf(w.p, w.pool0, k, i) == GotoItems(f, f.parent[i], inst.dest))
      && (inst.Branch? ==> ItemsOf(w.p, w.pool0, k, i) == BranchItems(f, f.parent[i], inst.c, inst.yes, inst.no))
      && (inst.Switch? ==> ItemsOf(w.p, w.pool0, k, i) == SwitchItems(f, f.parent[i], inst.ty, inst.c, inst.cases, inst.default))
  {
    hide GotoItems, BranchItems, SwitchItems, PoolIndex, OutSize;
  }

  /** A branch step lands at the start of the chosen block with the edge's environment. */
  lemma BranchStep(w: World, s: IrState, s': IrState) returns (e: Env, to: nat)
    requires Here(w, s) && (TopInst(w, s).Goto? || TopInst(w, s).Branch? || TopInst(w, s).Switch?)
    requires Step(w.p, true, s) == Some(s')
    ensures |TopFn(w, s).parent| == |TopFn(w, s).body| && to < |TopFn(w, s).starts|
    ensures StepBranch(w.p, true, TopFn(w, s), s.stack.top.pc, s.stack.top.env) == Some((e, to))
    ensures s' == Running(Cons(AtBlock(w, s.stack.top, to, e), s.stack.rest), s.mem)
  {
    hide StepBranch;
    e := StepBranch(w.p, true, TopFn(w, s), s.stack.top.pc, s.stack.top.env).value.0;
    to := StepBranch(w.p, true, TopFn(w, s), s.stack.top.pc, s.stack.top.env).value.1;
  }

  lemma BranchSim(w: World, s: IrState, m: State, s': IrState) returns (n: nat, t: State)
    requires Related(w, s, m) && (TopInst(w, s).Goto? || TopInst(w, s).Branch? || TopInst(w, s).Switch?)
    requires Step(w.p, true, s) == Some(s')
    ensures Steps(w, n, m) == t && Related(w, s', t)
  {
    hide Related, WfFn, Steps, ItemsOf, Read, Step, EnvOk, BoolsOk, Geo, WorldOk, WfValue, WfTarget, Edge,
      BranchEdge, SwitchEdge, Mid, ItemsAt, Size, GotoItems, BranchItems, SwitchItems, AtBlock;
    RelatedTop(w, s, m);
    RelatedIsMid(w, s, m);
    var e, to := BranchStep(w, s, s');
    var tail := InstHere(w, s, m);
    var fr, rest, f, i := s.stack.top, s.stack.rest, TopFn(w, s), s.stack.top.pc;
    JumpItems(w, fr.fn, i);
    match f.body[i] {
      case Goto(d) =>
        n, t := GotoRun(w, fr, rest, s.mem, f.parent[i], d, e, tail, m);
      case Branch(c, y, no) =>
        n, t := BranchRun(w, fr, rest, s.mem, f.parent[i], c, y, no, e, to, tail, m);
      case Switch(ty, c, cases, d) =>
        CasesSmall(f, i);
        n, t := SwitchRun(w, fr, rest, s.mem, f.parent[i], ty, c, cases, d, Read(w.p, fr.env, c).value, e, to, tail, m);
    }
  }

  lemma CasesSmall(f: Fn, i: nat)
    requires i < |f.body| == |f.parent| && f.body[i].Switch? && WfInst(f, i)
    ensures forall j | 0 <= j < |f.body[i].cases| :: f.body[i].cases[j].0 < W32
  {
    hide WfTarget, WfValue;
    ModulusSmall(f.body[i].ty);
  }

  lemma ModulusSmall(ty: Type)
    requires OneWord(ty)
    ensures ty.Modulus() <= W32
  {
  }

  // ----- Any step -----

  /** Every step of the checked program that stays running is matched by a run of the machine. */
  lemma StepSim(w: World, s: IrState, m: State, s': IrState) returns (n: nat, t: State)
    requires Related(w, s, m) && Step(w.p, true, s) == Some(s') && s'.Running?
    ensures Steps(w, n, m) == t && Related(w, s', t)
  {
    hide Related, Step, Steps;
    RelatedHere(w, s, m);
    match TopInst(w, s) {
      case Bin(_, _, _, _) => n, t := BinSim(w, s, m, s');
      case ICmp(_, _, _, _) => n, t := ICmpSim(w, s, m, s');
      case LoadMem(_, _) => n, t := LoadSim(w, s, m, s');
      case StoreMem(_, _, _) => n, t := StoreSim(w, s, m, s');
      case Ext(_, _, _, _) => n, t := ExtSim(w, s, m, s');
      case Cast(_, _, _) => n, t := SilentSim(w, s, m, s');
      case Phi(_, _) => n, t := SilentSim(w, s, m, s');
      case Select(_, _, _, _) => n, t := SelectSim(w, s, m, s');
      case Goto(_) => n, t := BranchSim(w, s, m, s');
      case Branch(_, _, _) => n, t := BranchSim(w, s, m, s');
      case Switch(_, _, _, _) => n, t := BranchSim(w, s, m, s');
      case Return(_) =>
        ReturnKeeps(w, s, s');
        n, t := ReturnSim(w, s, m, s');
      case CallFn(_, _, _) => n, t := CallSim(w, s, m, s');
      case Alloca(_) => n, t := AllocaSim(w, s, m, s');
      case Unreachable => NoUnreachable(w, s);
    }
  }

  lemma RelatedHere(w: World, s: IrState, m: State)
    requires Related(w, s, m)
    ensures Here(w, s) && m.State?
  {
    hide Linked, StackOk, MemOk, PoolOk, Pc;
  }

  /** Only a return from the outermost call ends the program. */
  lemma ReturnKeeps(w: World, s: IrState, s': IrState)
    requires Here(w, s) && Step(w.p, true, s) == Some(s')
    ensures s'.Done? <==> TopInst(w, s).Return? && s.stack.rest.Nil?
  {
    hide Read, Edge, BranchEdge, SwitchEdge, FindFn, EvalBin, EvalCmp, EvalExt, Drop, Kill, Define, ReadAll,
      Initialised, Writable;
  }

  lemma NoUnreachable(w: World, s: IrState)
    requires Here(w, s)
    ensures TopInst(w, s).Unreachable? ==> Step(w.p, true, s).None?
  {
  }

  /** The step that ends the program hands its result, its memory and the host's registers back. */
  lemma LastSim(w: World, s: IrState, m: State, s': IrState) returns (n: nat, t: State)
    requires Related(w, s, m) && Step(w.p, true, s) == Some(s') && s'.Done?
    ensures Here(w, s) && Steps(w, n, m) == t && HandedBack(w, s', s.stack.top, t)
  {
    hide Related, Step, Steps, HandedBack;
    RelatedHere(w, s, m);
    ReturnKeeps(w, s, s');
    n, t := ExitSim(w, s, m, s');
  }
}
