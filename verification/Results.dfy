/** Instructions that compute one result and fall through: their code refines their step. */
module Results {
  import opened Words
  import opened IrOps
  import opened Machine
  import opened Encoding
  import opened Ir
  import opened Codegen
  import opened Execution
  import opened Arithmetic
  import opened Relation
  import opened Frames
  import opened Placement
  import opened Operands

  lemma RelatedTop(w: World, s: IrState, m: State)
    requires Related(w, s, m)
    ensures Here(w, s) && WfFn(TopFn(w, s)) && WfInst(TopFn(w, s), s.stack.top.pc) && m.State?
    ensures m.regs[EBP] == Fp(w.p, s.stack.top) && m.regs[ESP] == Sp(w.p, s.stack.top) && Saved(m) == w.hostSaved
    ensures Geo(TopFn(w, s), m.regs[EBP])
    ensures EnvOk(w, TopFn(w, s), s.stack.top.env, m.mem, m.regs[EBP])
    ensures BoolsOk(w, TopFn(w, s), s.stack.top.env, m.mem, m.regs[EBP])
    ensures s.stack.top.lo <= s.stack.top.hi && 0 <= w.p.limit <= m.regs[ESP] - 8
    ensures Shaped(w.p) && WorldOk(w)
    ensures |w.p.plan| == |w.p.fns| && w.p.plan[s.stack.top.fn] == Plan(Vars(TopFn(w, s)), Out(TopFn(w, s)))
  {
    hide LabelsOk, CodeOk, Pc, ReturnAddr, EnvOk, BoolsOk, Vars, Out, WfInst, MemOk, PoolOk, Pool, ArgsSize;
    FrameGeo(w, s.stack, m.mem);
  }

  /** One straight-line instruction's code, run by the machine from its own address. */
  lemma RunInst(w: World, s: IrState, m: State, t: State)
    requires Related(w, s, m)
    requires var items := ItemsOf(w.p, w.pool0, s.stack.top.fn, s.stack.top.pc);
      AllStraight(items) && t.State? && t == Run(w, s.stack.top.fn, items, m)
    ensures Steps(w, |ItemsOf(w.p, w.pool0, s.stack.top.fn, s.stack.top.pc)|, m) == t
    ensures t.eip == Pc(w, s.stack.top.fn, s.stack.top.pc + 1)
  {
    hide LabelsOk, CodeOk, Pc, StackOk, WfInst, MemOk, PoolOk, DataOk, PlanOk, InstItems, ItemsAt, Run,
      AllStraight, Steps, WorldOk, Size, ItemsOf;
    var rest := InstAt(w, s.stack.top.fn, s.stack.top.pc);
    RunIsSteps(w, s.stack.top.fn, ItemsOf(w.p, w.pool0, s.stack.top.fn, s.stack.top.pc), rest, m);
  }

  /** The code of the current instruction is under the machine's program counter. */
  lemma InstHere(w: World, s: IrState, m: State) returns (rest: seq<Item>)
    requires Related(w, s, m)
    ensures var items := ItemsOf(w.p, w.pool0, s.stack.top.fn, s.stack.top.pc);
      ItemsAt(w, s.stack.top.fn, items + rest, m.eip) && m.eip >= 0
      && Pc(w, s.stack.top.fn, s.stack.top.pc + 1) == m.eip + Size(items)
  {
    hide StackOk, MemOk, PoolOk, DataOk, LabelsOk, CodeOk, PlanOk, WorldOk, ItemsAt, Pc, Size, Fp, Sp, ItemsOf;
    rest := InstAt(w, s.stack.top.fn, s.stack.top.pc);
  }

  /** What running the code of a result-producing instruction must achieve. */
  ghost predicate Delivers(w: World, s: IrState, m: State, t: State, v: nat)
    requires Here(w, s) && m.State?
  {
    var fr := s.stack.top;
    && fr.pc + 1 < |TopFn(w, s).body| && TopInst(w, s).HasResult() && !TopInst(w, s).Cast?
    && t.State? && t.regs[EBP] == m.regs[EBP] && Saved(t) == Saved(m) && t.regs[ESP] == m.regs[ESP]
    && OnlySlot(w, fr, fr.pc, m.mem, t.mem)
    && var bits := SlotBits(TopFn(w, s), t.mem, m.regs[EBP], Res(fr.pc));
       v == bits % TopInst(w, s).ResultType().Modulus() && (fr.pc in TopFn(w, s).bools ==> bits % W8 < 2)
  }

  function AfterResult(w: World, s: IrState, v: nat): IrState
    requires Here(w, s)
  {
    Running(Cons(Stored(w, s.stack.top, v), s.stack.rest), s.mem)
  }

  /** Reaching the next instruction's address with the result delivered restores the relation. */
  lemma Landed(w: World, s: IrState, m: State, t: State, v: nat)
    requires Related(w, s, m) && Delivers(w, s, m, t, v)
    requires t.eip == Pc(w, s.stack.top.fn, s.stack.top.pc + 1)
    ensures Related(w, AfterResult(w, s, v), t)
  {
    hide LabelsOk, CodeOk, Pc, StackOk, WfInst, MemOk, PoolOk, DataOk, PlanOk, WorldOk, SlotBits, OnlySlot;
    StoredStack(w, s.stack.top, s.stack.rest, s.mem, m.mem, t.mem, v);
  }

  lemma Finish(w: World, s: IrState, m: State, t: State, v: nat)
    requires Related(w, s, m)
    requires var items := ItemsOf(w.p, w.pool0, s.stack.top.fn, s.stack.top.pc);
      AllStraight(items) && t == Run(w, s.stack.top.fn, items, m)
    requires Delivers(w, s, m, t, v)
    ensures Steps(w, |ItemsOf(w.p, w.pool0, s.stack.top.fn, s.stack.top.pc)|, m) == t
    ensures Related(w, AfterResult(w, s, v), t)
  {
    hide Related, Delivers, Pc, Run, AllStraight, Steps, ItemsOf, AfterResult;
    RelatedTop(w, s, m);
    DeliversState(w, s, m, t, v);
    RunInst(w, s, m, t);
    Landed(w, s, m, t, v);
  }

  lemma DeliversState(w: World, s: IrState, m: State, t: State, v: nat)
    requires Here(w, s) && m.State? && Delivers(w, s, m, t, v)
    ensures t.State?
  {
  }

  // ----- Common endings and beginnings -----

  /** Spilling a register whose low bits are the result delivers it. */
  lemma SpillDelivers(w: World, s: IrState, m: State, u: State, reg: Reg, v: nat)
    requires Here(w, s)
    requires s.stack.top.pc + 1 < |TopFn(w, s).body| && OneWord(TopInst(w, s).ResultType())
    requires TopInst(w, s).HasResult() && !TopInst(w, s).Cast?
    requires Kept(m, u) && m.regs[EBP] == Fp(w.p, s.stack.top) && Geo(TopFn(w, s), m.regs[EBP])
    requires u.regs[reg] % TopInst(w, s).ResultType().Modulus() == v
    requires s.stack.top.pc in TopFn(w, s).bools ==> u.regs[reg] % W8 < 2
    ensures Delivers(w, s, m, ExecItem(w, s.stack.top.fn, Spill(TopFn(w, s), reg, s.stack.top.pc, 0), u), v)
  {
    hide SlotOf, ExecItem, Vars, Read32, Read64, Write32;
    var f, i := TopFn(w, s), s.stack.top.pc;
    SpillExec(w, s.stack.top.fn, f, reg, i, 0, u);
    ReadWrite32(m.mem, m.regs[EBP] + SlotOf(f, Res(i)), u.regs[reg]);
  }

  /** Two one-word operands loaded into two registers. */
  lemma TwoOperands(w: World, k: nat, f: Fn, r1: Reg, a: Value, r2: Reg, b: Value, ty: Type, s: State)
    requires WfFn(f) && WfValue(f, a, ty) && WfValue(f, b, ty) && s.State? && Geo(f, s.regs[EBP])
    requires r1 < 3 && r2 < 3
    ensures var t := Run(w, k, [MovePart(f, r1, a, 0), MovePart(f, r2, b, 0)], s);
      && Kept(s, t)
      && t.regs == s.regs[r1 := Part(Raw(w, f, s.mem, s.regs[EBP], a), 0)]
                         [r2 := Part(Raw(w, f, s.mem, s.regs[EBP], b), 0)]
  {
    hide MovePart, Raw, ExecItem, WfFn, WfValue, Run, ItemSize, Part;
    var x, y := MovePart(f, r1, a, 0), MovePart(f, r2, b, 0);
    assert [x, y] == [x] + [y];
    OneOperand(w, k, f, r1, a, ty, s);
    RunAppend(w, k, [x], [y], s);
    OneOperand(w, k, f, r2, b, ty, Run(w, k, [x], s));
  }

  lemma OneOperand(w: World, k: nat, f: Fn, r: Reg, a: Value, ty: Type, s: State)
    requires WfFn(f) && WfValue(f, a, ty) && s.State? && Geo(f, s.regs[EBP]) && r < 3
    ensures var t := Run(w, k, [MovePart(f, r, a, 0)], s);
      Kept(s, t) && t.regs == s.regs[r := Part(Raw(w, f, s.mem, s.regs[EBP], a), 0)]
  {
    hide MovePart, Raw, ExecItem, WfFn, WfValue, Run, ItemSize, Part;
    var x := MovePart(f, r, a, 0);
    RunOne(w, k, x, s);
    MoveExec(w, k, f, r, a, ty, 0, s.(eip := s.eip + ItemSize(x)));
  }

  lemma MoveStraight(f: Fn, reg: Reg, v: Value, part: nat)
    ensures Straight(MovePart(f, reg, v, part))
  {
  }

  lemma StraightAppend(a: seq<Item>, b: seq<Item>)
    requires AllStraight(a) && AllStraight(b)
    ensures AllStraight(a + b)
  {
  }

  /** Run a + [spill] when the run of a is known. */
  lemma ThenSpill(w: World, s: IrState, m: State, pre: seq<Item>, reg: Reg, v: nat)
    requires Here(w, s)
    requires s.stack.top.pc + 1 < |TopFn(w, s).body| && OneWord(TopInst(w, s).ResultType())
    requires TopInst(w, s).HasResult() && !TopInst(w, s).Cast?
    requires var u := Run(w, s.stack.top.fn, pre, m);
      && Kept(m, u)
      && u.regs[reg] % TopInst(w, s).ResultType().Modulus() == v
      && (s.stack.top.pc in TopFn(w, s).bools ==> u.regs[reg] % W8 < 2)
    requires m.regs[EBP] == Fp(w.p, s.stack.top) && Geo(TopFn(w, s), m.regs[EBP])
    ensures Delivers(w, s, m, Run(w, s.stack.top.fn, pre + [Spill(TopFn(w, s), reg, s.stack.top.pc, 0)], m), v)
  {
    hide Run, ExecItem, Delivers, Geo, Spill, ItemSize;
    var k, it := s.stack.top.fn, Spill(TopFn(w, s), reg, s.stack.top.pc, 0);
    var u := Run(w, k, pre, m);
    RunThen(w, k, pre, it, m);
    SpillDelivers(w, s, m, u.(eip := u.eip + ItemSize(it)), reg, v);
  }

  // ----- Arithmetic and comparison -----

  lemma BinRun(w: World, s: IrState, m: State, op: BinOp, ty: Type, a: Value, b: Value, v: nat)
    requires Related(w, s, m)
    requires TopInst(w, s) == Bin(op, ty, a, b) && OneWord(ty)
    requires var env := s.stack.top.env;
      && Read(w.p, env, a).Some? && Read(w.p, env, b).Some?
      && EvalBin(op, ty, Read(w.p, env, a).value, Read(w.p, env, b).value) == Some(v)
    ensures Delivers(w, s, m, Run(w, s.stack.top.fn,
              [MovePart(TopFn(w, s), EAX, a, 0), MovePart(TopFn(w, s), ECX, b, 0)] + OpItems(op, ty.Bits())
              + [Spill(TopFn(w, s), ResultReg(op), s.stack.top.pc, 0)], m), v)
  {
    hide Run, ExecItem, Delivers, Spill, MovePart, Related, Raw, OpItems, EvalBin, Part, WfFn, Geo, EnvOk, BoolsOk;
    RelatedTop(w, s, m);
    var f, k, i := TopFn(w, s), s.stack.top.fn, s.stack.top.pc;
    var ops := [MovePart(f, EAX, a, 0), MovePart(f, ECX, b, 0)];
    TwoOperands(w, k, f, EAX, a, ECX, b, ty, m);
    var u := Run(w, k, ops, m);
    ReadIsRaw(w, f, s.stack.top.env, m.mem, m.regs[EBP], a, ty);
    ReadIsRaw(w, f, s.stack.top.env, m.mem, m.regs[EBP], b, ty);
    OpCorrect(w, k, op, ty, u);
    RunAppend(w, k, ops, OpItems(op, ty.Bits()), m);
    if i in f.bools {
      WfFnBool(f, i);
      BoolInput(w, s, m, a);
      BoolInput(w, s, m, b);
      LogicKeepsBool(w, k, op, u);
    }
    ThenSpill(w, s, m, ops + OpItems(op, ty.Bits()), ResultReg(op), v);
  }

  lemma WfFnBool(f: Fn, i: nat)
    requires WfFn(f) && i in f.bools
    ensures WfBool(f, i)
  {
    hide WfBool, WfInst;
  }

  /** A value in the boolean class is loaded with a low byte of 0 or 1. */
  lemma BoolInput(w: World, s: IrState, m: State, v: Value)
    requires Related(w, s, m)
    requires IsBool(TopFn(w, s), v) && WfValue(TopFn(w, s), v, TypeOf(TopFn(w, s), v))
    requires Read(w.p, s.stack.top.env, v).Some?
    ensures Part(Raw(w, TopFn(w, s), m.mem, m.regs[EBP], v), 0) % W8 < 2
  {
    hide Related, WfFn, SlotBits;
    RelatedTop(w, s, m);
    NarrowTwice(Raw(w, TopFn(w, s), m.mem, m.regs[EBP], v), I32, I8);
  }

  lemma ICmpRun(w: World, s: IrState, m: State, p: Pred, ty: Type, a: Value, b: Value, v: nat)
    requires Related(w, s, m) && TopInst(w, s) == ICmp(p, ty, a, b) && OneWord(ty)
    requires var env := s.stack.top.env;
      && Read(w.p, env, a).Some? && Read(w.p, env, b).Some?
      && v == if EvalCmp(p, ty, Read(w.p, env, a).value, Read(w.p, env, b).value) then 1 else 0
    ensures Delivers(w, s, m, Run(w, s.stack.top.fn,
        [MovePart(TopFn(w, s), ECX, a, 0), MovePart(TopFn(w, s), EAX, b, 0)] + CompareItems(p, ty.Bits())
        + [Spill(TopFn(w, s), EDX, s.stack.top.pc, 0)], m), v)
  {
    hide Run, ExecItem, Delivers, Spill, MovePart, Related, Raw, CompareItems, EvalCmp, Part, WfFn, Geo, EnvOk,
      BoolsOk;
    RelatedTop(w, s, m);
    var f, k := TopFn(w, s), s.stack.top.fn;
    var ops := [MovePart(f, ECX, a, 0), MovePart(f, EAX, b, 0)];
    TwoOperands(w, k, f, ECX, a, EAX, b, ty, m);
    var u := Run(w, k, ops, m);
    ReadIsRaw(w, f, s.stack.top.env, m.mem, m.regs[EBP], a, ty);
    ReadIsRaw(w, f, s.stack.top.env, m.mem, m.regs[EBP], b, ty);
    CompareCorrect(w, k, p, ty, u);
    RunAppend(w, k, ops, CompareItems(p, ty.Bits()), m);
    NarrowTwice(Run(w, k, CompareItems(p, ty.Bits()), u).regs[EDX], I8, I1);
    ThenSpill(w, s, m, ops + CompareItems(p, ty.Bits()), EDX, v);
  }

  /** The value of an extension read from the extended register. */
  lemma ExtendedIsExt(sign: bool, from: Type, to: Type, x: word)
    requires OneWord(from) && OneWord(to)
    ensures Extended(from, sign, x) % to.Modulus() == EvalExt(sign, from, to, x % from.Modulus())
  {
    if sign {
      NarrowWord(Signed(from.Modulus(), x % from.Modulus()), to);
    }
  }

  lemma ExtRun(w: World, s: IrState, m: State, sign: bool, from: Type, to: Type, a: Value)
    requires Related(w, s, m) && TopInst(w, s) == Ext(sign, from, to, a) && OneWord(to)
    requires Read(w.p, s.stack.top.env, a).Some?
    ensures Delivers(w, s, m, Run(w, s.stack.top.fn,
        [MovePart(TopFn(w, s), EAX, a, 0)] + Extend(EAX, sign, from.Bits()) + [Spill(TopFn(w, s), EAX, s.stack.top.pc, 0)], m),
        EvalExt(sign, from, to, Read(w.p, s.stack.top.env, a).value))
  {
    hide Run, ExecItem, Delivers, Spill, MovePart, Related, Raw, Extend, Extended, EvalExt, Part, WfFn, Geo, EnvOk,
      BoolsOk;
    RelatedTop(w, s, m);
    var f, k := TopFn(w, s), s.stack.top.fn;
    var pre := [MovePart(f, EAX, a, 0)];
    OneOperand(w, k, f, EAX, a, from, m);
    var u := Run(w, k, pre, m);
    ReadIsRaw(w, f, s.stack.top.env, m.mem, m.regs[EBP], a, from);
    ExtendCorrect(w, k, EAX, sign, from, u);
    RunAppend(w, k, pre, Extend(EAX, sign, from.Bits()), m);
    ExtendedIsExt(sign, from, to, u.regs[EAX]);
    if s.stack.top.pc in f.bools {
      WfFnBool(f, s.stack.top.pc);
      assert false;
    }
    ThenSpill(w, s, m, pre + Extend(EAX, sign, from.Bits()), EAX, EvalExt(sign, from, to, Read(w.p, s.stack.top.env, a).value));
  }
}
