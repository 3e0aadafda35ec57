/** 64-bit stores, and arithmetic and comparison through the runtime helpers. */
module Helpers {
  import opened Words
  import opened IrOps
  import opened Machine
  import opened Encoding
  import opened Ir
  import opened Codegen
  import opened Execution
  import opened Arithmetic
  import opened Relation
  import opened Frames
  import opened Placement
  import opened Operands
  import opened Results
  import opened MemoryOps
  import opened Wide

  // ----- 64-bit stores -----

  lemma WriteSameWide(m: Mem, q: Mem, a: int, x: nat)
    requires x < W64 && forall b | b in q :: Byte(m, b) == q[b]
    ensures SameWrite(m, Write32(Write32(m, a, x % W32), a + 4, x / W32), q, WriteMem(q, a, I64, x), a, 8)
  {
    var lo: word, hi: word := x % W32, x / W32;
    WordsAreSmall(hi);
    WriteSame(m, q, a, I32, lo, lo);
    var m1, q1 := Write32(m, a, lo), Write32(q, a, lo);
    hide Write32, Write16;
    WriteSame(m1, q1, a + 4, I32, hi, hi);
    assert WriteMem(q, a, I64, x) == Write32(q1, a + 4, hi);
  }

  /** A private or pooled cell does not overlap program objects. */
  lemma CellApart(w: World, s: IrState, m: State, v: Value, pool: int, a: int)
    requires Related(w, s, m) && WfValue(TopFn(w, s), v, I64) && Writable(w.p, s.stack, a, 8)
    requires PoolOf(TopFn(w, s), v) != [] ==> w.pool0 <= pool && pool + 8 <= w.pool0 + 8 * |Pool(w.p)|
    ensures var src := AddrOf(TopFn(w, s), m.regs[EBP], v, pool); src + 8 <= a || a + 8 <= src
  {
    hide Linked, PoolOk, Pc, SlotOf, Vars, EnvOk, BoolsOk, WfFn, WfInst, StackOk, MemOk, DataOk, ValidByte, Pool;
    RelatedTop(w, s, m);
    LinkedData(w);
    var fr, f := s.stack.top, TopFn(w, s);
    var src := AddrOf(f, m.regs[EBP], v, pool);
    RootWf(f, v, I64);
    if src < a + 8 && a < src + 8 {
      var b := if src <= a then a else src;
      assert ValidByte(w.p, s.stack, b);
      match Root(f, v) {
        case Const(_, _) => PoolNotProgram(w, s.stack, m.mem, b);
        case Use(r) =>
          SlotBounds(f, r);
          assert InPrivate(w.p, s.stack, b);
          PrivateApart(w, s.stack, m.mem, b);
      }
      assert false;
    }
  }

  /** Address of a 64-bit operand into a register. */
  lemma AddrRun(w: World, k: nat, f: Fn, reg: Reg, v: Value, pool: word, u: State)
    requires WfFn(f) && WfValue(f, v, I64) && u.State? && Geo(f, u.regs[EBP]) && reg < 3
    ensures var t := Run(w, k, [AddrToReg(f, reg, v, pool)], u);
      && Kept(u, t) && 0 <= AddrOf(f, u.regs[EBP], v, pool) < W32
      && t.regs == u.regs[reg := AddrOf(f, u.regs[EBP], v, pool)]
  {
    hide Run, ExecItem, AddrToReg, AddrOf, ItemSize, WfFn;
    var it := AddrToReg(f, reg, v, pool);
    RunOne(w, k, it, u);
    AddrExec(w, k, f, reg, v, pool, u.(eip := u.eip + ItemSize(it)));
  }

  /** Where the current instruction's pooled constants are, as a machine word. */
  lemma PoolWord(w: World, s: IrState, m: State)
    requires Related(w, s, m) && InstPool(TopFn(w, s), s.stack.top.pc) != []
    ensures var pa, n := PoolAddr(w, s.stack.top.fn, s.stack.top.pc), |InstPool(TopFn(w, s), s.stack.top.pc)|;
      && pa % W32 == pa && w.pool0 <= pa && pa + 8 * n <= w.pool0 + 8 * |Pool(w.p)| && pa + 8 * n <= W32
  {
    hide StackOk, MemOk, LabelsOk, CodeOk, PlanOk, WorldOk, Pc, Fp, Sp, InstPool, WfFn, Pool, PoolIndex;
    PoolSlice(w.p, s.stack.top.fn, s.stack.top.pc);
    WordsAreSmall(PoolAddr(w, s.stack.top.fn, s.stack.top.pc));
  }

  lemma StoreWideRun(w: World, s: IrState, m: State, v: Value, at: Value)
    requires Related(w, s, m) && TopInst(w, s) == StoreMem(I64, v, at)
    requires Read(w.p, s.stack.top.env, at).Some? && Read(w.p, s.stack.top.env, v).Some?
    requires Writable(w.p, s.stack, Read(w.p, s.stack.top.env, at).value, 8)
    ensures StoreDone(s, m,
      Run(w, s.stack.top.fn, StoreItems(TopFn(w, s), I64, v, at, PoolAddr(w, s.stack.top.fn, s.stack.top.pc) % W32), m),
      I64, Read(w.p, s.stack.top.env, at).value, Read(w.p, s.stack.top.env, v).value)
  {
    hide Run, ExecItem, MovePart, Related, Raw, WfFn, Geo, EnvOk, BoolsOk, Part, AddrToReg, AddrOf, COPY64,
      SameWrite, WriteMem, Writable, Write32, Read32, Read64, PoolAddr, Cell;
    RelatedTop(w, s, m);
    var f, k := TopFn(w, s), s.stack.top.fn;
    var a, x := Read(w.p, s.stack.top.env, at).value, Read(w.p, s.stack.top.env, v).value;
    var pa := PoolAddr(w, k, s.stack.top.pc);
    var one, two := [MovePart(f, EDX, at, 0)], [AddrToReg(f, EAX, v, pa % W32)];
    assert InstPool(f, s.stack.top.pc) == PoolOf(f, v);
    OneOperand(w, k, f, EDX, at, Ptr, m);
    var u := Run(w, k, one, m);
    AddrRun(w, k, f, EAX, v, pa % W32, u);
    RunAppend(w, k, one, two, m);
    var u2 := Run(w, k, one + two, m);
    ReadIsRaw(w, f, s.stack.top.env, m.mem, m.regs[EBP], at, Ptr);
    ReadIsRaw(w, f, s.stack.top.env, m.mem, m.regs[EBP], v, I64);
    WordsAreSmall(u.regs[EDX]);
    WritableRange(w, s, m, a, 8);
    var src := StoreSource(w, s, m, v, a);
    CopyRun(w, k, u2);
    RunAppend(w, k, one + two, COPY64, m);
    assert one + two + COPY64 == StoreItems(f, I64, v, at, pa % W32);
    Halves(m.mem, src);
    WideIsSmall(m.mem, src);
    ProgramAgrees(w, s, m);
    WriteSameWide(m.mem, s.mem, a, x);
  }

  /** The stored operand's cell, apart from the destination. */
  lemma StoreSource(w: World, s: IrState, m: State, v: Value, a: int) returns (src: int)
    requires Related(w, s, m) && InstPool(TopFn(w, s), s.stack.top.pc) == PoolOf(TopFn(w, s), v)
    requires WfValue(TopFn(w, s), v, I64) && Writable(w.p, s.stack, a, 8)
    ensures src == AddrOf(TopFn(w, s), m.regs[EBP], v, PoolAddr(w, s.stack.top.fn, s.stack.top.pc) % W32)
    ensures 0 <= src && src + 8 <= W32 && (src + 8 <= a || a + 8 <= src)
    ensures Read64(m.mem, src) == Raw(w, TopFn(w, s), m.mem, m.regs[EBP], v)
  {
    hide Related, Raw, WfFn, PoolAddr, Writable, Read64, Pool, WfValue;
    RelatedTop(w, s, m);
    var f, pa := TopFn(w, s), PoolAddr(w, s.stack.top.fn, s.stack.top.pc);
    PoolHere(w, s, m);
    if PoolOf(f, v) != [] {
      PoolWord(w, s, m);
    }
    OperandCell(w, s, m, v, pa % W32);
    CellApart(w, s, m, v, pa % W32, a);
    src := AddrOf(f, m.regs[EBP], v, pa % W32);
  }

  // ----- Passing operand addresses -----

  lemma PassAddrRun(w: World, k: nat, f: Fn, v: Value, pool: word, off: word, u: State)
    requires WfFn(f) && WfValue(f, v, I64) && u.State? && Geo(f, u.regs[EBP])
    requires u.regs[ESP] as int + off + 4 <= W32
    ensures var t := Run(w, k, PassAddr(f, v, pool, off), u);
      && t.State? && t.regs[EBP] == u.regs[EBP] && Saved(t) == Saved(u) && t.regs[ESP] == u.regs[ESP]
      && 0 <= AddrOf(f, u.regs[EBP], v, pool) < W32
      && t.mem == Write32(u.mem, u.regs[ESP] as int + off, AddrOf(f, u.regs[EBP], v, pool))
    ensures AllStraight(PassAddr(f, v, pool, off))
  {
    hide Run, ExecItem, AddrOf, ItemSize, WfFn, Write32, WfValue, Geo;
    var a, b := AddrToReg(f, EAX, v, pool), Ins(StoreEsp(EAX, off));
    AddrRun(w, k, f, EAX, v, pool, u);
    var u1 := Run(w, k, [a], u);
    RunThen(w, k, [a], b, u);
    WordsAreSmall(off);
    StoreEspExec(w, k, EAX, off, u1.(eip := u1.eip + ItemSize(b)));
    assert [a] + [b] == PassAddr(f, v, pool, off);
  }

  /** Three words on top of the outgoing area. */
  function Passed(m: Mem, esp: int, x: word, y: word, z: word): Mem {
    Write32(Write32(Write32(m, esp, x), esp + 4, y), esp + 8, z)
  }

  lemma PassedReads(m: Mem, esp: int, x: word, y: word, z: word)
    ensures var p := Passed(m, esp, x, y, z);
      && Read32(p, esp) == x && Read32(p, esp + 4) == y && Read32(p, esp + 8) == z
      && forall a | a < esp || esp + 12 <= a :: Byte(p, a) == Byte(m, a)
  {
    hide Write32, Read32;
    var m1 := Write32(m, esp, x);
    var m2 := Write32(m1, esp + 4, y);
    var m3 := Write32(m2, esp + 8, z);
    ReadWrite32(m, esp, x);
    ReadWrite32(m1, esp + 4, y);
    ReadWrite32(m2, esp + 8, z);
    ReadSame(m1, m3, esp, 4);
    ReadSame(m2, m3, esp + 4, 4);
  }

  /** An arithmetic helper, called with result and operand pointers passed, stores the result in
      its cell and otherwise changes scratch memory and caller-saved registers only. */
  lemma HelperArith(w: World, k: nat, op: BinOp, u: State, x: word, y: word, z: word, a: nat, b: nat, v: nat, lo: int)
    requires u.State? && 0 <= w.p.limit <= u.regs[ESP] && u.regs[ESP] as int + 12 <= lo <= W32
    requires Read32(u.mem, u.regs[ESP]) == x && Read32(u.mem, u.regs[ESP] + 4) == y && Read32(u.mem, u.regs[ESP] + 8) == z
    requires x + 8 <= W32 && y + 8 <= W32 && z + 8 <= W32 && (x + 8 <= w.p.limit || lo <= x)
    requires Read64(u.mem, y) == a && Read64(u.mem, z) == b && a < W64 && b < W64 && EvalBin(op, I64, a, b) == Some(v)
    ensures var t := ExecItem(w, k, CallHelper(HArith(op)), u);
      && t.State? && t.regs[EBP] == u.regs[EBP] && Saved(t) == Saved(u) && t.regs[ESP] == u.regs[ESP]
      && Read64(t.mem, x) == v < W64
      && forall c | !(x <= c < x + 8) && !(w.p.limit <= c < lo) :: Byte(t.mem, c) == Byte(u.mem, c)
  {
    hide Read32, Read64, Write64, EvalBin, HelperValue;
    HelperIsIr(op, a, b);
    var sm := Scribble(u.mem, w.scratch, w.p.limit, u.regs[ESP] as int + 12);
    assert HelperValue(op, a, b) == Some(v);
    ReadWrite64(sm, x, v);
  }

  lemma HelperComparison(w: World, k: nat, p: Pred, u: State, x: word, y: word, a: nat, b: nat, lo: int)
    requires u.State? && 0 <= w.p.limit <= u.regs[ESP] && u.regs[ESP] as int + 12 <= lo <= W32
    requires Read32(u.mem, u.regs[ESP]) == x && Read32(u.mem, u.regs[ESP] + 4) == y
    requires x + 8 <= W32 && y + 8 <= W32 && Read64(u.mem, x) == a && Read64(u.mem, y) == b && a < W64 && b < W64
    ensures var t := ExecItem(w, k, CallHelper(HCompare(p)), u);
      && t.State? && t.regs[EBP] == u.regs[EBP] && Saved(t) == Saved(u) && t.regs[ESP] == u.regs[ESP]
      && t.regs[EAX] == (if EvalCmp(p, I64, a, b) then 1 else 0)
      && forall c | !(w.p.limit <= c < lo) :: Byte(t.mem, c) == Byte(u.mem, c)
  {
    hide Read32, Read64, EvalCmp, HelperTest;
    HelperTestIsIr(p, a, b);
  }

  /** The cells of both operands of a 64-bit operation. */
  lemma BothCells(w: World, s: IrState, m: State, a: Value, b: Value)
    requires Related(w, s, m) && WfValue(TopFn(w, s), a, I64) && WfValue(TopFn(w, s), b, I64)
    requires InstPool(TopFn(w, s), s.stack.top.pc) == PoolOf(TopFn(w, s), a) + PoolOf(TopFn(w, s), b)
    ensures var f, fp, pa := TopFn(w, s), m.regs[EBP], PoolAddr(w, s.stack.top.fn, s.stack.top.pc) % W32;
      && Raw(w, f, m.mem, fp, a) < W64 && Raw(w, f, m.mem, fp, b) < W64
      && Cell(w, s.stack.top, m.mem, AddrOf(f, fp, a, pa), Raw(w, f, m.mem, fp, a))
      && Cell(w, s.stack.top, m.mem, AddrOf(f, fp, b, NextPool(f, a, pa)), Raw(w, f, m.mem, fp, b))
  {
    hide Related, Raw, WfFn, PoolAddr, Read64, Pool, WfValue, Cell, AddrOf, PoolOf;
    RelatedTop(w, s, m);
    var f, pa, pool := TopFn(w, s), PoolAddr(w, s.stack.top.fn, s.stack.top.pc), InstPool(TopFn(w, s), s.stack.top.pc);
    PoolHere(w, s, m);
    if pool != [] {
      PoolWord(w, s, m);
    }
    forall j | 0 <= j < |PoolOf(f, a)| ensures Cell(w, s.stack.top, m.mem, pa % W32 + 8 * j, PoolOf(f, a)[j]) {
      assert pool[j] == PoolOf(f, a)[j];
    }
    OperandCell(w, s, m, a, pa % W32);
    forall j | 0 <= j < |PoolOf(f, b)|
      ensures Cell(w, s.stack.top, m.mem, NextPool(f, a, pa % W32) + 8 * j, PoolOf(f, b)[j])
    {
      assert pool[|PoolOf(f, a)| + j] == PoolOf(f, b)[j];
      WordsAreSmall(pa + 8 * |PoolOf(f, a)|);
      assert pa + 8 * (|PoolOf(f, a)| + j) == pa + 8 * |PoolOf(f, a)| + 8 * j;
    }
    OperandCell(w, s, m, b, NextPool(f, a, pa % W32));
  }

  lemma PassTwo(w: World, k: nat, f: Fn, a: Value, pa: word, b: Value, pb: word, u: State)
    requires WfFn(f) && WfValue(f, a, I64) && WfValue(f, b, I64) && u.State? && Geo(f, u.regs[EBP])
    requires u.regs[ESP] as int + 8 <= W32
    ensures var t := Run(w, k, PassAddr(f, a, pa, 0) + PassAddr(f, b, pb, 4), u);
      var x, y, esp := AddrOf(f, u.regs[EBP], a, pa), AddrOf(f, u.regs[EBP], b, pb), u.regs[ESP];
      && t.State? && t.regs[EBP] == u.regs[EBP] && Saved(t) == Saved(u) && t.regs[ESP] == esp && 0 <= x < W32 && 0 <= y < W32
      && t.mem == Write32(Write32(u.mem, esp, x), esp as int + 4, y)
    ensures AllStraight(PassAddr(f, a, pa, 0) + PassAddr(f, b, pb, 4))
  {
    hide Run, AddrOf, WfFn, Write32, WfValue, Geo, PassAddr, Straight;
    PassAddrRun(w, k, f, a, pa, 0, u);
    PassAddrRun(w, k, f, b, pb, 4, Run(w, k, PassAddr(f, a, pa, 0), u));
    RunAppend(w, k, PassAddr(f, a, pa, 0), PassAddr(f, b, pb, 4), u);
  }

  lemma PassThree(w: World, k: nat, f: Fn, r: Value, pr: word, a: Value, pa: word, b: Value, pb: word, u: State)
    requires WfFn(f) && WfValue(f, r, I64) && WfValue(f, a, I64) && WfValue(f, b, I64) && u.State? && Geo(f, u.regs[EBP])
    requires u.regs[ESP] as int + 12 <= W32
    ensures var t := Run(w, k, PassAddr(f, r, pr, 0) + PassAddr(f, a, pa, 4) + PassAddr(f, b, pb, 8), u);
      var fp := u.regs[EBP];
      var x, y, z := AddrOf(f, fp, r, pr), AddrOf(f, fp, a, pa), AddrOf(f, fp, b, pb);
      && t.State? && t.regs[EBP] == u.regs[EBP] && Saved(t) == Saved(u) && t.regs[ESP] == u.regs[ESP]
      && 0 <= x < W32 && 0 <= y < W32 && 0 <= z < W32 && t.mem == Passed(u.mem, u.regs[ESP], x, y, z)
    ensures AllStraight(PassAddr(f, r, pr, 0) + PassAddr(f, a, pa, 4) + PassAddr(f, b, pb, 8))
  {
    hide Run, AddrOf, WfFn, Write32, WfValue, Geo, PassAddr, Straight;
    var two := PassAddr(f, r, pr, 0) + PassAddr(f, a, pa, 4);
    PassTwo(w, k, f, r, pr, a, pa, u);
    PassAddrRun(w, k, f, b, pb, 8, Run(w, k, two, u));
    RunAppend(w, k, two, PassAddr(f, b, pb, 8), u);
  }

  /** The stack area a helper uses lies inside the outgoing-argument area. */
  lemma HelperRoom(w: World, s: IrState, m: State)
    requires Related(w, s, m)
    ensures 0 <= w.p.limit <= m.regs[ESP] && m.regs[ESP] as int + 12 <= s.stack.top.lo <= W32
  {
    hide Related;
    RelatedTop(w, s, m);
    FrameBelowTop(w, s, m);
    TopInSpace(w, s, m);
  }

  lemma TopInSpace(w: World, s: IrState, m: State)
    requires Related(w, s, m)
    ensures w.top <= W32 && m.regs[ESP] == Sp(w.p, s.stack.top)
  {
    hide StackOk, MemOk, PoolOk, LabelsOk, CodeOk, WorldOk, PlanOk, Pc, WfFn, Pool;
  }

  predicate Wide64(inst: Inst) {
    (inst.Bin? || inst.ICmp?) && inst.ty.I64?
  }

  lemma BinWideRun(w: World, s: IrState, m: State, op: BinOp, a: Value, b: Value, v: nat)
    requires Related(w, s, m) && TopInst(w, s) == Bin(op, I64, a, b)
    requires var env := s.stack.top.env;
      && Read(w.p, env, a).Some? && Read(w.p, env, b).Some?
      && EvalBin(op, I64, Read(w.p, env, a).value, Read(w.p, env, b).value) == Some(v)
    ensures Delivers(w, s, m, Run(w, s.stack.top.fn, BinItems(TopFn(w, s), s.stack.top.pc, op, I64, a, b,
              PoolAddr(w, s.stack.top.fn, s.stack.top.pc) % W32), m), v)
  {
    hide Run, ExecItem, Related, Raw, WfFn, WfValue, EnvOk, BoolsOk, PassAddr, AddrOf, EvalBin, Read32, Read64,
      Passed, PoolAddr, NextPool, SlotOf, Cell, PoolOf, Root, PoolOk, MemOk, StackOk;
    RelatedTop(w, s, m);
    HelperRoom(w, s, m);
    var f, k, i, fp, esp := TopFn(w, s), s.stack.top.fn, s.stack.top.pc, m.regs[EBP], m.regs[ESP];
    var pa := PoolAddr(w, k, i) % W32;
    var pb := NextPool(f, a, pa);
    var x, y, z := AddrOf(f, fp, Use(Res(i)), pa), AddrOf(f, fp, a, pa), AddrOf(f, fp, b, pb);
    BothCells(w, s, m, a, b);
    ResultCell(w, s, m, pa);
    PassThree(w, k, f, Use(Res(i)), pa, a, pa, b, pb, m);
    var pre := PassAddr(f, Use(Res(i)), pa, 0) + PassAddr(f, a, pa, 4) + PassAddr(f, b, pb, 8);
    var u := Run(w, k, pre, m);
    PassedReads(m.mem, esp, x, y, z);
    CellKept(w, s.stack.top, m.mem, u.mem, y, Raw(w, f, m.mem, fp, a));
    CellKept(w, s.stack.top, m.mem, u.mem, z, Raw(w, f, m.mem, fp, b));
    CellFacts(w, s.stack.top, u.mem, y, Raw(w, f, m.mem, fp, a));
    CellFacts(w, s.stack.top, u.mem, z, Raw(w, f, m.mem, fp, b));
    ReadIsRaw(w, f, s.stack.top.env, m.mem, fp, a, I64);
    ReadIsRaw(w, f, s.stack.top.env, m.mem, fp, b, I64);
    RunThen(w, k, pre, CallHelper(HArith(op)), m);
    HelperArith(w, k, op, u.(eip := u.eip + 5), x, y, z, Raw(w, f, m.mem, fp, a), Raw(w, f, m.mem, fp, b), v, s.stack.top.lo);
    DivModUnique(v, W64, 0, v);
    if i in f.bools {
      WfFnBool(f, i);
      assert false;
    }
    assert pre + [CallHelper(HArith(op))] == BinItems(f, i, op, I64, a, b, pa);
  }

  lemma CellFacts(w: World, fr: Frame, mem: Mem, a: int, x: nat)
    requires Cell(w, fr, mem, a, x)
    ensures 0 <= a && a + 8 <= W32 && Read64(mem, a) == x
  {
  }

  lemma ResultCell(w: World, s: IrState, m: State, pool: word)
    requires Related(w, s, m) && Wide64(TopInst(w, s)) && TopInst(w, s).Bin?
    ensures var at := AddrOf(TopFn(w, s), m.regs[EBP], Use(Res(s.stack.top.pc)), pool);
      && WfValue(TopFn(w, s), Use(Res(s.stack.top.pc)), I64)
      && at == m.regs[EBP] + SlotOf(TopFn(w, s), Res(s.stack.top.pc))
      && s.stack.top.lo <= at && at + 8 <= W32
  {
    hide Related, WfFn, EnvOk, BoolsOk, SlotOf, Vars;
    RelatedTop(w, s, m);
    SlotBounds(TopFn(w, s), Res(s.stack.top.pc));
  }

  lemma ICmpWideRun(w: World, s: IrState, m: State, p: Pred, a: Value, b: Value, v: nat)
    requires Here(w, s) && m.State? && TopInst(w, s) == ICmp(p, I64, a, b)
    requires var env := s.stack.top.env;
      && Read(w.p, env, a).Some? && Read(w.p, env, b).Some?
      && v == if EvalCmp(p, I64, Read(w.p, env, a).value, Read(w.p, env, b).value) then 1 else 0
    requires Related(w, s, m)
    ensures Delivers(w, s, m, Run(w, s.stack.top.fn, ICmpItems(TopFn(w, s), s.stack.top.pc, p, I64, a, b,
              PoolAddr(w, s.stack.top.fn, s.stack.top.pc) % W32), m), v)
  {
    hide Run, ExecItem, Related, Raw, WfFn, WfValue, EnvOk, BoolsOk, PassAddr, AddrOf, EvalCmp, Read32, Read64,
      PoolAddr, NextPool, SlotOf, Cell, PoolOf, Write32, Spill, ItemSize, CompareItems, Straight, Geo, WorldOk,
      Vars, Out;
    RelatedTop(w, s, m);
    HelperRoom(w, s, m);
    var f, k, i, fp, esp := TopFn(w, s), s.stack.top.fn, s.stack.top.pc, m.regs[EBP], m.regs[ESP];
    var pa := PoolAddr(w, k, i) % W32;
    var pb := NextPool(f, a, pa);
    var x, y := AddrOf(f, fp, a, pa), AddrOf(f, fp, b, pb);
    BothCells(w, s, m, a, b);
    PassTwo(w, k, f, a, pa, b, pb, m);
    var pre := PassAddr(f, a, pa, 0) + PassAddr(f, b, pb, 4);
    var u := Run(w, k, pre, m);
    TwoReads(m.mem, esp, x, y);
    CellKept(w, s.stack.top, m.mem, u.mem, x, Raw(w, f, m.mem, fp, a));
    CellKept(w, s.stack.top, m.mem, u.mem, y, Raw(w, f, m.mem, fp, b));
    CellFacts(w, s.stack.top, u.mem, x, Raw(w, f, m.mem, fp, a));
    CellFacts(w, s.stack.top, u.mem, y, Raw(w, f, m.mem, fp, b));
    ReadIsRaw(w, f, s.stack.top.env, m.mem, fp, a, I64);
    ReadIsRaw(w, f, s.stack.top.env, m.mem, fp, b, I64);
    RunThen(w, k, pre, CallHelper(HCompare(p)), m);
    HelperComparison(w, k, p, u.(eip := u.eip + ItemSize(CallHelper(HCompare(p)))), x, y, Raw(w, f, m.mem, fp, a), Raw(w, f, m.mem, fp, b), s.stack.top.lo);
    var u2 := Run(w, k, pre + [CallHelper(HCompare(p))], m);
    var sp := Spill(f, EAX, i, 0);
    RunThen(w, k, pre + [CallHelper(HCompare(p))], sp, m);
    assert pre + [CallHelper(HCompare(p))] + [sp] == ICmpItems(f, i, p, I64, a, b, pa);
    SpillExec(w, k, f, EAX, i, 0, u2.(eip := u2.eip + ItemSize(sp)));
    ReadWrite32(u2.mem, fp + SlotOf(f, Res(i)), u2.regs[EAX]);
  }

  lemma TwoReads(m: Mem, esp: int, x: word, y: word)
    ensures var p := Write32(Write32(m, esp, x), esp + 4, y);
      && Read32(p, esp) == x && Read32(p, esp + 4) == y
      && forall a | a < esp || esp + 8 <= a :: Byte(p, a) == Byte(m, a)
  {
    hide Write32, Read32;
    var m1 := Write32(m, esp, x);
    ReadWrite32(m, esp, x);
    ReadWrite32(m1, esp + 4, y);
    ReadSame(m1, Write32(m1, esp + 4, y), esp, 4);
  }
}
