/** Loads, stores and select. */
module MemoryOps {
  import opened Words
  import opened IrOps
  import opened Machine
  import opened Encoding
  import opened Ir
  import opened Codegen
  import opened Execution
  import opened Arithmetic
  import opened Relation
  import opened Frames
  import opened Placement
  import opened Operands
  import opened Results

  /** Initialised program bytes lie in the address space and the machine holds them too. */
  lemma ProgramBytes(w: World, s: IrState, m: State, a: int, n: nat)
    requires Related(w, s, m) && Initialised(s.mem, a, n)
    ensures SameBytes(m.mem, s.mem, a, n) && Writable(w.p, s.stack, a, n)
  {
    hide Linked, StackOk, PoolOk, Pc, Fp, Sp;
    forall x | a <= x < a + n ensures Byte(m.mem, x) == Byte(s.mem, x) && ValidByte(w.p, s.stack, x) {
      assert x in s.mem;
    }
  }

  lemma WritableRange(w: World, s: IrState, m: State, a: int, n: nat)
    requires Related(w, s, m) && Writable(w.p, s.stack, a, n) && n > 0
    ensures 0 <= a && a + n <= W32
  {
    hide LabelsOk, CodeOk, WorldOk, PlanOk, Pc, MemOk, PoolOk, StackOk, WfFn, Pool;
    assert ValidByte(w.p, s.stack, a) && ValidByte(w.p, s.stack, a + n - 1);
    ValidAddress(w, s.stack, m.mem, a);
    ValidAddress(w, s.stack, m.mem, a + n - 1);
  }

  lemma ValidAddress(w: World, stack: Stack, mem: Mem, a: int)
    requires Shaped(w.p) && DataOk(w) && stack.Cons? && StackOk(w, stack, mem) && ValidByte(w.p, stack, a)
    ensures 0 <= a < W32
  {
    hide Pool, EnvOk, BoolsOk, ReturnAddr;
    if a !in w.p.globals {
      AllocasAbove(w, stack, mem, a);
      FrameOrder(w, stack, mem);
    }
  }

  lemma ReplaceLow(x: int, m: int, v: int)
    requires m > 0 && 0 <= v < m
    ensures (x - x % m + v) % m == v
  {
    DivModUnique(x - x % m + v, m, x / m, v);
  }

  predicate Narrow(ty: Type) {
    ty.I8? || ty.I16? || ty.I32? || ty.Ptr?
  }

  /** The sized load itself. */
  function LoadOp(ty: Type): Instr {
    match SizeOf(ty)
    case 1 => LoadByte
    case 2 => LoadHalf
    case _ => LoadAt(EAX, EAX, 0)
  }

  lemma LoadOpExec(w: World, k: nat, ty: Type, u: State)
    requires u.State? && Narrow(ty) && u.regs[EAX] + SizeOf(ty) <= W32
    ensures var t := Run(w, k, [Ins(LoadOp(ty))], u);
      Kept(u, t) && t.regs[EAX] % ty.Modulus() == ReadMem(u.mem, u.regs[EAX], ty)
  {
    hide Run, ExecItem, Encode, Read16, Read32;
    RunIns(w, k, LoadOp(ty), u);
    var a := u.regs[EAX];
    if ty.I8? {
      ReplaceLow(a, W8, Byte(u.mem, a));
    } else if ty.I16? {
      ReplaceLow(a, W16, Read16(u.mem, a));
    } else {
      WordsAreSmall(a);
      WordsAreSmall(Read32(u.mem, a));
    }
  }

  /** A program load delivers the bytes of the program's memory. */
  lemma LoadRun(w: World, s: IrState, m: State, ty: Type, at: Value)
    requires Related(w, s, m) && TopInst(w, s) == LoadMem(ty, at) && Narrow(ty)
    requires Read(w.p, s.stack.top.env, at).Some?
    requires Initialised(s.mem, Read(w.p, s.stack.top.env, at).value, SizeOf(ty))
    ensures Delivers(w, s, m, Run(w, s.stack.top.fn,
      [MovePart(TopFn(w, s), EAX, at, 0), Ins(LoadOp(ty)), Spill(TopFn(w, s), EAX, s.stack.top.pc, 0)], m),
      ReadMem(s.mem, Read(w.p, s.stack.top.env, at).value, ty))
  {
    hide Run, ExecItem, Delivers, Spill, MovePart, Related, Raw, WfFn, Geo, EnvOk, BoolsOk, Read16, Read32,
      Initialised, Part, LoadOp;
    RelatedTop(w, s, m);
    var f, k := TopFn(w, s), s.stack.top.fn;
    var a := Read(w.p, s.stack.top.env, at).value;
    var pre := [MovePart(f, EAX, at, 0)];
    OneOperand(w, k, f, EAX, at, Ptr, m);
    ReadIsRaw(w, f, s.stack.top.env, m.mem, m.regs[EBP], at, Ptr);
    var u := Run(w, k, pre, m);
    WordsAreSmall(u.regs[EAX]);
    assert u.regs[EAX] == a;
    ProgramBytes(w, s, m, a, SizeOf(ty));
    WritableRange(w, s, m, a, SizeOf(ty));
    ReadSame(m.mem, s.mem, a, SizeOf(ty));
    ByteSame(m.mem, s.mem, a, SizeOf(ty));
    LoadOpExec(w, k, ty, u);
    RunAppend(w, k, pre, [Ins(LoadOp(ty))], m);
    if s.stack.top.pc in f.bools {
      WfFnBool(f, s.stack.top.pc);
      assert false;
    }
    assert pre + [Ins(LoadOp(ty))] + [Spill(f, EAX, s.stack.top.pc, 0)]
        == [MovePart(f, EAX, at, 0), Ins(LoadOp(ty)), Spill(f, EAX, s.stack.top.pc, 0)];
    ThenSpill(w, s, m, pre + [Ins(LoadOp(ty))], EAX, ReadMem(s.mem, a, ty));
  }

  lemma ByteSame(m: Mem, m': Mem, a: int, n: nat)
    requires SameBytes(m, m', a, n) && n > 0
    ensures Byte(m, a) == Byte(m', a)
  {
  }

  // ----- Stores -----

  /** Writing the same value to program bytes on both sides keeps the relation. */
  ghost predicate SameWrite(m: Mem, m': Mem, q: Mem, q': Mem, a: int, n: nat) {
    && (forall x | a <= x < a + n :: x in q' && Byte(m', x) == q'[x])
    && (forall x | !(a <= x < a + n) :: Byte(m', x) == Byte(m, x) && (x in q' <==> x in q) && Byte(q', x) == Byte(q, x))
  }

  lemma StoreKeeps(w: World, s: IrState, m: State, m': Mem, q': Mem, a: int, n: nat)
    requires Related(w, s, m) && Writable(w.p, s.stack, a, n) && SameWrite(m.mem, m', s.mem, q', a, n)
    ensures StackOk(w, s.stack, m') && MemOk(w, s.stack, q', m') && PoolOk(w, m')
  {
    hide LabelsOk, CodeOk, WorldOk, PlanOk, Pc, StackOk, WfFn, Pool, ValidByte, InPrivate;
    forall x | InPrivate(w.p, s.stack, x) ensures Byte(m.mem, x) == Byte(m', x) {
      PrivateApart(w, s.stack, m.mem, x);
    }
    StackSame(w, s.stack, m.mem, m');
    forall x | w.pool0 <= x < w.pool0 + 8 * |Pool(w.p)| ensures Byte(m.mem, x) == Byte(m', x) {
      if a <= x < a + n {
        PoolNotProgram(w, s.stack, m.mem, x);
      }
    }
    PoolSame(w, m.mem, m');
  }

  lemma PoolNotProgram(w: World, stack: Stack, mem: Mem, a: int)
    requires Shaped(w.p) && DataOk(w) && stack.Cons? && StackOk(w, stack, mem)
    requires w.pool0 <= a < w.pool0 + 8 * |Pool(w.p)|
    ensures !ValidByte(w.p, stack, a)
  {
    hide Pool, ReturnAddr, EnvOk, BoolsOk;
    if InAllocas(stack, a) {
      AllocasAbove(w, stack, mem, a);
      FrameOrder(w, stack, mem);
    }
  }

  /** The sized store itself. */
  function StoreOp(ty: Type): Instr {
    match SizeOf(ty)
    case 1 => StoreByte
    case 2 => StoreHalf
    case _ => StoreAt(EAX, EDX, 0)
  }

  lemma WriteSame(m: Mem, q: Mem, a: int, ty: Type, x: int, y: nat)
    requires Narrow(ty) && 0 <= x && x % ty.Modulus() == y
    requires forall b | b in q :: Byte(m, b) == q[b]
    ensures SameWrite(m, WriteMem(m, a, ty, x), q, WriteMem(q, a, ty, y), a, SizeOf(ty))
  {
    hide WriteMem, SameWrite;
    LowBitsWritten(m, a, ty, x);
    WriteBoth(m, q, a, ty, y);
  }

  /** Only the value's low bits are written. */
  lemma LowBitsWritten(m: Mem, a: int, ty: Type, x: nat)
    requires Narrow(ty)
    ensures WriteMem(m, a, ty, x) == WriteMem(m, a, ty, x % ty.Modulus())
  {
    hide Write32;
    NarrowTwice(x, ty, I8);
    if ty.I16? {
      HighByte(x, W8);
      DivModUnique((x % W16) / W8, W8, 0, (x % W16) / W8);
    } else if !ty.I8? {
      WriteWord(m, a, x, x % W32);
    }
  }

  lemma WriteBoth(m: Mem, q: Mem, a: int, ty: Type, y: nat)
    requires Narrow(ty) && y < ty.Modulus() && forall b | b in q :: Byte(m, b) == q[b]
    ensures SameWrite(m, WriteMem(m, a, ty, y), q, WriteMem(q, a, ty, y), a, SizeOf(ty))
  {
  }

  lemma HighByte(x: nat, k: nat)
    requires k > 0
    ensures x / W8 % k == (x % (W8 * k)) / W8
  {
    var h := x / W8;
    assert x == W8 * h + x % W8;
    assert h == k * (h / k) + h % k;
    MulRegroup(W8, k * (h / k), 0, 1);
    assert W8 * (k * (h / k)) == (W8 * k) * (h / k);
    DivModUnique(x, W8 * k, h / k, W8 * (h % k) + x % W8);
    DivModUnique(W8 * (h % k) + x % W8, W8, h % k, x % W8);
  }

  lemma WriteWord(m: Mem, a: int, x: nat, y: word)
    requires x % W32 == y
    ensures Write32(m, a, x) == Write32(m, a, y)
  {
    NarrowTwice(x, I32, I16);
    HighHalf(x);
    HighHalf(y);
    WordsAreSmall(y);
  }

  lemma HighHalf(x: nat)
    ensures x / W16 % W16 == (x % W32) / W16
  {
    var h := x / W16;
    assert x == W16 * h + x % W16;
    assert h == W16 * (h / W16) + h % W16;
    DivModUnique(x, W32, h / W16, W16 * (h % W16) + x % W16);
    DivModUnique(W16 * (h % W16) + x % W16, W16, h % W16, x % W16);
  }

  lemma StoreOpExec(w: World, k: nat, ty: Type, u: State)
    requires u.State? && Narrow(ty) && u.regs[EDX] + SizeOf(ty) <= W32
    ensures var t := Run(w, k, [Ins(StoreOp(ty))], u);
      t.State? && t.regs == u.regs && t.mem == WriteMem(u.mem, u.regs[EDX], ty, u.regs[EAX])
  {
    hide Run, ExecItem, Encode, Write8, Write16, Write32;
    RunIns(w, k, StoreOp(ty), u);
    WordsAreSmall(u.regs[EDX]);
  }

  /** The same bytes have been written on both sides and nothing else has changed. */
  ghost predicate StoreDone(s: IrState, m: State, t: State, ty: Type, a: nat, x: nat)
    requires s.Running? && m.State?
  {
    && t.State? && t.regs[EBP] == m.regs[EBP] && Saved(t) == Saved(m) && t.regs[ESP] == m.regs[ESP]
    && SameWrite(m.mem, t.mem, s.mem, WriteMem(s.mem, a, ty, x), a, SizeOf(ty))
  }

  /** A program store writes the value's low bytes. */
  lemma StoreRun(w: World, s: IrState, m: State, ty: Type, v: Value, at: Value)
    requires Related(w, s, m) && TopInst(w, s) == StoreMem(ty, v, at) && Narrow(ty)
    requires Read(w.p, s.stack.top.env, at).Some? && Read(w.p, s.stack.top.env, v).Some?
    requires Writable(w.p, s.stack, Read(w.p, s.stack.top.env, at).value, SizeOf(ty))
    ensures StoreDone(s, m,
      Run(w, s.stack.top.fn, [MovePart(TopFn(w, s), EDX, at, 0), MovePart(TopFn(w, s), EAX, v, 0), Ins(StoreOp(ty))], m),
      ty, Read(w.p, s.stack.top.env, at).value, Read(w.p, s.stack.top.env, v).value)
  {
    hide Run, ExecItem, MovePart, Related, Raw, WfFn, Geo, EnvOk, BoolsOk, Part, StoreOp, SameWrite, WriteMem,
      Writable;
    RelatedTop(w, s, m);
    var f, k := TopFn(w, s), s.stack.top.fn;
    var a, x := Read(w.p, s.stack.top.env, at).value, Read(w.p, s.stack.top.env, v).value;
    var one, two := [MovePart(f, EDX, at, 0)], [MovePart(f, EAX, v, 0)];
    OneOperand(w, k, f, EDX, at, Ptr, m);
    var u := Run(w, k, one, m);
    OneOperand(w, k, f, EAX, v, ty, u);
    RunAppend(w, k, one, two, m);
    var u2 := Run(w, k, one + two, m);
    ReadIsRaw(w, f, s.stack.top.env, m.mem, m.regs[EBP], at, Ptr);
    ReadIsRaw(w, f, s.stack.top.env, m.mem, m.regs[EBP], v, ty);
    WordsAreSmall(u.regs[EDX]);
    assert u2.regs[EDX] == a && u2.regs[EAX] % ty.Modulus() == x;
    WritableRange(w, s, m, a, SizeOf(ty));
    StoreOpExec(w, k, ty, u2);
    RunAppend(w, k, one + two, [Ins(StoreOp(ty))], m);
    assert one + two + [Ins(StoreOp(ty))] == [MovePart(f, EDX, at, 0), MovePart(f, EAX, v, 0), Ins(StoreOp(ty))];
    ProgramAgrees(w, s, m);
    WriteSame(m.mem, s.mem, a, ty, u2.regs[EAX], x);
  }

  lemma ProgramAgrees(w: World, s: IrState, m: State)
    requires Related(w, s, m)
    ensures forall b | b in s.mem :: Byte(m.mem, b) == s.mem[b]
  {
    hide Linked, StackOk, PoolOk, Pc, Fp, Sp;
  }

  // ----- Select -----

  /** Load the condition and the first operand and test the condition's low byte. */
  lemma SelectHead(w: World, k: nat, f: Fn, c: Value, a: Value, ty: Type, s: State)
    requires WfFn(f) && WfValue(f, c, I1) && WfValue(f, a, ty) && s.State? && Geo(f, s.regs[EBP])
    ensures var t := Run(w, k, [MovePart(f, EAX, c, 0), MovePart(f, ECX, a, 0), Ins(TestAl)], s);
      && Kept(s, t) && t.flags.Flags?
      && t.regs[ECX] == Part(Raw(w, f, s.mem, s.regs[EBP], a), 0)
      && (t.flags.zf <==> Part(Raw(w, f, s.mem, s.regs[EBP], c), 0) % W8 == 0)
  {
    hide Run, ExecItem, MovePart, Raw, WfFn, Part, Encode;
    var one, two := [MovePart(f, EAX, c, 0)], [MovePart(f, ECX, a, 0)];
    OneOperand(w, k, f, EAX, c, I1, s);
    var u := Run(w, k, one, s);
    OneOperand(w, k, f, ECX, a, ty, u);
    RunAppend(w, k, one, two, s);
    var v := Run(w, k, one + two, s);
    RunIns(w, k, TestAl, v);
    RunAppend(w, k, one + two, [Ins(TestAl)], s);
    assert one + two + [Ins(TestAl)] == [MovePart(f, EAX, c, 0), MovePart(f, ECX, a, 0), Ins(TestAl)];
  }

  lemma AtBelow(w: World, k: nat, items: seq<Item>, pos: nat)
    requires WorldOk(w) && ItemsAt(w, k, items, pos)
    ensures pos + Size(items) < W32
  {
  }

  /** jnz over one item: either it runs or it is skipped, and control meets right behind it. */
  lemma SkipOrRun(w: World, k: nat, f: Fn, it: Item, v: Value, ty: Type, rest: seq<Item>, h: State) returns (n: nat, t: State)
    requires WorldOk(w) && h.State? && h.eip >= 0 && h.flags.Flags? && it == MovePart(f, ECX, v, 0)
    requires WfFn(f) && WfValue(f, v, ty) && Geo(f, h.regs[EBP])
    requires ItemsAt(w, k, [Ins(Jcc(NE, ItemSize(it) % W32)), it] + rest, h.eip)
    ensures Steps(w, n, h) == t && Kept(h, t)
    ensures t.regs[ECX] == if h.flags.zf then Part(Raw(w, f, h.mem, h.regs[EBP], v), 0) else h.regs[ECX]
    ensures t.eip == h.eip + Size([Ins(Jcc(NE, ItemSize(it) % W32)), it]) && ItemsAt(w, k, rest, t.eip)
  {
    hide Run, MachineStep, MovePart, Raw, WfFn, Part, WorldOk, ItemsAt, Geo, Size;
    var j := Ins(Jcc(NE, ItemSize(it) % W32));
    var both := [j, it];
    assert both + rest == [j] + ([it] + rest);
    assert ([j] + ([it] + rest))[1..] == [it] + rest;
    TwoSizes(j, it);
    ItemsAtParts(w, k, both, rest, h.eip);
    AtBelow(w, k, both, h.eip);
    StepIsItem(w, k, both + rest, h);
    var h1 := MachineStep(w, h);
    assert Steps(w, 1, h) == h1;
    WordsAreSmall(ItemSize(it));
    if h.flags.zf {
      MoveStraight(f, ECX, v, 0);
      OneOperand(w, k, f, ECX, v, ty, h1);
      RunIsSteps(w, k, [it], rest, h1);
      n, t := 2, Run(w, k, [it], h1);
      StepsAdd(w, 1, 1, h);
    } else {
      n, t := 1, h1;
      WordsAreSmall(h.eip + 6 + ItemSize(it));
    }
  }

  lemma TwoSizes(a: Item, b: Item)
    ensures Size([a, b]) == ItemSize(a) + ItemSize(b) && Size([b]) == ItemSize(b)
  {
    assert [a, b][1..] == [b] && [b][1..] == [];
    assert Size([b][1..]) == 0;
  }

  /** What select must choose, and that the machine's choice has it. */
  lemma SelectChoice(w: World, s: IrState, m: State, ty: Type, c: Value, a: Value, b: Value, x: word)
    requires Related(w, s, m) && TopInst(w, s) == Select(ty, c, a, b) && IsBool(TopFn(w, s), c)
    requires var env := s.stack.top.env;
      Read(w.p, env, c).Some? && Read(w.p, env, a).Some? && Read(w.p, env, b).Some?
    requires var f, fp := TopFn(w, s), m.regs[EBP];
      x == if Part(Raw(w, f, m.mem, fp, c), 0) % W8 == 0 then Part(Raw(w, f, m.mem, fp, b), 0)
           else Part(Raw(w, f, m.mem, fp, a), 0)
    ensures var env := s.stack.top.env;
      x % ty.Modulus() == if Read(w.p, env, c).value == 1 then Read(w.p, env, a).value else Read(w.p, env, b).value
    ensures s.stack.top.pc in TopFn(w, s).bools ==> x % W8 < 2
  {
    hide Related, Raw, WfFn, Geo, EnvOk, BoolsOk, Part;
    RelatedTop(w, s, m);
    var f, fp, env := TopFn(w, s), m.regs[EBP], s.stack.top.env;
    ReadIsRaw(w, f, env, m.mem, fp, c, I1);
    ReadIsRaw(w, f, env, m.mem, fp, a, ty);
    ReadIsRaw(w, f, env, m.mem, fp, b, ty);
    BoolInput(w, s, m, c);
    NarrowTwice(Part(Raw(w, f, m.mem, fp, c), 0), I8, I1);
    if s.stack.top.pc in f.bools {
      WfFnBool(f, s.stack.top.pc);
      BoolInput(w, s, m, a);
      BoolInput(w, s, m, b);
    }
  }

  /** A last spill, executed from its own address. */
  lemma FinalSpill(w: World, s: IrState, m: State, u: State, reg: Reg, v: nat, rest: seq<Item>) returns (t: State)
    requires Here(w, s) && WorldOk(w)
    requires s.stack.top.pc + 1 < |TopFn(w, s).body| && OneWord(TopInst(w, s).ResultType())
    requires TopInst(w, s).HasResult() && !TopInst(w, s).Cast?
    requires Kept(m, u) && u.eip >= 0 && m.regs[EBP] == Fp(w.p, s.stack.top) && Geo(TopFn(w, s), m.regs[EBP])
    requires u.regs[reg] % TopInst(w, s).ResultType().Modulus() == v
    requires s.stack.top.pc in TopFn(w, s).bools ==> u.regs[reg] % W8 < 2
    requires ItemsAt(w, s.stack.top.fn, [Spill(TopFn(w, s), reg, s.stack.top.pc, 0)] + rest, u.eip)
    ensures Steps(w, 1, u) == t && t.State? && t.eip == u.eip + ItemSize(Spill(TopFn(w, s), reg, s.stack.top.pc, 0))
    ensures Delivers(w, s, m, t, v)
  {
    hide ExecItem, Delivers, Spill, Geo, Steps, ItemsAt, ItemSize, MachineStep, WorldOk;
    var f, k := TopFn(w, s), s.stack.top.fn;
    var sp := Spill(f, reg, s.stack.top.pc, 0);
    t := MachineStep(w, u);
    OneStep(w, u);
    SpillStep(w, s, m, u, reg, rest);
    SpillDelivers(w, s, m, u.(eip := u.eip + ItemSize(sp)), reg, v);
    DeliversState(w, s, m, t, v);
    SpillStraight(f, reg, s.stack.top.pc, 0);
    StraightEip(w, k, sp, u.(eip := u.eip + ItemSize(sp)));
  }

  lemma SpillStraight(f: Fn, reg: Reg, i: nat, part: nat)
    ensures Straight(Spill(f, reg, i, part))
  {
  }

  /** select delivers the operand the program chooses, although it tests eight bits. */
  lemma SelectRun(w: World, s: IrState, m: State, ty: Type, c: Value, a: Value, b: Value) returns (n: nat, t: State)
    requires Related(w, s, m) && TopInst(w, s) == Select(ty, c, a, b) && IsBool(TopFn(w, s), c)
    requires var env := s.stack.top.env;
      Read(w.p, env, c).Some? && Read(w.p, env, a).Some? && Read(w.p, env, b).Some?
    ensures Steps(w, n, m) == t && t.State? && t.eip == Pc(w, s.stack.top.fn, s.stack.top.pc + 1)
    ensures var env := s.stack.top.env;
      Delivers(w, s, m, t, if Read(w.p, env, c).value == 1 then Read(w.p, env, a).value else Read(w.p, env, b).value)
  {
    hide Run, ExecItem, Delivers, Spill, MovePart, Related, Raw, WfFn, Geo, EnvOk, BoolsOk, Part, Steps, ItemsAt,
      Pc, ItemSize, Size, MachineStep, WorldOk, Read, ItemsOf;
    RelatedTop(w, s, m);
    var f, k, i, env := TopFn(w, s), s.stack.top.fn, s.stack.top.pc, s.stack.top.env;
    var rest := InstHere(w, s, m);
    assert ItemsOf(w.p, w.pool0, k, i) == SelectItems(f, i, c, a, b) by { SelectIs(w, k, i); }
    SelectSplit(f, i, c, a, b, rest);
    var n2, h2 := SelectBody(w, k, f, i, ty, c, a, b, rest, m);
    SelectChoice(w, s, m, ty, c, a, b, h2.regs[ECX]);
    var v := if Read(w.p, env, c).value == 1 then Read(w.p, env, a).value else Read(w.p, env, b).value;
    t := FinalSpill(w, s, m, h2, ECX, v, rest);
    n := n2 + 1;
    StepsAdd(w, n2, 1, m);
  }

  lemma SelectIs(w: World, k: nat, i: nat)
    requires Shaped(w.p) && k < |w.p.fns| && i < |w.p.fns[k].body| && w.p.fns[k].body[i].Select?
    ensures var inst := w.p.fns[k].body[i];
      ItemsOf(w.p, w.pool0, k, i) == SelectItems(w.p.fns[k], i, inst.c, inst.a, inst.b)
  {
    hide SelectItems, PoolIndex, OutSize;
  }

  /** Everything up to the final spill. */
  lemma SelectBody(w: World, k: nat, f: Fn, i: nat, ty: Type, c: Value, a: Value, b: Value, rest: seq<Item>, m: State)
    returns (n: nat, h: State)
    requires WorldOk(w) && WfFn(f) && WfValue(f, c, I1) && WfValue(f, a, ty) && WfValue(f, b, ty)
    requires m.State? && m.eip >= 0 && Geo(f, m.regs[EBP])
    requires ItemsAt(w, k, SelectItems(f, i, c, a, b) + rest, m.eip)
    ensures Steps(w, n, m) == h && Kept(m, h)
    ensures h.regs[ECX] == if Part(Raw(w, f, m.mem, m.regs[EBP], c), 0) % W8 == 0
                           then Part(Raw(w, f, m.mem, m.regs[EBP], b), 0) else Part(Raw(w, f, m.mem, m.regs[EBP], a), 0)
    ensures h.eip >= 0 && h.eip + ItemSize(Spill(f, ECX, i, 0)) == m.eip + Size(SelectItems(f, i, c, a, b))
    ensures ItemsAt(w, k, [Spill(f, ECX, i, 0)] + rest, h.eip)
  {
    hide Run, ExecItem, Spill, MovePart, Raw, WfFn, WfValue, Geo, Part, Steps, ItemsAt, ItemSize, Size,
      MachineStep, WorldOk;
    var mvb, sp := MovePart(f, ECX, b, 0), Spill(f, ECX, i, 0);
    var pre := [MovePart(f, EAX, c, 0), MovePart(f, ECX, a, 0), Ins(TestAl)];
    var mid := [Ins(Jcc(NE, ItemSize(mvb) % W32)), mvb];
    SelectSplit(f, i, c, a, b, rest);
    SelectHead(w, k, f, c, a, ty, m);
    MoveStraight(f, EAX, c, 0);
    MoveStraight(f, ECX, a, 0);
    RunIsSteps(w, k, pre, mid + ([sp] + rest), m);
    var h1 := Run(w, k, pre, m);
    var n2;
    n2, h := SkipOrRun(w, k, f, mvb, b, ty, [sp] + rest, h1);
    n := 3 + n2;
    StepsAdd(w, 3, n2, m);
  }

  lemma OneStep(w: World, s: State)
    ensures Steps(w, 1, s) == MachineStep(w, s)
  {
    hide MachineStep;
    assert Steps(w, 0, MachineStep(w, s)) == MachineStep(w, s);
  }

  /** For any bits in the condition's slot, select picks the operand that bit 0 asks for exactly when
      the low byte is zero or odd (or the operands agree). */
  lemma SelectExact(w: World, k: nat, f: Fn, i: nat, ty: Type, c: Value, a: Value, b: Value, rest: seq<Item>, m: State)
    returns (n: nat, h: State)
    requires WorldOk(w) && WfFn(f) && WfValue(f, c, I1) && WfValue(f, a, ty) && WfValue(f, b, ty)
    requires m.State? && m.eip >= 0 && Geo(f, m.regs[EBP])
    requires ItemsAt(w, k, SelectItems(f, i, c, a, b) + rest, m.eip)
    ensures Steps(w, n, m) == h && Kept(m, h)
    ensures var bits := Part(Raw(w, f, m.mem, m.regs[EBP], c), 0);
      var x, y := Part(Raw(w, f, m.mem, m.regs[EBP], a), 0), Part(Raw(w, f, m.mem, m.regs[EBP], b), 0);
      h.regs[ECX] == (if bits % 2 == 1 then x else y) <==> bits % W8 == 0 || bits % 2 == 1 || x == y
  {
    hide Raw, WfFn, WfValue, Geo, Part, Steps, ItemsAt, WorldOk, SelectItems;
    n, h := SelectBody(w, k, f, i, ty, c, a, b, rest, m);
    ModMod(Part(Raw(w, f, m.mem, m.regs[EBP], c), 0), 2, 128);
  }

  /** Truncate an i8 argument to i1 and select on it. */
  function Truncated(): Fn {
    Function([I8], Some(I32),
             [Cast(I8, I1, Use(Arg(0))), Select(I32, Use(Res(0)), Const(I32, Num(1)), Const(I32, Num(0))), Return(Some(Use(Res(1))))],
             [0, 0, 0], [0], [0, 1, 2], {})
  }

  lemma TruncatedCast()
    ensures WfInst(Truncated(), 0)
  {
    hide Root;
  }

  lemma TruncatedSelect()
    ensures WfInst(Truncated(), 1)
  {
    hide Root;
  }

  lemma TruncatedReturn()
    ensures WfInst(Truncated(), 2)
  {
    hide Root;
  }

  lemma TruncatedWf()
    ensures WfFn(Truncated()) && Root(Truncated(), Use(Res(0))) == Use(Arg(0)) && !IsBool(Truncated(), Use(Res(0)))
    ensures SlotOf(Truncated(), Arg(0)) == 8
  {
    hide WfInst;
    assert Root(Truncated(), Use(Arg(0))) == Use(Arg(0));
    TruncatedCast();
    TruncatedSelect();
    TruncatedReturn();
  }

  lemma TruncatedSteps(p: Program, stack: Stack, prog: Mem)
    ensures StepLocal(p, false, Truncated(), 0, map[Arg(0) := 2], stack, prog) == Some((map[Arg(0) := 2, Res(0) := 0], prog))
    ensures StepLocal(p, false, Truncated(), 1, map[Arg(0) := 2, Res(0) := 0], stack, prog)
            == Some((map[Arg(0) := 2, Res(0) := 0, Res(1) := 0], prog))
  {
    hide Root;
    var e0: Env, e1: Env := map[Arg(0) := 2], map[Arg(0) := 2, Res(0) := 0];
    assert e0[Res(0) := 0] == e1;
    assert e1[Res(1) := 0] == map[Arg(0) := 2, Res(0) := 0, Res(1) := 0];
  }

  /** A select that goes wrong: for the argument 2 the condition is 0, so the program chooses the
      second operand; the code tests the slot's low byte, which is 2, and chooses the first. */
  lemma SelectWrong(w: World, k: nat, rest: seq<Item>, m: State, p: Program, stack: Stack, prog: Mem) returns (n: nat, h: State)
    requires WorldOk(w) && m.State? && m.eip >= 0 && Geo(Truncated(), m.regs[EBP])
    requires ItemsAt(w, k, SelectItems(Truncated(), 1, Use(Res(0)), Const(I32, Num(1)), Const(I32, Num(0))) + rest, m.eip)
    requires Read32(m.mem, m.regs[EBP] + 8) % W8 == 2
    ensures WfFn(Truncated()) && !IsBool(Truncated(), Use(Res(0)))
    ensures StepLocal(p, false, Truncated(), 0, map[Arg(0) := 2], stack, prog) == Some((map[Arg(0) := 2, Res(0) := 0], prog))
    ensures StepLocal(p, false, Truncated(), 1, map[Arg(0) := 2, Res(0) := 0], stack, prog)
            == Some((map[Arg(0) := 2, Res(0) := 0, Res(1) := 0], prog))
    ensures Steps(w, n, m) == h && Kept(m, h) && h.regs[ECX] == 1
  {
    hide Geo, Steps, ItemsAt, WorldOk, SelectItems, Read32, WfFn, SlotOf, StepLocal;
    var f := Truncated();
    TruncatedWf();
    TruncatedSteps(p, stack, prog);
    WordsAreSmall(Read32(m.mem, m.regs[EBP] as int + 8));
    n, h := SelectBody(w, k, f, 1, I32, Use(Res(0)), Const(I32, Num(1)), Const(I32, Num(0)), rest, m);
  }

  lemma SelectSplit(f: Fn, i: nat, c: Value, a: Value, b: Value, rest: seq<Item>)
    ensures var mvb, sp := MovePart(f, ECX, b, 0), Spill(f, ECX, i, 0);
      var pre, mid := [MovePart(f, EAX, c, 0), MovePart(f, ECX, a, 0), Ins(TestAl)], [Ins(Jcc(NE, ItemSize(mvb) % W32)), mvb];
      && SelectItems(f, i, c, a, b) + rest == pre + (mid + ([sp] + rest))
      && Size(SelectItems(f, i, c, a, b)) == Size(pre) + Size(mid) + ItemSize(sp)
  {
    hide MovePart, Spill, Size;
    var mvb, sp := MovePart(f, ECX, b, 0), Spill(f, ECX, i, 0);
    var pre, mid := [MovePart(f, EAX, c, 0), MovePart(f, ECX, a, 0), Ins(TestAl)], [Ins(Jcc(NE, ItemSize(mvb) % W32)), mvb];
    assert SelectItems(f, i, c, a, b) == pre + mid + [sp];
    SizeAppend(pre, mid);
    SizeAppend(pre + mid, [sp]);
    TwoSizes(sp, sp);
  }

  /** One spill at the end of an instruction, as a machine step. */
  lemma SpillStep(w: World, s: IrState, m: State, u: State, reg: Reg, rest: seq<Item>)
    requires Here(w, s) && WorldOk(w) && m.State? && u.State? && u.eip >= 0
    requires ItemsAt(w, s.stack.top.fn, [Spill(TopFn(w, s), reg, s.stack.top.pc, 0)] + rest, u.eip)
    ensures MachineStep(w, u) == ExecItem(w, s.stack.top.fn, Spill(TopFn(w, s), reg, s.stack.top.pc, 0),
              u.(eip := u.eip + ItemSize(Spill(TopFn(w, s), reg, s.stack.top.pc, 0))))
  {
    hide ItemsAt, ExecItem, MachineStep, WorldOk;
    StepIsItem(w, s.stack.top.fn, [Spill(TopFn(w, s), reg, s.stack.top.pc, 0)] + rest, u);
  }
}
