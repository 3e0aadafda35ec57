/** Moving operands and results between registers and their storage. */
module Operands {
  import opened Words
  import opened IrOps
  import opened Machine
  import opened Encoding
  import opened Ir
  import opened Codegen
  import opened Execution
  import opened Arithmetic
  import opened Relation

  /** The frame fits in the address space. */
  predicate Geo(f: Fn, fp: int) {
    Vars(f) <= fp && fp + 8 + ArgsSize(f.params) <= W32
  }

  lemma FrameGeo(w: World, stack: Stack, mem: Mem)
    requires Shaped(w.p) && DataOk(w) && stack.Cons? && StackOk(w, stack, mem)
    ensures stack.top.fn < |w.p.fns| && Geo(w.p.fns[stack.top.fn], Fp(w.p, stack.top))
  {
    hide EnvOk, BoolsOk, ReturnAddr, Pool;
  }

  /** An ebp-relative access reaches its slot. */
  lemma EbpAddress(fp: word, off: int)
    requires 0 <= fp + off < W32
    ensures (fp + off % W32) % W32 == fp + off
  {
    ModAdd(fp, off % W32, W32);
    ModAdd(fp, off, W32);
    DivModUnique(fp + off, W32, 0, fp + off);
  }

  lemma Halves(m: Mem, a: int)
    ensures Read64(m, a) % W32 == Read32(m, a) && Read64(m, a) / W32 == Read32(m, a + 4)
  {
    DivModUnique(Read64(m, a), W32, Read32(m, a + 4), Read32(m, a));
  }

  /** The 32-bit part of a value at byte offset 0 or 4. */
  function Part(x: nat, part: nat): word {
    if part == 4 then x / W32 % W32 else x % W32
  }

  predicate PartOk(ty: Type, part: nat) {
    part == 0 || (part == 4 && ty.I64?)
  }

  /** Reading through any chain of casts, from a slot or a constant, loads the requested half
      of the bits at the end of the chain. */
  lemma MoveExec(w: World, k: nat, f: Fn, reg: Reg, v: Value, ty: Type, part: nat, s: State)
    requires WfFn(f) && WfValue(f, v, ty) && PartOk(ty, part) && s.State? && Geo(f, s.regs[EBP])
    ensures ExecItem(w, k, MovePart(f, reg, v, part), s) == s.Set(reg, Part(Raw(w, f, s.mem, s.regs[EBP], v), part))
  {
    hide SlotOf, WfFn, HelperCall, AddressOf, Vars, SlotWord, ExecItem, Part, Geo;
    RootWf(f, v, ty);
    match Root(f, v) {
      case Const(_, k') => ConstantExec(w, k, f, reg, v, part, s);
      case Use(r) => LoadSlot(w, k, f, reg, r, part, s);
    }
  }

  /** A number is an immediate; a global's address is completed by relocation. */
  lemma ConstantExec(w: World, k: nat, f: Fn, reg: Reg, v: Value, part: nat, s: State)
    requires s.State? && Root(f, v).Const? && (Root(f, v).k.Addr? ==> part == 0) && (part == 0 || part == 4)
    ensures ExecItem(w, k, MovePart(f, reg, v, part), s) == s.Set(reg, Part(KonstValue(w.p, Root(f, v).k), part))
  {
    hide ExecItem, AddressOf, Root;
    match Root(f, v).k {
      case Num(n) => ImmediateExec(w, k, reg, Part(n, part), s);
      case Addr(g, off) =>
        ModAdd(off, AddressOf(w.p, g), W32);
        ModAdd(off % W32, AddressOf(w.p, g), W32);
        GlobalExec(w, k, reg, g, off % W32, s);
    }
  }

  lemma ImmediateExec(w: World, k: nat, reg: Reg, x: word, s: State)
    requires s.State?
    ensures ExecItem(w, k, Ins(MovImm(reg, x)), s) == s.Set(reg, x)
  {
    hide HelperCall;
  }

  lemma GlobalExec(w: World, k: nat, reg: Reg, g: GlobalRef, off: word, s: State)
    requires s.State?
    ensures ExecItem(w, k, MovGlobal(reg, g, off), s) == s.Set(reg, (off + AddressOf(w.p, g)) % W32)
  {
    hide HelperCall, AddressOf;
  }

  lemma LoadSlot(w: World, k: nat, f: Fn, reg: Reg, r: Ref, part: nat, s: State)
    requires Owner(f, r) && PartOk(TypeOf(f, Use(r)), part) && s.State? && Geo(f, s.regs[EBP])
    ensures ExecItem(w, k, Ins(LoadEbp(reg, SlotWord(f, r, part))), s)
            == s.Set(reg, Part(SlotBits(f, s.mem, s.regs[EBP], r), part))
  {
    hide SlotOf, ExecItem, Vars, Read32, Read64;
    var fp := s.regs[EBP];
    SlotBounds(f, r);
    EbpAddress(fp, SlotOf(f, r) + part);
    LoadEbpExec(w, k, reg, SlotWord(f, r, part), s);
    Halves(s.mem, fp + SlotOf(f, r));
    WordsAreSmall(Read32(s.mem, fp + SlotOf(f, r)));
    WordsAreSmall(Read32(s.mem, fp + SlotOf(f, r) + 4));
  }

  lemma WordsAreSmall(x: word)
    ensures x % W32 == x
  {
    DivModUnique(x, W32, 0, x);
  }

  lemma LoadEbpExec(w: World, k: nat, reg: Reg, disp: word, s: State)
    requires s.State? && (s.regs[EBP] + disp) % W32 + 4 <= W32
    ensures ExecItem(w, k, Ins(LoadEbp(reg, disp)), s) == s.Set(reg, Read32(s.mem, (s.regs[EBP] + disp) % W32))
  {
  }

  /** Storing a register into half of a result slot. */
  lemma SpillExec(w: World, k: nat, f: Fn, reg: Reg, i: nat, part: nat, s: State)
    requires Owner(f, Res(i)) && PartOk(f.body[i].ResultType(), part) && s.State? && Geo(f, s.regs[EBP])
    ensures ExecItem(w, k, Spill(f, reg, i, part), s)
            == s.(mem := Write32(s.mem, s.regs[EBP] + SlotOf(f, Res(i)) + part, s.regs[reg]))
  {
    hide SlotOf, HelperCall, Vars;
    SlotBounds(f, Res(i));
    EbpAddress(s.regs[EBP], SlotOf(f, Res(i)) + part);
  }

  /** The address of a 64-bit operand: its slot, or its constant's cell in the pool. */
  function AddrOf(f: Fn, fp: int, v: Value, pool: int): int {
    match Root(f, v)
    case Const(_, _) => pool
    case Use(r) => fp + SlotOf(f, r)
  }

  lemma AddrExec(w: World, k: nat, f: Fn, reg: Reg, v: Value, pool: word, s: State)
    requires WfFn(f) && WfValue(f, v, I64) && s.State? && Geo(f, s.regs[EBP])
    ensures 0 <= AddrOf(f, s.regs[EBP], v, pool) < W32
    ensures ExecItem(w, k, AddrToReg(f, reg, v, pool), s) == s.Set(reg, AddrOf(f, s.regs[EBP], v, pool))
  {
    hide SlotOf, HelperCall, Vars, WfFn;
    RootWf(f, v, I64);
    match Root(f, v) {
      case Const(_, _) =>
      case Use(r) =>
        SlotBounds(f, r);
        EbpAddress(s.regs[EBP], SlotOf(f, r));
    }
  }

  /** The eight bytes at that address are the operand's bits. */
  lemma AddrHolds(w: World, f: Fn, v: Value, pool: int, mem: Mem, fp: int)
    requires WfFn(f) && WfValue(f, v, I64) && Geo(f, fp)
    requires forall j | 0 <= j < |PoolOf(f, v)| :: Read64(mem, pool + 8 * j) == PoolOf(f, v)[j]
    ensures Read64(mem, AddrOf(f, fp, v, pool)) == Raw(w, f, mem, fp, v) < W64
  {
    hide SlotOf, Vars, WfFn, Read64;
    RootWf(f, v, I64);
    match Root(f, v) {
      case Const(_, Num(n)) =>
        assert PoolOf(f, v)[0] == n;
        assert Read64(mem, pool + 8 * 0) == n;
      case Use(r) =>
    }
  }

  lemma StoreEspExec(w: World, k: nat, reg: Reg, off: nat, s: State)
    requires s.State? && s.regs[ESP] + off + 4 <= W32
    ensures ExecItem(w, k, Ins(StoreEsp(reg, off % W32)), s) == s.(mem := Write32(s.mem, s.regs[ESP] + off, s.regs[reg]))
  {
    hide HelperCall;
    EbpAddress(s.regs[ESP], off);
  }

  /** An available value is its storage's low bits. */
  lemma ReadIsRaw(w: World, f: Fn, env: Env, mem: Mem, fp: int, v: Value, ty: Type)
    requires EnvOk(w, f, env, mem, fp) && WfValue(f, v, ty) && Read(w.p, env, v).Some?
    ensures Read(w.p, env, v).value == Raw(w, f, mem, fp, v) % ty.Modulus()
    ensures OneWord(ty) ==> Read(w.p, env, v).value == Part(Raw(w, f, mem, fp, v), 0) % ty.Modulus()
  {
    hide SlotOf, SlotBits, AddressOf, KonstValue;
    if OneWord(ty) {
      NarrowWord(Raw(w, f, mem, fp, v), ty);
    }
  }
}
