/** The simulation relation: every available SSA value is what its storage holds, modulo the
    value's width; frames, program memory and constants are where they should be. */
module Relation {
  import opened Words
  import opened IrOps
  import opened Machine
  import opened Encoding
  import opened Ir
  import opened Codegen
  import opened Execution
  import opened Abi

  // ----- Geometry of a frame -----

  function Vars(f: Fn): nat {
    VarsSize(f, |f.body|)
  }

  function Out(f: Fn): nat {
    OutSize(f, |f.body|)
  }

  /** ebp: value slots lie below it and above the allocas. */
  function Fp(p: Program, fr: Frame): int
    requires fr.fn < |p.fns|
  {
    fr.hi + Vars(p.fns[fr.fn])
  }

  /** esp: the outgoing-argument area lies below the allocas. */
  function Sp(p: Program, fr: Frame): int
    requires fr.fn < |p.fns|
  {
    fr.lo - Out(p.fns[fr.fn])
  }

  function Pc(w: World, k: nat, i: nat): nat
    requires Shaped(w.p) && k < |w.p.fns| && i <= |w.p.fns[k].body|
  {
    w.base + PcOffset(w.p, w.pool0, k, i)
  }

  function PoolAddr(w: World, k: nat, i: nat): int
    requires k < |w.p.fns| && i <= |w.p.fns[k].body|
  {
    w.pool0 + 8 * PoolIndex(w.p, k, i)
  }

  function Pool(p: Program): seq<nat> {
    ModulePool(p, |p.fns|)
  }

  // ----- What a linked image guarantees -----

  predicate PlanOk(p: Program) {
    |p.plan| == |p.fns| &&
    forall k | 0 <= k < |p.fns| :: p.plan[k] == Plan(Vars(p.fns[k]), Out(p.fns[k]))
  }

  ghost predicate LabelsOk(w: World)
    requires Shaped(w.p)
  {
    forall k, b | 0 <= k < |w.p.fns| && 0 <= b < |w.p.fns[k].starts| && w.p.fns[k].starts[b] < |w.p.fns[k].body| ::
      Label(w, k, b) == Pc(w, k, w.p.fns[k].starts[b])
  }

  ghost predicate CodeOk(w: World)
    requires Shaped(w.p)
  {
    forall k | 0 <= k < |w.p.fns| ::
      AddressOf(w.p, Fun(k)) == w.base + FnStart(w.p, w.pool0, k)
      && ItemsAt(w, k, FnItems(w.p, w.pool0, k, |w.p.fns[k].body|), w.base + FnStart(w.p, w.pool0, k))
  }

  /** Global variables and pool constants are outside the stack and apart from each other. */
  ghost predicate DataOk(w: World) {
    && 0 <= w.p.limit <= w.top <= W32
    && w.pool0 + 8 * |Pool(w.p)| <= W32
    && (w.pool0 + 8 * |Pool(w.p)| <= w.p.limit || w.top <= w.pool0)
    && forall a | a in w.p.globals ::
         0 <= a < W32 && !(w.p.limit <= a < w.top) && !(w.pool0 <= a < w.pool0 + 8 * |Pool(w.p)|)
  }

  ghost predicate Linked(w: World) {
    && WorldOk(w) && Shaped(w.p) && PlanOk(w.p)
    && (forall k | 0 <= k < |w.p.fns| :: WfFn(w.p.fns[k]))
    && LabelsOk(w) && CodeOk(w) && DataOk(w)
  }

  // ----- The relation -----

  /** The bits held by the storage at the end of v's chain of casts. */
  function Raw(w: World, f: Fn, mem: Mem, fp: int, v: Value): nat {
    match Root(f, v)
    case Const(_, k) => KonstValue(w.p, k)
    case Use(r) => SlotBits(f, mem, fp, r)
  }

  function SlotBits(f: Fn, mem: Mem, fp: int, r: Ref): nat {
    if TypeOf(f, Use(r)).I64? then Read64(mem, fp + SlotOf(f, r)) else Read32(mem, fp + SlotOf(f, r))
  }

  /** The words from ebp + 8 on, read as the calling convention says, are what the argument slots hold. */
  lemma SlotsAreArgs(f: Fn, mem: Mem, fp: int, j: nat)
    requires j < |f.params|
    ensures StackArgs(mem, fp + 8, f.params)[j] == SlotBits(f, mem, fp, Arg(j)) % f.params[j].Modulus()
  {
    hide Read32, Read64, SlotOf;
    ArgPosition(f, j);
    StackArgAt(mem, fp + 8, f.params, j);
  }

  /** Slot and value agree modulo 2 to the width. */
  ghost predicate EnvOk(w: World, f: Fn, env: Env, mem: Mem, fp: int) {
    forall r | r in env :: WfRef(f, r) && env[r] == Raw(w, f, mem, fp, Use(r)) % TypeOf(f, Use(r)).Modulus()
  }

  /** The low byte of every available value of the boolean class is 0 or 1. */
  ghost predicate BoolsOk(w: World, f: Fn, env: Env, mem: Mem, fp: int) {
    forall r | r in env && IsBool(f, Use(r)) :: Raw(w, f, mem, fp, Use(r)) % W8 < 2
  }

  ghost predicate FrameOk(w: World, fr: Frame, mem: Mem) {
    && fr.fn < |w.p.fns| && fr.pc < |w.p.fns[fr.fn].body|
    && fr.lo <= fr.hi && w.p.limit <= Sp(w.p, fr) - 8
    && EnvOk(w, w.p.fns[fr.fn], fr.env, mem, Fp(w.p, fr))
    && BoolsOk(w, w.p.fns[fr.fn], fr.env, mem, Fp(w.p, fr))
  }

  /** Top of the incoming arguments. */
  function ArgsTop(p: Program, fr: Frame): int
    requires fr.fn < |p.fns|
  {
    Fp(p, fr) + 8 + ArgsSize(p.fns[fr.fn].params)
  }

  ghost predicate Suspended(w: World, c: Frame, ret: Option<Type>)
    requires Shaped(w.p)
  {
    && c.fn < |w.p.fns| && c.pc < |w.p.fns[c.fn].body|
    && w.p.fns[c.fn].body[c.pc].CallFn? && w.p.fns[c.fn].body[c.pc].ret == ret
  }

  /** Where a suspended frame resumes: just after its call instruction. */
  function ReturnAddr(w: World, c: Frame): int
    requires Shaped(w.p) && c.fn < |w.p.fns| && c.pc < |w.p.fns[c.fn].body| && w.p.fns[c.fn].body[c.pc].CallFn?
  {
    var f := w.p.fns[c.fn];
    Pc(w, c.fn, c.pc) + Size(CallItems(f, f.body[c.pc].fn, f.body[c.pc].args, PoolAddr(w, c.fn, c.pc) % W32))
  }

  ghost predicate StackOk(w: World, stack: Stack, mem: Mem)
    requires Shaped(w.p)
  {
    match stack
    case Nil => true
    case Cons(fr, rest) =>
      && FrameOk(w, fr, mem)
      && ArgsTop(w.p, fr) <= w.top
      && StackOk(w, rest, mem)
      && match rest
         case Nil => Read32(mem, Fp(w.p, fr)) == w.hostEbp && Read32(mem, Fp(w.p, fr) + 4) == w.hostRet
         case Cons(c, _) =>
           && Suspended(w, c, w.p.fns[fr.fn].ret)
           && Fp(w.p, fr) + 8 == Sp(w.p, c)
           && ArgsTop(w.p, fr) <= c.lo
           && Read32(mem, Fp(w.p, fr)) == Fp(w.p, c)
           && Read32(mem, Fp(w.p, fr) + 4) == ReturnAddr(w, c)
  }

  ghost predicate MemOk(w: World, stack: Stack, program: Mem, mem: Mem) {
    forall a | a in program :: ValidByte(w.p, stack, a) && Byte(mem, a) == program[a]
  }

  ghost predicate PoolOk(w: World, mem: Mem) {
    forall j | 0 <= j < |Pool(w.p)| :: Read64(mem, w.pool0 + 8 * j) == Pool(w.p)[j]
  }

  /** The program is at an instruction of the top frame's function. */
  predicate Here(w: World, s: IrState) {
    s.Running? && s.stack.Cons? && s.stack.top.fn < |w.p.fns| && s.stack.top.pc < |w.p.fns[s.stack.top.fn].body|
  }

  function TopFn(w: World, s: IrState): Fn
    requires Here(w, s)
  {
    w.p.fns[s.stack.top.fn]
  }

  function TopInst(w: World, s: IrState): Inst
    requires Here(w, s)
  {
    TopFn(w, s).body[s.stack.top.pc]
  }

  /** IR state and machine state correspond. */
  ghost predicate Related(w: World, s: IrState, m: State) {
    && Linked(w) && Here(w, s) && m.State?
    && StackOk(w, s.stack, m.mem) && MemOk(w, s.stack, s.mem, m.mem) && PoolOk(w, m.mem)
    && m.eip == Pc(w, s.stack.top.fn, s.stack.top.pc)
    && m.regs[EBP] == Fp(w.p, s.stack.top) && Saved(m) == w.hostSaved
    && m.regs[ESP] == Sp(w.p, s.stack.top)
  }

  // ----- Slots are disjoint -----

  lemma VarsMono(f: Fn, i: nat, j: nat)
    requires i <= j <= |f.body|
    ensures VarsSize(f, i) <= VarsSize(f, j)
  {
    if i < j {
      VarsMono(f, i, j - 1);
    }
  }

  lemma ArgsMono(tys: seq<Type>, i: nat, j: nat)
    requires i <= j <= |tys|
    ensures ArgsSize(tys[..i]) <= ArgsSize(tys[..j])
  {
    if i < j {
      assert tys[..j][..j - 1] == tys[..j - 1];
      ArgsMono(tys, i, j - 1);
    }
  }

  lemma ArgsStep(tys: seq<Type>, k: nat)
    requires k < |tys|
    ensures ArgsSize(tys[..k + 1]) == ArgsSize(tys[..k]) + SlotSize(tys[k])
    ensures ArgsSize(tys[..k]) + SlotSize(tys[k]) <= ArgsSize(tys)
  {
    assert tys[..k + 1][..k] == tys[..k];
    ArgsMono(tys, k + 1, |tys|);
    assert tys[..|tys|] == tys;
  }

  /** A name that owns storage. */
  predicate Owner(f: Fn, r: Ref) {
    match r
    case Arg(k) => k < |f.params|
    case Res(i) => i < |f.body| && !f.body[i].Cast?
  }

  function SlotBytes(f: Fn, r: Ref): nat {
    SlotSize(TypeOf(f, Use(r)))
  }

  /** Result slots lie in the frame below ebp, arguments above the return address. */
  lemma SlotBounds(f: Fn, r: Ref)
    requires Owner(f, r)
    ensures r.Res? ==> 0 - Vars(f) <= SlotOf(f, r) && SlotOf(f, r) + SlotBytes(f, r) <= 0
    ensures r.Arg? ==> 8 <= SlotOf(f, r) && SlotOf(f, r) + SlotBytes(f, r) <= 8 + ArgsSize(f.params)
  {
    match r {
      case Arg(k) => ArgsStep(f.params, k);
      case Res(i) => VarsMono(f, i + 1, |f.body|);
    }
  }

  /** Different owners have disjoint slots. */
  lemma SlotsDisjoint(f: Fn, r: Ref, q: Ref)
    requires Owner(f, r) && Owner(f, q) && r != q
    ensures SlotOf(f, r) + SlotBytes(f, r) <= SlotOf(f, q) || SlotOf(f, q) + SlotBytes(f, q) <= SlotOf(f, r)
  {
    match (r, q) {
      case (Res(i), Res(j)) =>
        if i < j {
          VarsMono(f, i + 1, j);
        } else {
          VarsMono(f, j + 1, i);
        }
      case (Arg(i), Arg(j)) =>
        if i < j {
          ArgsStep(f.params, i);
          ArgsMono(f.params, i + 1, j);
        } else {
          ArgsStep(f.params, j);
          ArgsMono(f.params, j + 1, i);
        }
      case _ =>
        SlotBounds(f, r);
        SlotBounds(f, q);
    }
  }

  // ----- Roots -----

  /** A chain of casts ends in a well-formed value that is at least as wide. */
  lemma {:induction false} RootWf(f: Fn, v: Value, ty: Type)
    requires WfFn(f) && WfValue(f, v, ty)
    ensures var root := Root(f, v);
      && WfValue(f, root, TypeOf(f, root)) && ty.Bits() <= TypeOf(f, root).Bits()
      && (root.Use? ==> Owner(f, root.r))
    decreases if IsCast(f, v) then f.rank[v.r.i] + 1 else 0
  {
    if IsCast(f, v) {
      var i := v.r.i;
      assert WfInst(f, i);
      RootWf(f, f.body[i].a, f.body[i].from);
    }
  }

  lemma RootOfOwner(f: Fn, r: Ref)
    requires Owner(f, r)
    ensures Root(f, Use(r)) == Use(r)
  {
  }
}
