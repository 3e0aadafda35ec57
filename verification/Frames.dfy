/** Which memory a step may touch without disturbing the relation: frame safety. */
module Frames {
  import opened Words
  import opened IrOps
  import opened Machine
  import opened Encoding
  import opened Ir
  import opened Codegen
  import opened Execution
  import opened Relation

  /** Bytes that belong to the generated code: value slots, saved ebp and return address, and
      the incoming arguments of every active call. */
  predicate InPrivate(p: Program, stack: Stack, a: int) {
    stack.Cons? &&
    ((stack.top.fn < |p.fns| && stack.top.hi <= a < ArgsTop(p, stack.top)) || InPrivate(p, stack.rest, a))
  }

  lemma AllocasAbove(w: World, stack: Stack, mem: Mem, a: int)
    requires Shaped(w.p) && stack.Cons? && StackOk(w, stack, mem) && InAllocas(stack, a)
    ensures stack.top.lo <= a < w.top
  {
    hide ReturnAddr, EnvOk, BoolsOk;
    match stack.rest {
      case Nil =>
      case Cons(c, _) => 
        if !(stack.top.lo <= a < stack.top.hi) {
          AllocasAbove(w, stack.rest, mem, a);
        }
    }
  }

  /** Private bytes are stack bytes at or above the top frame's slots, and no program object --
      alloca or global -- nor any pooled constant overlaps them. */
  lemma PrivateApart(w: World, stack: Stack, mem: Mem, a: int)
    requires Shaped(w.p) && DataOk(w) && stack.Cons? && StackOk(w, stack, mem) && InPrivate(w.p, stack, a)
    ensures stack.top.hi <= a < w.top && w.p.limit <= a
    ensures !ValidByte(w.p, stack, a)
    ensures !(w.pool0 <= a < w.pool0 + 8 * |Pool(w.p)|)
  {
    hide ReturnAddr, EnvOk, BoolsOk, Pool;
    var fr := stack.top;
    if fr.hi <= a < ArgsTop(w.p, fr) {
      if InAllocas(stack.rest, a) {
        AllocasAbove(w, stack.rest, mem, a);
        assert false;
      }
    } else {
      PrivateApart(w, stack.rest, mem, a);
    }
  }

  /** Live allocas are pairwise disjoint: a byte of the top frame's region is in no other. */
  lemma AllocasDisjoint(w: World, stack: Stack, mem: Mem, a: int)
    requires Shaped(w.p) && stack.Cons? && StackOk(w, stack, mem) && stack.top.lo <= a < stack.top.hi
    ensures !InAllocas(stack.rest, a)
  {
    hide ReturnAddr, EnvOk, BoolsOk;
    if InAllocas(stack.rest, a) {
      AllocasAbove(w, stack.rest, mem, a);
    }
  }

  // ----- Reading is unaffected by writes elsewhere -----

  lemma SlotSame(f: Fn, m: Mem, m': Mem, fp: int, r: Ref)
    requires SameBytes(m, m', fp + SlotOf(f, r), SlotBytes(f, r))
    ensures SlotBits(f, m, fp, r) == SlotBits(f, m', fp, r)
  {
    hide SlotOf;
    ReadSame(m, m', fp + SlotOf(f, r), SlotBytes(f, r));
  }

  lemma RawSame(w: World, f: Fn, m: Mem, m': Mem, fp: int, r: Ref)
    requires WfFn(f) && WfRef(f, r)
    requires var root := Root(f, Use(r));
      root.Use? ==> SameBytes(m, m', fp + SlotOf(f, root.r), SlotBytes(f, root.r))
    ensures Raw(w, f, m, fp, Use(r)) == Raw(w, f, m', fp, Use(r))
  {
    hide SlotOf, WfFn, SlotBytes;
    var root := Root(f, Use(r));
    if root.Use? {
      SlotSame(f, m, m', fp, root.r);
    }
  }

  lemma FrameSame(w: World, fr: Frame, m: Mem, m': Mem)
    requires fr.fn < |w.p.fns| && WfFn(w.p.fns[fr.fn]) && FrameOk(w, fr, m)
    requires forall a | fr.hi <= a < ArgsTop(w.p, fr) :: Byte(m, a) == Byte(m', a)
    ensures FrameOk(w, fr, m')
  {
    hide SlotOf, WfFn, SlotBytes, Raw, SlotBits, Vars;
    var f, fp := w.p.fns[fr.fn], Fp(w.p, fr);
    forall r | r in fr.env ensures Raw(w, f, m', fp, Use(r)) == Raw(w, f, m, fp, Use(r)) {
      RootWf(f, Use(r), TypeOf(f, Use(r)));
      var root := Root(f, Use(r));
      if root.Use? {
        SlotBounds(f, root.r);
      }
      RawSame(w, f, m, m', fp, r);
    }
  }

  /** Every frame keeps its relation as long as private bytes keep their contents. */
  lemma {:induction false} StackSame(w: World, stack: Stack, m: Mem, m': Mem)
    requires Shaped(w.p) && (forall k | 0 <= k < |w.p.fns| :: WfFn(w.p.fns[k])) && StackOk(w, stack, m)
    requires forall a | InPrivate(w.p, stack, a) :: Byte(m, a) == Byte(m', a)
    ensures StackOk(w, stack, m')
  {
    hide ReturnAddr, FrameOk, WfFn;
    match stack {
      case Nil =>
      case Cons(fr, rest) =>
        FrameFn(w, fr, m);
        forall a | fr.hi <= a < ArgsTop(w.p, fr) ensures Byte(m, a) == Byte(m', a) {
          assert InPrivate(w.p, stack, a);
        }
        FrameSame(w, fr, m, m');
        ReadSame(m, m', Fp(w.p, fr), 4);
        ReadSame(m, m', Fp(w.p, fr) + 4, 4);
        forall a | InPrivate(w.p, rest, a) ensures Byte(m, a) == Byte(m', a) {
          assert InPrivate(w.p, stack, a);
        }
        StackSame(w, rest, m, m');
    }
  }

  lemma FrameFn(w: World, fr: Frame, m: Mem)
    requires FrameOk(w, fr, m)
    ensures fr.fn < |w.p.fns|
  {
  }

  lemma PoolSame(w: World, m: Mem, m': Mem)
    requires PoolOk(w, m)
    requires forall a | w.pool0 <= a < w.pool0 + 8 * |Pool(w.p)| :: Byte(m, a) == Byte(m', a)
    ensures PoolOk(w, m')
  {
    hide Pool;
    forall j | 0 <= j < |Pool(w.p)| ensures Read64(m', w.pool0 + 8 * j) == Pool(w.p)[j] {
      ReadSame(m, m', w.pool0 + 8 * j, 8);
    }
  }

  // ----- Writing one result slot -----

  /** m' differs from m at most in the slot of result i and in the scratch area below `lo`. */
  ghost predicate OnlySlot(w: World, fr: Frame, i: nat, m: Mem, m': Mem)
    requires fr.fn < |w.p.fns|
  {
    var f := w.p.fns[fr.fn];
    var at := Fp(w.p, fr) + SlotOf(f, Res(i));
    forall a | !(at <= a < at + SlotBytes(f, Res(i))) && !(w.p.limit <= a < fr.lo) :: Byte(m', a) == Byte(m, a)
  }

  /** The frame after result i has been stored. */
  function Stored(w: World, fr: Frame, v: nat): Frame
    requires fr.fn < |w.p.fns|
  {
    fr.(pc := fr.pc + 1, env := Define(true, w.p.fns[fr.fn], fr.env, fr.pc, v))
  }

  /** Names that survive the definition of result i keep their storage's bits. */
  lemma SurvivorsSame(w: World, fr: Frame, m: Mem, m': Mem, v: nat, r: Ref)
    requires fr.fn < |w.p.fns| && WfFn(w.p.fns[fr.fn]) && FrameOk(w, fr, m)
    requires !w.p.fns[fr.fn].body[fr.pc].Cast? && OnlySlot(w, fr, fr.pc, m, m')
    requires r in Stored(w, fr, v).env && r != Res(fr.pc)
    ensures var f, fp := w.p.fns[fr.fn], Fp(w.p, fr);
      r in fr.env && Raw(w, f, m', fp, Use(r)) == Raw(w, f, m, fp, Use(r))
  {
    hide SlotOf, WfFn, SlotBytes, Raw, SlotBits, Vars, VarsSize, BoolsOk;
    var f, fp, i := w.p.fns[fr.fn], Fp(w.p, fr), fr.pc;
    SlotBounds(f, Res(i));
    RootWf(f, Use(r), TypeOf(f, Use(r)));
    var root := Root(f, Use(r));
    if root.Use? {
      assert root.r != Res(i);
      SlotBounds(f, root.r);
      SlotsDisjoint(f, root.r, Res(i));
    }
    RawSame(w, f, m, m', fp, r);
  }

  lemma StoredFrame(w: World, fr: Frame, m: Mem, m': Mem, v: nat)
    requires fr.fn < |w.p.fns| && WfFn(w.p.fns[fr.fn]) && FrameOk(w, fr, m)
    requires fr.pc + 1 < |w.p.fns[fr.fn].body|
    requires w.p.fns[fr.fn].body[fr.pc].HasResult() && !w.p.fns[fr.fn].body[fr.pc].Cast?
    requires OnlySlot(w, fr, fr.pc, m, m')
    requires var f := w.p.fns[fr.fn];
      var bits := SlotBits(f, m', Fp(w.p, fr), Res(fr.pc));
      v == bits % f.body[fr.pc].ResultType().Modulus() && (fr.pc in f.bools ==> bits % W8 < 2)
    ensures FrameOk(w, Stored(w, fr, v), m')
  {
    hide SlotBits, SlotOf, WfFn, Raw, OnlySlot, Root, Define, Vars;
    var f, fp, env' := w.p.fns[fr.fn], Fp(w.p, fr), Stored(w, fr, v).env;
    RootOfOwner(f, Res(fr.pc));
    RawOfOwner(w, f, m', fp, Res(fr.pc));
    DefineGives(f, fr.env, fr.pc, v);
    forall r | r in env' && r != Res(fr.pc)
      ensures r in fr.env && env'[r] == fr.env[r] && Raw(w, f, m', fp, Use(r)) == Raw(w, f, m, fp, Use(r))
    {
      SurvivorsSame(w, fr, m, m', v, r);
    }
  }

  lemma DefineGives(f: Fn, env: Env, i: nat, v: nat)
    ensures var e := Define(true, f, env, i, v);
      Res(i) in e && e[Res(i)] == v && forall r | r in e && r != Res(i) :: r in env && e[r] == env[r]
  {
  }

  lemma RawOfOwner(w: World, f: Fn, m: Mem, fp: int, r: Ref)
    requires Owner(f, r)
    ensures Raw(w, f, m, fp, Use(r)) == SlotBits(f, m, fp, r)
  {
  }

  /** The private bytes of the suspended frames lie above the top frame. */
  lemma RestAbove(w: World, fr: Frame, rest: Stack, m: Mem, a: int)
    requires Shaped(w.p) && DataOk(w) && StackOk(w, Cons(fr, rest), m) && InPrivate(w.p, rest, a)
    ensures ArgsTop(w.p, fr) <= a
  {
    hide ReturnAddr, FrameOk;
    FrameFn(w, fr, m);
    PrivateApart(w, rest, m, a);
    FrameOrder(w, rest, m);
  }

  lemma FrameOrder(w: World, stack: Stack, m: Mem)
    requires Shaped(w.p) && stack.Cons? && StackOk(w, stack, m)
    ensures stack.top.fn < |w.p.fns| && stack.top.lo <= stack.top.hi
    ensures w.p.limit <= Sp(w.p, stack.top) - 8 && ArgsTop(w.p, stack.top) <= w.top
  {
    hide ReturnAddr, EnvOk, BoolsOk;
  }

  /** m' differs from m at most in the top frame's result slots and in the scratch area below
      its allocas. */
  ghost predicate OnlyTop(w: World, fr: Frame, m: Mem, m': Mem)
    requires fr.fn < |w.p.fns|
  {
    forall a | !(fr.hi <= a < Fp(w.p, fr)) && !(w.p.limit <= a < fr.lo) :: Byte(m', a) == Byte(m, a)
  }

  /** The bytes that survive: saved ebp, return address, arguments, suspended frames, program
      objects and pooled constants. */
  lemma OutsideTop(w: World, fr: Frame, rest: Stack, m: Mem, m': Mem)
    requires Linked(w) && StackOk(w, Cons(fr, rest), m) && fr.fn < |w.p.fns| && OnlyTop(w, fr, m, m')
    ensures forall a | Fp(w.p, fr) <= a < ArgsTop(w.p, fr) :: Byte(m', a) == Byte(m, a)
    ensures forall a | InPrivate(w.p, rest, a) :: Byte(m, a) == Byte(m', a)
    ensures forall a | ValidByte(w.p, Cons(fr, rest), a) :: Byte(m', a) == Byte(m, a)
    ensures forall a | w.pool0 <= a < w.pool0 + 8 * |Pool(w.p)| :: Byte(m, a) == Byte(m', a)
  {
    hide ReturnAddr, FrameOk, Out, WfFn, CodeOk, LabelsOk, WorldOk, PlanOk, Pool, ArgsSize, VarsSize;
    FrameOrder(w, Cons(fr, rest), m);
    forall a | InPrivate(w.p, rest, a) ensures Byte(m, a) == Byte(m', a) {
      RestAbove(w, fr, rest, m, a);
    }
    forall a | ValidByte(w.p, Cons(fr, rest), a) ensures Byte(m', a) == Byte(m, a) {
      if a !in w.p.globals {
        AllocasAbove(w, Cons(fr, rest), m, a);
      }
      if InPrivate(w.p, Cons(fr, rest), a) {
        PrivateApart(w, Cons(fr, rest), m, a);
      }
    }
  }

  lemma ProgramKept(w: World, fr: Frame, fr': Frame, rest: Stack, prog: Mem, m: Mem, m': Mem)
    requires MemOk(w, Cons(fr, rest), prog, m) && fr'.lo == fr.lo && fr'.hi == fr.hi
    requires forall a | ValidByte(w.p, Cons(fr, rest), a) :: Byte(m', a) == Byte(m, a)
    ensures MemOk(w, Cons(fr', rest), prog, m')
  {
    forall a | a in prog ensures ValidByte(w.p, Cons(fr', rest), a) && Byte(m', a) == prog[a] {
      assert ValidByte(w.p, Cons(fr, rest), a);
    }
  }

  lemma LinksKept(w: World, fr: Frame, fr': Frame, rest: Stack, m: Mem, m': Mem)
    requires Shaped(w.p) && StackOk(w, Cons(fr, rest), m) && FrameOk(w, fr', m') && StackOk(w, rest, m')
    requires fr.fn < |w.p.fns| && fr' == fr.(pc := fr'.pc, env := fr'.env)
    requires forall a | Fp(w.p, fr) <= a < ArgsTop(w.p, fr) :: Byte(m', a) == Byte(m, a)
    ensures StackOk(w, Cons(fr', rest), m')
  {
    hide ReturnAddr, FrameOk, Vars, Out, ArgsSize, Suspended, Sp, Read32;
    ReadSame(m, m', Fp(w.p, fr), 4);
    ReadSame(m, m', Fp(w.p, fr) + 4, 4);
  }

  /** Re-establishing the top frame re-establishes the whole memory relation. */
  lemma TopChanged(w: World, fr: Frame, fr': Frame, rest: Stack, prog: Mem, m: Mem, m': Mem)
    requires Linked(w) && StackOk(w, Cons(fr, rest), m) && MemOk(w, Cons(fr, rest), prog, m) && PoolOk(w, m)
    requires fr.fn < |w.p.fns| && fr' == fr.(pc := fr'.pc, env := fr'.env) && OnlyTop(w, fr, m, m')
    requires FrameOk(w, fr', m')
    ensures StackOk(w, Cons(fr', rest), m') && MemOk(w, Cons(fr', rest), prog, m') && PoolOk(w, m')
  {
    hide ReturnAddr, FrameOk, Vars, VarsSize, Out, WfFn, CodeOk, LabelsOk, WorldOk, PlanOk, DataOk, Pool, OnlyTop,
      MemOk, PoolOk, ValidByte;
    OutsideTop(w, fr, rest, m, m');
    RestOk(w, fr, rest, m);
    StackSame(w, rest, m, m');
    LinksKept(w, fr, fr', rest, m, m');
    ProgramKept(w, fr, fr', rest, prog, m, m');
    PoolSame(w, m, m');
  }

  lemma RestOk(w: World, fr: Frame, rest: Stack, m: Mem)
    requires Shaped(w.p) && StackOk(w, Cons(fr, rest), m)
    ensures StackOk(w, rest, m) && FrameOk(w, fr, m)
  {
    hide ReturnAddr, FrameOk, Vars, Out;
  }

  /** Storing a result keeps the whole relation except for the machine's own registers. */
  lemma StoredStack(w: World, fr: Frame, rest: Stack, prog: Mem, m: Mem, m': Mem, v: nat)
    requires Linked(w) && StackOk(w, Cons(fr, rest), m) && MemOk(w, Cons(fr, rest), prog, m) && PoolOk(w, m)
    requires fr.fn < |w.p.fns| && fr.pc + 1 < |w.p.fns[fr.fn].body|
    requires OnlySlot(w, fr, fr.pc, m, m')
    requires w.p.fns[fr.fn].body[fr.pc].HasResult() && !w.p.fns[fr.fn].body[fr.pc].Cast?
    requires var f := w.p.fns[fr.fn];
      var bits := SlotBits(f, m', Fp(w.p, fr), Res(fr.pc));
      v == bits % f.body[fr.pc].ResultType().Modulus() && (fr.pc in f.bools ==> bits % W8 < 2)
    ensures var stack := Cons(Stored(w, fr, v), rest);
      StackOk(w, stack, m') && MemOk(w, stack, prog, m') && PoolOk(w, m')
  {
    hide ReturnAddr, FrameOk, SlotOf, SlotBits, VarsSize, Out, WfFn, CodeOk, LabelsOk, WorldOk, PlanOk, DataOk,
      MemOk, PoolOk, StackOk;
    RestOk(w, fr, rest, m);
    StoredFrame(w, fr, m, m', v);
    SlotBounds(w.p.fns[fr.fn], Res(fr.pc));
    TopChanged(w, fr, Stored(w, fr, v), rest, prog, m, m');
  }
}
