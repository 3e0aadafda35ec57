/** Calls between translated functions: argument passing, entry and return. */
module Calls {
  import opened Words
  import opened IrOps
  import opened Machine
  import opened Abi
  import opened Encoding
  import opened Ir
  import opened Codegen
  import opened Execution
  import opened Arithmetic
  import opened Relation
  import opened Frames
  import opened Placement
  import opened Operands
  import opened Results
  import opened MemoryOps
  import opened Wide
  import opened Helpers
  import opened Control

  // ----- Sizes -----

  lemma ArgsSizeCons(t: Type, ts: seq<Type>)
    ensures ArgsSize([t] + ts) == SlotSize(t) + ArgsSize(ts)
  {
    if ts == [] {
      assert [t] + ts == [t] && [t][..0] == [];
    } else {
      var n := |ts|;
      assert ([t] + ts)[..n] == [t] + ts[..n - 1];
      ArgsSizeCons(t, ts[..n - 1]);
    }
  }

  /** The outgoing area is large enough for every call in the function. */
  lemma OutCovers(f: Fn, i: nat, n: nat)
    requires i < n <= |f.body| && f.body[i].CallFn?
    ensures ArgsSize(TypesOf(f, f.body[i].args)) <= OutSize(f, n)
  {
    if i < n - 1 {
      OutCovers(f, i, n - 1);
    }
  }

  /** It is the largest such area, and never less than three words. */
  lemma OutIsLeast(f: Fn, n: nat)
    requires n <= |f.body|
    ensures OutSize(f, n) >= 12
    ensures OutSize(f, n) == 12
            || exists i :: 0 <= i < n && f.body[i].CallFn? && StackBytes(TypesOf(f, f.body[i].args)) == OutSize(f, n)
  {
    hide TypesOf, StackBytes, ArgsSize;
    if n > 0 {
      OutIsLeast(f, n - 1);
      if f.body[n - 1].CallFn? {
        ArgsSizeIs(TypesOf(f, f.body[n - 1].args));
      }
    }
  }

  // ----- Passing arguments -----

  /** The argument's bits at address a, in the width of its slot. */
  ghost predicate ArgHeld(w: World, f: Fn, m: Mem, fp: int, v: Value, a: int, m': Mem) {
    if TypeOf(f, v).I64? then Read64(m', a) == Raw(w, f, m, fp, v) else Read32(m', a) == Raw(w, f, m, fp, v) % W32
  }

  ghost predicate ArgsHeld(w: World, f: Fn, m: Mem, fp: int, vs: seq<Value>, a: int, m': Mem) {
    vs != [] ==> ArgHeld(w, f, m, fp, vs[0], a, m') && ArgsHeld(w, f, m, fp, vs[1..], a + SlotSize(TypeOf(f, vs[0])), m')
  }

  lemma {:induction false} ArgsHeldSame(w: World, f: Fn, m: Mem, fp: int, vs: seq<Value>, a: int, m1: Mem, m2: Mem)
    requires ArgsHeld(w, f, m, fp, vs, a, m1)
    requires forall x | a <= x < a + ArgsSize(TypesOf(f, vs)) :: Byte(m2, x) == Byte(m1, x)
    ensures ArgsHeld(w, f, m, fp, vs, a, m2)
  {
    hide Raw, Read32, Read64;
    if vs != [] {
      var t := TypeOf(f, vs[0]);
      TypesCons(f, vs);
      ArgsSizeCons(t, TypesOf(f, vs[1..]));
      ReadSame(m1, m2, a, SlotSize(t));
      ArgsHeldSame(w, f, m, fp, vs[1..], a + SlotSize(t), m1, m2);
    }
  }

  lemma TypesCons(f: Fn, vs: seq<Value>)
    requires vs != []
    ensures TypesOf(f, vs) == [TypeOf(f, vs[0])] + TypesOf(f, vs[1..])
  {
  }

  /** The j-th argument is where the calling convention puts it: behind the words of the earlier ones. */
  lemma {:induction false} ArgsHeldAt(w: World, f: Fn, m: Mem, fp: int, vs: seq<Value>, a: int, m': Mem, j: nat)
    requires ArgsHeld(w, f, m, fp, vs, a, m') && j < |vs|
    ensures ArgHeld(w, f, m, fp, vs[j], a + StackBytes(TypesOf(f, vs)[..j]), m')
  {
    hide Raw, Read32, Read64, ArgHeld;
    TypesCons(f, vs);
    var tys := TypesOf(f, vs);
    if j == 0 {
      assert tys[..0] == [];
    } else {
      ArgsHeldAt(w, f, m, fp, vs[1..], a + SlotSize(TypeOf(f, vs[0])), m', j - 1);
      assert tys[..j][1..] == TypesOf(f, vs[1..])[..j - 1];
    }
  }

  /** The machine while the current call's arguments are being stored. */
  ghost predicate Passing(w: World, s: IrState, m: State, u: State) {
    && Related(w, s, m) && u.State? && u.regs[EBP] == m.regs[EBP] && Saved(u) == Saved(m) && u.regs[ESP] == m.regs[ESP]
    && forall a | !(w.p.limit <= a < s.stack.top.lo) :: Byte(u.mem, a) == Byte(m.mem, a)
  }

  lemma PassingFacts(w: World, s: IrState, m: State, u: State)
    requires Passing(w, s, m, u)
    ensures Here(w, s) && WfFn(TopFn(w, s)) && Geo(TopFn(w, s), u.regs[EBP]) && WorldOk(w) && m.State? && u.State?
    ensures u.regs[EBP] == m.regs[EBP] && Saved(u) == Saved(m) && u.regs[ESP] == m.regs[ESP]
    ensures forall a | !(w.p.limit <= a < s.stack.top.lo) :: Byte(u.mem, a) == Byte(m.mem, a)
    ensures 0 <= w.p.limit <= m.regs[ESP] - 8 && s.stack.top.lo <= s.stack.top.hi && s.stack.top.lo <= W32
    ensures m.regs[ESP] == s.stack.top.lo - Out(TopFn(w, s)) && m.regs[EBP] == Fp(w.p, s.stack.top)
  {
    hide Related, Geo, Out, Vars;
    RelatedTop(w, s, m);
    HelperRoom(w, s, m);
  }

  /** Operands read the same while arguments are being stored. */
  lemma PassingRaw(w: World, s: IrState, m: State, u: State, v: Value, ty: Type)
    requires Passing(w, s, m, u) && WfValue(TopFn(w, s), v, ty)
    ensures Raw(w, TopFn(w, s), u.mem, u.regs[EBP], v) == Raw(w, TopFn(w, s), m.mem, m.regs[EBP], v)
  {
    hide Passing, SlotOf, Vars, WfFn, SlotBytes, SlotBits;
    PassingFacts(w, s, m, u);
    var f, fp := TopFn(w, s), m.regs[EBP];
    RootWf(f, v, ty);
    var root := Root(f, v);
    if root.Use? {
      SlotBounds(f, root.r);
      SlotSame(f, m.mem, u.mem, fp, root.r);
    }
  }

  /** Storing one word of the outgoing area keeps the passing state. */
  lemma PassingStore(w: World, s: IrState, m: State, u: State, t: State, a: int, x: word)
    requires Passing(w, s, m, u) && t.State? && t.regs[EBP] == u.regs[EBP] && Saved(t) == Saved(u) && t.regs[ESP] == u.regs[ESP]
    requires t.mem == Write32(u.mem, a, x) && w.p.limit <= a && a + 4 <= s.stack.top.lo
    ensures Passing(w, s, m, t)
  {
    hide Related, Write32;
    ReadWrite32(u.mem, a, x);
  }

  ghost predicate PassedWord(w: World, s: IrState, m: State, v: Value, u: State, off: nat, t: State)
    requires Here(w, s) && m.State? && u.State?
  {
    && Passing(w, s, m, t) && t.State?
    && t.mem == Write32(u.mem, u.regs[ESP] as int + off, Raw(w, TopFn(w, s), m.mem, m.regs[EBP], v) % W32)
  }

  lemma PassOneWord(w: World, s: IrState, m: State, v: Value, ty: Type, off: nat, u: State)
    requires Here(w, s) && m.State? && u.State? && Passing(w, s, m, u)
    requires WfValue(TopFn(w, s), v, ty) && OneWord(ty) && u.regs[ESP] as int + off + 4 <= s.stack.top.lo
    ensures PassedWord(w, s, m, v, u, off,
              Run(w, s.stack.top.fn, [MovePart(TopFn(w, s), EAX, v, 0), Ins(StoreEsp(EAX, off % W32))], u))
  {
    hide Passing, Run, ExecItem, MovePart, Raw, WfFn, WfValue, Write32, ItemSize, Geo;
    PassingFacts(w, s, m, u);
    var f, k := TopFn(w, s), s.stack.top.fn;
    var a, b := MovePart(f, EAX, v, 0), Ins(StoreEsp(EAX, off % W32));
    OneOperand(w, k, f, EAX, v, ty, u);
    PassingRaw(w, s, m, u, v, ty);
    var u1 := Run(w, k, [a], u);
    RunThen(w, k, [a], b, u);
    StoreEspExec(w, k, EAX, off, u1.(eip := u1.eip + ItemSize(b)));
    assert [a] + [b] == [a, b];
    PassingStore(w, s, m, u, Run(w, k, [a, b], u), u.regs[ESP] as int + off, Raw(w, f, m.mem, m.regs[EBP], v) % W32);
  }

  /** Load one half through %eax and store it in the outgoing area. */
  lemma HalfRun(w: World, k: nat, disp: word, off: nat, u: State)
    requires u.State? && (disp == 0 || disp == 4) && u.regs[EAX] as int + 8 <= W32 && u.regs[ESP] as int + off + 4 <= W32
    ensures var t := Run(w, k, [Ins(LoadAt(EDX, EAX, disp)), Ins(StoreEsp(EDX, off % W32))], u);
      && t.State? && t.regs == u.regs[EDX := Read32(u.mem, u.regs[EAX] + disp)]
      && t.mem == Write32(u.mem, u.regs[ESP] as int + off, Read32(u.mem, u.regs[EAX] + disp))
  {
    hide Run, ExecItem, Read32, Write32, Encode;
    var i, j := LoadAt(EDX, EAX, disp), StoreEsp(EDX, off % W32);
    WordsAreSmall(u.regs[EAX] + disp);
    EbpAddress(u.regs[ESP], off);
    RunTwo(w, k, i, j, u);
  }

  /** Both halves of the eight bytes at %eax, into the outgoing area. */
  lemma HalvesRun(w: World, k: nat, off: nat, x: nat, u: State)
    requires u.State? && u.regs[EAX] as int + 8 <= W32 && u.regs[ESP] as int + off + 8 <= W32
    requires Read64(u.mem, u.regs[EAX]) == x
    requires u.regs[EAX] as int + 8 <= u.regs[ESP] as int + off || u.regs[ESP] as int + off + 8 <= u.regs[EAX]
    ensures var t := Run(w, k, HalvesItems(off), u);
      var a := u.regs[ESP] as int + off;
      && t.State? && t.regs[EBP] == u.regs[EBP] && Saved(t) == Saved(u) && t.regs[ESP] == u.regs[ESP] && x < W64
      && t.mem == Write32(Write32(u.mem, a, x % W32), a + 4, x / W32)
  {
    hide Run, Read32, Read64, Write32;
    var src, a := u.regs[EAX], u.regs[ESP] as int + off;
    var lo := [Ins(LoadAt(EDX, EAX, 0)), Ins(StoreEsp(EDX, off % W32))];
    var hi := [Ins(LoadAt(EDX, EAX, 4)), Ins(StoreEsp(EDX, (off + 4) % W32))];
    Halves(u.mem, src);
    HalfRun(w, k, 0, off, u);
    var u2 := Run(w, k, lo, u);
    ReadWrite32(u.mem, a, x % W32);
    ReadSame(u.mem, u2.mem, src + 4, 4);
    HalfRun(w, k, 4, off + 4, u2);
    RunAppend(w, k, lo, hi, u);
    WideIsSmall(u.mem, src);
  }

  function HalvesItems(off: nat): seq<Item> {
    [Ins(LoadAt(EDX, EAX, 0)), Ins(StoreEsp(EDX, off % W32))]
    + [Ins(LoadAt(EDX, EAX, 4)), Ins(StoreEsp(EDX, (off + 4) % W32))]
  }

  lemma PassArgParts(f: Fn, v: Value, off: nat, pool: word)
    ensures TypeOf(f, v).I64? ==> PassArg(f, v, off, pool) == [AddrToReg(f, EAX, v, pool)] + HalvesItems(off)
    ensures !TypeOf(f, v).I64? ==> PassArg(f, v, off, pool) == [MovePart(f, EAX, v, 0), Ins(StoreEsp(EAX, off % W32))]
    ensures AllStraight(PassArg(f, v, off, pool))
  {
    MoveStraight(f, EAX, v, 0);
  }

  lemma PassTwoWords(w: World, s: IrState, m: State, v: Value, off: nat, pool: word, u: State)
    requires Passing(w, s, m, u) && WfValue(TopFn(w, s), v, I64)
    requires forall j | 0 <= j < |PoolOf(TopFn(w, s), v)| :: Cell(w, s.stack.top, m.mem, pool + 8 * j, PoolOf(TopFn(w, s), v)[j])
    requires u.regs[ESP] as int + off + 8 <= s.stack.top.lo
    ensures var f := TopFn(w, s);
      var t := Run(w, s.stack.top.fn, [AddrToReg(f, EAX, v, pool)] + HalvesItems(off), u);
      var x, a := Raw(w, f, m.mem, m.regs[EBP], v), u.regs[ESP] as int + off;
      && Passing(w, s, m, t) && x < W64
      && t.mem == Write32(Write32(u.mem, a, x % W32), a + 4, x / W32)
  {
    hide Passing, Run, AddrToReg, Raw, WfFn, WfValue, Write32, Read32, Read64, Geo, AddrOf, PoolOf, HalvesItems,
      Related;
    PassingFacts(w, s, m, u);
    var f, k := TopFn(w, s), s.stack.top.fn;
    var x, a := Raw(w, f, m.mem, m.regs[EBP], v), u.regs[ESP] as int + off;
    var src := AddrOf(f, m.regs[EBP], v, pool);
    var first := [AddrToReg(f, EAX, v, pool)];
    PassingRelated(w, s, m, u);
    OperandCell(w, s, m, v, pool);
    CellKept(w, s.stack.top, m.mem, u.mem, src, x);
    AddrRun(w, k, f, EAX, v, pool, u);
    var u1 := Run(w, k, first, u);
    HalvesRun(w, k, off, x, u1);
    RunAppend(w, k, first, HalvesItems(off), u);
    var t := Run(w, k, HalvesItems(off), u1);
    var mid := u1.(mem := Write32(u.mem, a, x % W32));
    PassingStore(w, s, m, u, mid, a, x % W32);
    PassingStore(w, s, m, mid, t, a + 4, x / W32);
  }

  lemma PassingRelated(w: World, s: IrState, m: State, u: State)
    requires Passing(w, s, m, u)
    ensures Related(w, s, m)
  {
    hide Related;
  }

  /** One argument: stored at its offset, with the rest of memory as it was. */
  lemma PassOne(w: World, s: IrState, m: State, v: Value, off: nat, pool: word, u: State)
    requires Passing(w, s, m, u) && WfValue(TopFn(w, s), v, TypeOf(TopFn(w, s), v))
    requires forall j | 0 <= j < |ArgPool(TopFn(w, s), v)| :: Cell(w, s.stack.top, m.mem, pool + 8 * j, ArgPool(TopFn(w, s), v)[j])
    requires u.regs[ESP] as int + off + SlotSize(TypeOf(TopFn(w, s), v)) <= s.stack.top.lo
    ensures var f := TopFn(w, s);
      var t := Run(w, s.stack.top.fn, PassArg(f, v, off, pool), u);
      var a := u.regs[ESP] as int + off;
      && Passing(w, s, m, t) && ArgHeld(w, f, m.mem, m.regs[EBP], v, a, t.mem)
      && forall b | !(a <= b < a + SlotSize(TypeOf(f, v))) :: Byte(t.mem, b) == Byte(u.mem, b)
  {
    hide Passing, Run, AddrToReg, MovePart, Raw, WfFn, WfValue, Write32, Read32, Read64, Geo, PoolOf, HalvesItems,
      Cell, PassArg;
    PassingFacts(w, s, m, u);
    var f, a := TopFn(w, s), u.regs[ESP] as int + off;
    var x := Raw(w, f, m.mem, m.regs[EBP], v);
    PassArgParts(f, v, off, pool);
    if TypeOf(f, v).I64? {
      forall j | 0 <= j < |PoolOf(f, v)| ensures Cell(w, s.stack.top, m.mem, pool + 8 * j, PoolOf(f, v)[j]) {
        assert PoolOf(f, v)[j] == ArgPool(f, v)[j];
      }
      PassTwoWords(w, s, m, v, off, pool, u);
      TwoHalves(u.mem, a, x % W32, x / W32);
    } else {
      PassOneWord(w, s, m, v, TypeOf(f, v), off, u);
      ReadWrite32(u.mem, a, x % W32);
    }
  }

  /** All arguments, each at esp plus the sum of the earlier sizes. */
  lemma {:induction false} PassAll(w: World, s: IrState, m: State, vs: seq<Value>, off: nat, pool: word, u: State)
    requires Passing(w, s, m, u)
    requires forall j | 0 <= j < |vs| :: WfValue(TopFn(w, s), vs[j], TypeOf(TopFn(w, s), vs[j]))
    requires forall j | 0 <= j < |ArgsPool(TopFn(w, s), vs)| ::
      Cell(w, s.stack.top, m.mem, pool + 8 * j, ArgsPool(TopFn(w, s), vs)[j])
    requires u.regs[ESP] as int + off + ArgsSize(TypesOf(TopFn(w, s), vs)) <= s.stack.top.lo
    ensures var f := TopFn(w, s);
      var t := Run(w, s.stack.top.fn, PassArgs(f, vs, off, pool), u);
      var a := u.regs[ESP] as int + off;
      && Passing(w, s, m, t) && ArgsHeld(w, f, m.mem, m.regs[EBP], vs, a, t.mem)
      && forall b | !(a <= b < a + ArgsSize(TypesOf(f, vs))) :: Byte(t.mem, b) == Byte(u.mem, b)
    ensures AllStraight(PassArgs(TopFn(w, s), vs, off, pool))
  {
    hide Passing, Run, Raw, WfFn, WfValue, Read32, Read64, Geo, PassArg, ArgHeld, ArgPool, SlotSize, TypeOf,
      Straight, Cell;
    PassingFacts(w, s, m, u);
    var f, k := TopFn(w, s), s.stack.top.fn;
    if vs == [] {
      RunNone(w, k, u);
    } else {
      var v, tail, size := vs[0], vs[1..], SlotSize(TypeOf(f, vs[0]));
      var next := (pool + 8 * |ArgPool(f, v)|) % W32;
      TypesCons(f, vs);
      ArgsSizeCons(TypeOf(f, v), TypesOf(f, tail));
      FirstCells(w, s, m, vs, pool);
      PassOne(w, s, m, v, off, pool, u);
      var u1 := Run(w, k, PassArg(f, v, off, pool), u);
      PassingFacts(w, s, m, u1);
      PassAll(w, s, m, tail, off + size, next, u1);
      RunAppend(w, k, PassArg(f, v, off, pool), PassArgs(f, tail, off + size, next), u);
      var t := Run(w, k, PassArgs(f, vs, off, pool), u);
      PassingFacts(w, s, m, t);
      ArgHeldSame(w, f, m.mem, m.regs[EBP], v, u.regs[ESP] as int + off, u1.mem, t.mem);
      PassArgParts(f, v, off, pool);
      StraightAppend(PassArg(f, v, off, pool), PassArgs(f, tail, off + size, next));
    }
  }

  lemma ArgHeldSame(w: World, f: Fn, m: Mem, fp: int, v: Value, a: int, m1: Mem, m2: Mem)
    requires ArgHeld(w, f, m, fp, v, a, m1)
    requires forall x | a <= x < a + SlotSize(TypeOf(f, v)) :: Byte(m2, x) == Byte(m1, x)
    ensures ArgHeld(w, f, m, fp, v, a, m2)
  {
    hide Raw, Read32, Read64;
    ReadSame(m1, m2, a, SlotSize(TypeOf(f, v)));
  }

  /** The pool cells of the first argument and of the rest. */
  lemma FirstCells(w: World, s: IrState, m: State, vs: seq<Value>, pool: word)
    requires Here(w, s) && m.State? && vs != []
    requires forall j | 0 <= j < |ArgsPool(TopFn(w, s), vs)| ::
      Cell(w, s.stack.top, m.mem, pool + 8 * j, ArgsPool(TopFn(w, s), vs)[j])
    ensures var f := TopFn(w, s);
      var next := (pool + 8 * |ArgPool(f, vs[0])|) % W32;
      && (forall j | 0 <= j < |ArgPool(f, vs[0])| :: Cell(w, s.stack.top, m.mem, pool + 8 * j, ArgPool(f, vs[0])[j]))
      && (forall j | 0 <= j < |ArgsPool(f, vs[1..])| :: Cell(w, s.stack.top, m.mem, next + 8 * j, ArgsPool(f, vs[1..])[j]))
  {
    hide ArgPool, Read64;
    var f := TopFn(w, s);
    var all, a, b := ArgsPool(f, vs), ArgPool(f, vs[0]), ArgsPool(f, vs[1..]);
    forall j | 0 <= j < |a| ensures Cell(w, s.stack.top, m.mem, pool + 8 * j, a[j]) {
      assert all[j] == a[j];
    }
    forall j | 0 <= j < |b| ensures Cell(w, s.stack.top, m.mem, (pool + 8 * |a|) % W32 + 8 * j, b[j]) {
      assert all[|a| + j] == b[j];
      assert Cell(w, s.stack.top, m.mem, pool + 8 * (|a| + j), b[j]);
      WordsAreSmall(pool + 8 * |a|);
    }
  }
}
