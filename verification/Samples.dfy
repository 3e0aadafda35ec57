/** Three small functions, for which the general theorems are worked out down to the registers. */
module Samples {
  import opened Words
  import opened IrOps
  import opened Machine
  import opened Ir
  import opened Freshness

  const BIG := 0x1_0000_0005

  /** Allocates, stores and loads its first argument, switches on the second, compares it, selects a
      factor by the comparison, widens the factor and multiplies. */
  function Scale(): Fn {
    Function([I64, I32], Some(I64),
             [Alloca(8),
              StoreMem(I64, Use(Arg(0)), Use(Res(0))),
              LoadMem(I64, Use(Res(0))),
              Switch(I32, Use(Arg(1)), [(7, 2), (2, 1)], 2),
              ICmp(Slt, I32, Use(Arg(1)), Const(I32, Num(3))),
              Branch(Use(Res(4)), 3, 2),
              Unreachable,
              Select(I32, Use(Res(4)), Const(I32, Num(10)), Const(I32, Num(20))),
              Ext(false, I32, I64, Use(Res(7))),
              Bin(Mul, I64, Use(Res(2)), Use(Res(8))),
              Return(Some(Use(Res(9))))],
             [0, 0, 0, 0, 1, 1, 2, 3, 3, 3, 3], [0, 4, 6, 7], [0, 1, 2, 3, 4, 5, 6, 7, 8, 9, 10], {4})
  }

  /** Calls Scale with a 64-bit constant and its own argument. */
  function Caller(): Fn {
    Function([I32], Some(I64),
             [CallFn(Some(I64), Const(Ptr, Addr(Fun(0), 0)), [Const(I64, Num(BIG)), Use(Arg(0))]), Return(Some(Use(Res(0))))],
             [0, 0], [0], [0, 1], {})
  }

  /** The first argument minus the third, with a 64-bit one between them. */
  function Difference(): Fn {
    Function([I32, I64, I32], Some(I32), [Bin(Sub, I32, Use(Arg(0)), Use(Arg(2))), Return(Some(Use(Res(0))))],
             [0, 0], [0], [0, 1], {})
  }

  function Fns(): seq<Fn> {
    [Scale(), Caller(), Difference()]
  }

  // ----- The functions are well-formed -----

  lemma ScaleEntry()
    ensures var f := Scale();
      |f.body| == |f.parent| == 11 && f.params == [I64, I32] && f.ret == Some(I64) && f.starts == [0, 4, 6, 7] && f.bools == {4}
    ensures var f := Scale();
      && f.parent[3] == 0 && f.body[0] == Alloca(8) && f.body[1] == StoreMem(I64, Use(Arg(0)), Use(Res(0)))
      && f.body[2] == LoadMem(I64, Use(Res(0))) && f.body[3] == Switch(I32, Use(Arg(1)), [(7, 2), (2, 1)], 2)
      && f.body[4] == ICmp(Slt, I32, Use(Arg(1)), Const(I32, Num(3)))
  {
  }

  lemma ScaleRest()
    ensures |Scale().body| == |Scale().parent| == 11
    ensures var f := Scale();
      && f.parent[5] == 1 && f.body[5] == Branch(Use(Res(4)), 3, 2) && f.body[6] == Unreachable
      && f.body[7] == Select(I32, Use(Res(4)), Const(I32, Num(10)), Const(I32, Num(20)))
      && f.body[8] == Ext(false, I32, I64, Use(Res(7))) && f.body[9] == Bin(Mul, I64, Use(Res(2)), Use(Res(8)))
      && f.body[10] == Return(Some(Use(Res(9))))
  {
  }

  lemma ScaleTarget(from: nat, to: nat)
    requires to < 4
    ensures Phis(Scale(), to) == [] && WfTarget(Scale(), from, to)
  {
    hide WfValue, IncomingOf, Scale;
    ScaleEntry();
    ScaleRest();
    var f := Scale();
    assert PhisFrom(f, f.starts[to]) == [];
  }

  lemma ArgumentsWf()
    ensures WfValue(Scale(), Use(Arg(0)), I64) && WfValue(Scale(), Use(Arg(1)), I32)
    ensures forall n: nat | n < W32 :: WfValue(Scale(), Const(I32, Num(n)), I32)
  {
    hide Scale;
    ScaleEntry();
  }

  lemma EarlyWf()
    ensures WfValue(Scale(), Use(Res(0)), Ptr) && WfValue(Scale(), Use(Res(2)), I64) && WfValue(Scale(), Use(Res(4)), I1)
  {
    hide Scale;
    ScaleEntry();
  }

  lemma ResultsWf()
    ensures WfValue(Scale(), Use(Res(7)), I32) && WfValue(Scale(), Use(Res(8)), I64) && WfValue(Scale(), Use(Res(9)), I64)
  {
    hide Scale;
    ScaleRest();
  }

  lemma EntryWf()
    ensures WfInst(Scale(), 0) && WfInst(Scale(), 1) && WfInst(Scale(), 2) && WfInst(Scale(), 3) && WfInst(Scale(), 4)
  {
    hide WfTarget, IsBool, WfValue, Scale;
    ScaleEntry();
    ArgumentsWf();
    EarlyWf();
    ScaleTarget(0, 1);
    ScaleTarget(0, 2);
  }

  lemma BranchWf()
    ensures WfInst(Scale(), 5) && WfInst(Scale(), 6) && WfInst(Scale(), 7)
  {
    hide WfTarget, IsBool, WfValue, Scale;
    ScaleEntry();
    ScaleRest();
    ArgumentsWf();
    EarlyWf();
    ScaleTarget(1, 2);
    ScaleTarget(1, 3);
  }

  lemma ReturnWf()
    ensures WfInst(Scale(), 10)
  {
    hide WfTarget, IsBool, WfValue, Scale;
    ScaleEntry();
    ScaleRest();
    ResultsWf();
  }

  lemma TailWf()
    ensures WfInst(Scale(), 8) && WfInst(Scale(), 9)
  {
    hide WfTarget, IsBool, WfValue, Scale;
    ScaleRest();
    EarlyWf();
    ResultsWf();
  }

  lemma ScaleWf()
    ensures WfFn(Scale())
  {
    hide WfInst, Scale;
    ScaleEntry();
    EntryWf();
    BranchWf();
    TailWf();
    ReturnWf();
  }

  lemma ScaleDirect()
    ensures Direct(Scale())
  {
    hide Scale;
    ScaleEntry();
    ScaleRest();
    assert Root(Scale(), Use(Res(4))) == Use(Res(4));
  }

  lemma CallerWf()
    ensures WfFn(Caller()) && Direct(Caller())
  {
  }

  lemma DifferenceWf()
    ensures WfFn(Difference()) && Direct(Difference())
  {
  }

  // ----- Caller's run for the argument 2 -----

  /** The top of Scale's allocas when Caller's own end at hi. */
  function CalleeTop(p: Program, hi: int): int
    requires |p.plan| == 3
  {
    hi - p.plan[1].out - 8 - p.plan[0].vars
  }

  predicate RoomFor(p: Program, hi: int) {
    p.fns == Fns() && |p.plan| == 3 && 0 <= p.limit <= CalleeTop(p, hi) - 8 - p.plan[0].out - 8
  }

  /** Scale at instruction pc, called by Caller. */
  function InScale(p: Program, hi: int, pc: nat, env: Env, lo: int, mem: Mem): IrState
    requires |p.plan| == 3
  {
    Running(Cons(Frame(0, pc, env, lo, CalleeTop(p, hi)), Cons(Frame(1, 0, map[Arg(0) := 2], hi, hi), Nil)), mem)
  }

  function AfterStore(p: Program, hi: int): Mem
    requires |p.plan| == 3
  {
    Write64(map[], CalleeTop(p, hi) - 8, BIG)
  }

  const ENTRY: Env := map[Arg(0) := BIG, Arg(1) := 2]

  function AfterLoad(p: Program, hi: int): Env
    requires RoomFor(p, hi)
  {
    ENTRY[Res(0) := CalleeTop(p, hi) - 8][Res(2) := BIG]
  }

  function AfterMul(p: Program, hi: int): Env
    requires RoomFor(p, hi)
  {
    AfterLoad(p, hi)[Res(4) := 1][Res(7) := 10][Res(8) := 10][Res(9) := 0xa_0000_0032]
  }

  lemma CallReads(p: Program)
    requires p.fns == Fns()
    ensures var env: Env := map[Arg(0) := 2];
      && Read(p, env, Const(Ptr, Addr(Fun(0), 0))) == Some(AddressOf(p, Fun(0))) && FindFn(p, AddressOf(p, Fun(0)), 0) == Some(0)
      && ReadAll(p, env, [Const(I64, Num(BIG)), Use(Arg(0))]) == Some([BIG, 2])
      && TypesOf(Caller(), [Const(I64, Num(BIG)), Use(Arg(0))]) == [I64, I32]
  {
    hide Scale, Difference;
    var a, env: Env := AddressOf(p, Fun(0)), map[Arg(0) := 2];
    DivModUnique(a, W32, 0, a);
    DivModUnique(BIG, W64, 0, BIG);
    var args := [Const(I64, Num(BIG)), Use(Arg(0))];
    var none: seq<nat>, two: seq<nat> := [], [2];
    assert args[1..] == [Use(Arg(0))] && args[1..][1..] == [];
    assert ReadAll(p, env, args[1..][1..]) == Some(none) && [2] + none == two;
    assert ReadAll(p, env, args[1..]) == Some(two) && [BIG] + two == [BIG, 2];
  }

  lemma CallMade(p: Program, hi: int)
    requires RoomFor(p, hi)
    ensures StepCall(p, Frame(1, 0, map[Arg(0) := 2], hi, hi), Nil, map[], Caller(), Caller().body[0])
            == Some(InScale(p, hi, 0, ENTRY, CalleeTop(p, hi), map[]))
  {
    hide Scale, Difference, Read, FindFn, ReadAll, TypesOf;
    ScaleEntry();
    CallReads(p);
    assert ArgEnv([BIG, 2]) == ENTRY;
  }

  lemma CallerCalls(p: Program, hi: int)
    requires RoomFor(p, hi)
    ensures Step(p, false, Running(Cons(Frame(1, 0, map[Arg(0) := 2], hi, hi), Nil), map[]))
            == Some(InScale(p, hi, 0, ENTRY, CalleeTop(p, hi), map[]))
  {
    hide Scale, Difference, StepCall, InScale;
    CallMade(p, hi);
  }

  lemma ScaleAllocates(p: Program, hi: int)
    requires RoomFor(p, hi)
    ensures var top := CalleeTop(p, hi);
      Step(p, false, InScale(p, hi, 0, ENTRY, top, map[])) == Some(InScale(p, hi, 1, ENTRY[Res(0) := top - 8], top - 8, map[]))
  {
    hide Scale, Caller, Difference;
    ScaleEntry();
    assert Drop(map[], CalleeTop(p, hi) - 8, CalleeTop(p, hi)) == map[];
  }

  lemma ScaleStores(p: Program, hi: int)
    requires RoomFor(p, hi)
    ensures var lo := CalleeTop(p, hi) - 8;
      Step(p, false, InScale(p, hi, 1, ENTRY[Res(0) := lo], lo, map[]))
      == Some(InScale(p, hi, 2, ENTRY[Res(0) := lo], lo, AfterStore(p, hi)))
  {
    hide Scale, Caller, Difference, Write64;
    ScaleEntry();
  }

  lemma ScaleLoads(p: Program, hi: int)
    requires RoomFor(p, hi)
    ensures var lo := CalleeTop(p, hi) - 8;
      Step(p, false, InScale(p, hi, 2, ENTRY[Res(0) := lo], lo, AfterStore(p, hi)))
      == Some(InScale(p, hi, 3, AfterLoad(p, hi), lo, AfterStore(p, hi)))
  {
    hide Scale, Caller, Difference, Read64, Write64;
    ScaleEntry();
    ReadWrite64(map[], CalleeTop(p, hi) - 8, BIG);
    AllWritten(CalleeTop(p, hi) - 8);
  }

  lemma AllWritten(a: int)
    ensures Initialised(Write64(map[], a, BIG), a, 8)
  {
  }

  lemma ScaleSwitches(p: Program, hi: int, lo: int, mem: Mem)
    requires RoomFor(p, hi)
    ensures Step(p, false, InScale(p, hi, 3, AfterLoad(p, hi), lo, mem)) == Some(InScale(p, hi, 4, AfterLoad(p, hi), lo, mem))
  {
    hide Scale, Caller, Difference;
    ScaleEntry();
    ScaleTarget(0, 1);
    var cases: seq<(nat, nat)> := [(7, 2), (2, 1)];
    assert cases[1..] == [(2, 1)];
    assert SwitchEdge(p, false, Scale(), AfterLoad(p, hi), 0, 2, cases[1..], 2) == Some((AfterLoad(p, hi), 1));
  }

  lemma ScaleCompares(p: Program, hi: int, lo: int, mem: Mem)
    requires RoomFor(p, hi)
    ensures var env := AfterLoad(p, hi)[Res(4) := 1];
      Step(p, false, InScale(p, hi, 4, AfterLoad(p, hi), lo, mem)) == Some(InScale(p, hi, 5, env, lo, mem))
  {
    hide Scale, Caller, Difference;
    ScaleEntry();
  }

  lemma ScaleBranches(p: Program, hi: int, lo: int, mem: Mem)
    requires RoomFor(p, hi)
    ensures var env := AfterLoad(p, hi)[Res(4) := 1];
      Step(p, false, InScale(p, hi, 5, env, lo, mem)) == Some(InScale(p, hi, 7, env, lo, mem))
  {
    hide Scale, Caller, Difference;
    ScaleEntry();
    ScaleRest();
    ScaleTarget(1, 3);
  }

  lemma ScaleSelects(p: Program, hi: int, lo: int, mem: Mem)
    requires RoomFor(p, hi)
    ensures var env := AfterLoad(p, hi)[Res(4) := 1];
      Step(p, false, InScale(p, hi, 7, env, lo, mem)) == Some(InScale(p, hi, 8, env[Res(7) := 10], lo, mem))
  {
    hide Scale, Caller, Difference;
    ScaleRest();
  }

  lemma ScaleWidens(p: Program, hi: int, lo: int, mem: Mem)
    requires RoomFor(p, hi)
    ensures var env := AfterLoad(p, hi)[Res(4) := 1][Res(7) := 10];
      Step(p, false, InScale(p, hi, 8, env, lo, mem)) == Some(InScale(p, hi, 9, env[Res(8) := 10], lo, mem))
  {
    hide Scale, Caller, Difference;
    ScaleRest();
  }

  lemma ScaleMultiplies(p: Program, hi: int, lo: int, mem: Mem)
    requires RoomFor(p, hi)
    ensures var env := AfterLoad(p, hi)[Res(4) := 1][Res(7) := 10][Res(8) := 10];
      Step(p, false, InScale(p, hi, 9, env, lo, mem)) == Some(InScale(p, hi, 10, AfterMul(p, hi), lo, mem))
  {
    hide Scale, Caller, Difference;
    ScaleRest();
  }

  /** Caller once Scale has returned. */
  function AtReturn(p: Program, hi: int, mem: Mem): IrState {
    Running(Cons(Frame(1, 1, map[Arg(0) := 2, Res(0) := 0xa_0000_0032], hi, hi), Nil), mem)
  }

  lemma ScaleReturns(p: Program, hi: int, lo: int, mem: Mem)
    requires RoomFor(p, hi)
    ensures Step(p, false, InScale(p, hi, 10, AfterMul(p, hi), lo, mem)) == Some(AtReturn(p, hi, Drop(mem, lo, CalleeTop(p, hi))))
  {
    hide Scale, Difference, Drop;
    ScaleRest();
    assert map[Arg(0) := 2][Res(0) := 0xa_0000_0032] == map[Arg(0) := 2, Res(0) := 0xa_0000_0032];
  }

  lemma CallerReturns(p: Program, hi: int, mem: Mem)
    requires RoomFor(p, hi)
    ensures Step(p, false, AtReturn(p, hi, mem)) == Some(Done(Some(0xa_0000_0032), Drop(mem, hi, hi)))
  {
    hide Scale, Difference, Drop;
  }
}
