/** 64-bit values as two words: copies, extensions and the pointer-passing helpers. */
module Wide {
  import opened Words
  import opened IrOps
  import opened Machine
  import opened Encoding
  import opened Ir
  import opened Codegen
  import opened Execution
  import opened Arithmetic
  import opened Relation
  import opened Frames
  import opened Placement
  import opened Operands
  import opened Results
  import opened MemoryOps

  lemma TwoHalves(m: Mem, a: int, lo: word, hi: word)
    ensures var m' := Write32(Write32(m, a, lo), a + 4, hi);
      && Read64(m', a) == lo + W32 * hi
      && forall x | x < a || a + 8 <= x :: Byte(m', x) == Byte(m, x)
  {
    hide Write32, Read32;
    var m1 := Write32(m, a, lo);
    ReadWrite32(m, a, lo);
    ReadWrite32(m1, a + 4, hi);
    ReadSame(m1, Write32(m1, a + 4, hi), a, 4);
  }

  /** Eight bytes that an operand pointer may name: outside everything that passing arguments
      and the helper itself overwrite. */
  ghost predicate Cell(w: World, fr: Frame, mem: Mem, a: int, x: nat) {
    0 <= a && a + 8 <= W32 && Read64(mem, a) == x && (a + 8 <= w.p.limit || fr.lo <= a)
  }

  lemma CellKept(w: World, fr: Frame, m: Mem, m': Mem, a: int, x: nat)
    requires Cell(w, fr, m, a, x)
    requires forall b | !(w.p.limit <= b < fr.lo) :: Byte(m', b) == Byte(m, b)
    ensures Cell(w, fr, m', a, x)
  {
    hide Read64;
    ReadSame(m, m', a, 8);
  }

  /** The pool cells of the current instruction. */
  lemma PoolHere(w: World, s: IrState, m: State)
    requires Related(w, s, m)
    ensures forall j | 0 <= j < |InstPool(TopFn(w, s), s.stack.top.pc)| ::
      Cell(w, s.stack.top, m.mem, PoolAddr(w, s.stack.top.fn, s.stack.top.pc) + 8 * j, InstPool(TopFn(w, s), s.stack.top.pc)[j])
  {
    hide StackOk, MemOk, LabelsOk, CodeOk, PlanOk, WorldOk, Pc, Fp, Sp, InstPool, WfFn, Pool, PoolIndex, Read64;
    PoolSlice(w.p, s.stack.top.fn, s.stack.top.pc);
    var pool, q, n := InstPool(TopFn(w, s), s.stack.top.pc), PoolIndex(w.p, s.stack.top.fn, s.stack.top.pc), |Pool(w.p)|;
    FrameBelowTop(w, s, m);
    forall j | 0 <= j < |pool|
      ensures Cell(w, s.stack.top, m.mem, PoolAddr(w, s.stack.top.fn, s.stack.top.pc) + 8 * j, pool[j])
    {
      assert Read64(m.mem, w.pool0 + 8 * (q + j)) == Pool(w.p)[q + j];
    }
  }

  lemma FrameBelowTop(w: World, s: IrState, m: State)
    requires Related(w, s, m)
    ensures s.stack.top.lo <= w.top && s.stack.top.lo <= s.stack.top.hi
  {
    hide Linked, MemOk, PoolOk, Pc, EnvOk, BoolsOk, ReturnAddr, Vars;
  }

  /** A 64-bit operand's address names a cell with the operand's bits. */
  lemma OperandCell(w: World, s: IrState, m: State, v: Value, pool: int)
    requires Related(w, s, m) && WfValue(TopFn(w, s), v, I64)
    requires forall j | 0 <= j < |PoolOf(TopFn(w, s), v)| ::
      Cell(w, s.stack.top, m.mem, pool + 8 * j, PoolOf(TopFn(w, s), v)[j])
    ensures var f, fp := TopFn(w, s), m.regs[EBP];
      Cell(w, s.stack.top, m.mem, AddrOf(f, fp, v, pool), Raw(w, f, m.mem, fp, v)) && Raw(w, f, m.mem, fp, v) < W64
  {
    hide Related, SlotOf, Vars, WfFn, Read64, EnvOk, BoolsOk;
    RelatedTop(w, s, m);
    FrameBelowTop(w, s, m);
    var f, fp := TopFn(w, s), m.regs[EBP];
    AddrHolds(w, f, v, pool, m.mem, fp);
    RootWf(f, v, I64);
    match Root(f, v) {
      case Const(_, Num(n)) =>
        assert PoolOf(f, v)[0] == n;
        assert Cell(w, s.stack.top, m.mem, pool + 8 * 0, n);
      case Use(r) => SlotBounds(f, r);
    }
  }

  // ----- Copying through ecx -----

  lemma RunFour(w: World, k: nat, a: Instr, b: Instr, c: Instr, d: Instr, s: State, s1: State, s2: State, s3: State, s4: State)
    requires s.State? && s1.State? && s2.State? && s3.State?
    requires Exec(a, s.(eip := s.eip + |Encode(a)|)) == s1
    requires Exec(b, s1.(eip := s1.eip + |Encode(b)|)) == s2
    requires Exec(c, s2.(eip := s2.eip + |Encode(c)|)) == s3
    requires Exec(d, s3.(eip := s3.eip + |Encode(d)|)) == s4
    ensures Run(w, k, [Ins(a), Ins(b), Ins(c), Ins(d)], s) == s4
  {
    hide Exec, Encode, Run;
    assert [Ins(a), Ins(b), Ins(c), Ins(d)] == [Ins(a), Ins(b)] + [Ins(c), Ins(d)];
    RunTwo(w, k, a, b, s);
    RunTwo(w, k, c, d, s2);
    RunAppend(w, k, [Ins(a), Ins(b)], [Ins(c), Ins(d)], s);
  }

  /** One word of the copy: load through %eax, store through %edx. */
  lemma CopyWord(s: State, disp: word)
    requires s.State? && (disp == 0 || disp == 4) && s.regs[EAX] + 8 <= W32 && s.regs[EDX] + 8 <= W32
    ensures var v := Read32(s.mem, s.regs[EAX] + disp);
      && Exec(LoadAt(ECX, EAX, disp), s) == s.Set(ECX, v)
      && forall e :: Exec(StoreAt(ECX, EDX, disp), s.Set(ECX, v).(eip := e))
                     == s.Set(ECX, v).(eip := e, mem := Write32(s.mem, s.regs[EDX] + disp, v))
  {
    hide Read32, Write32;
    WordsAreSmall(s.regs[EAX] + disp);
    WordsAreSmall(s.regs[EDX] + disp);
  }

  /** The four-instruction copy moves eight bytes between disjoint places. */
  lemma CopyRun(w: World, k: nat, s: State)
    requires s.State? && s.regs[EAX] + 8 <= W32 && s.regs[EDX] + 8 <= W32
    requires s.regs[EAX] as int + 8 <= s.regs[EDX] || s.regs[EDX] as int + 8 <= s.regs[EAX]
    ensures var t := Run(w, k, COPY64, s);
      var src, dst := s.regs[EAX], s.regs[EDX];
      && t.State? && t.regs[EBP] == s.regs[EBP] && Saved(t) == Saved(s) && t.regs[ESP] == s.regs[ESP]
      && t.mem == Write32(Write32(s.mem, dst, Read32(s.mem, src)), dst + 4, Read32(s.mem, src + 4))
  {
    hide Exec, Encode, Run, Read32, Write32;
    var src, dst := s.regs[EAX], s.regs[EDX];
    var x, y := Read32(s.mem, src), Read32(s.mem, src + 4);
    var m1 := Write32(s.mem, dst, x);
    ReadWrite32(s.mem, dst, x);
    ReadSame(s.mem, m1, src + 4, 4);
    var i, j, p, q := LoadAt(ECX, EAX, 0), StoreAt(ECX, EDX, 0), LoadAt(ECX, EAX, 4), StoreAt(ECX, EDX, 4);
    var s0 := s.(eip := s.eip + |Encode(i)|);
    CopyWord(s0, 0);
    var s1 := s0.Set(ECX, x);
    var s2 := s1.(eip := s1.eip + |Encode(j)|, mem := m1);
    var s2' := s2.(eip := s2.eip + |Encode(p)|);
    CopyWord(s2', 4);
    var s3 := s2'.Set(ECX, y);
    var s4 := s3.(eip := s3.eip + |Encode(q)|, mem := Write32(m1, dst + 4, y));
    RunFour(w, k, i, j, p, q, s, s1, s2, s3, s4);
  }

  // ----- Extension to 64 bits -----

  /** The two words written by an extension to i64 read back as the extended value. */
  lemma ExtWords(sign: bool, from: Type, x: word)
    requires OneWord(from)
    ensures var lo := Extended(from, sign, x);
      var hi: word := if sign && 2 * lo >= W32 then W32 - 1 else 0;
      lo + W32 * hi == EvalExt(sign, from, I64, x % from.Modulus())
  {
    var v := x % from.Modulus();
    if sign {
      var z := Signed(from.Modulus(), v);
      SignedRange(from, v);
      SignedOfWrapped(W32, z);
      if z >= 0 {
        DivModUnique(z, W64, 0, z);
      } else {
        DivModUnique(z, W64, -1, z + W64);
      }
    } else {
      DivModUnique(v, W64, 0, v);
    }
  }

  lemma ExtWideRun(w: World, s: IrState, m: State, sign: bool, from: Type, a: Value)
    requires Related(w, s, m) && TopInst(w, s) == Ext(sign, from, I64, a)
    requires Read(w.p, s.stack.top.env, a).Some?
    ensures Delivers(w, s, m, Run(w, s.stack.top.fn, ExtItems(TopFn(w, s), s.stack.top.pc, sign, from, I64, a), m),
              EvalExt(sign, from, I64, Read(w.p, s.stack.top.env, a).value))
  {
    hide Run, ExecItem, Spill, MovePart, Related, Raw, Extend, Extended, EvalExt, Part, WfFn, Geo, EnvOk, BoolsOk,
      Read32, Write32, Read64, SlotOf, Vars;
    RelatedTop(w, s, m);
    var f, k, i := TopFn(w, s), s.stack.top.fn, s.stack.top.pc;
    var pre, ext := [MovePart(f, EAX, a, 0)], Extend(EAX, sign, from.Bits());
    OneOperand(w, k, f, EAX, a, from, m);
    var u := Run(w, k, pre, m);
    ReadIsRaw(w, f, s.stack.top.env, m.mem, m.regs[EBP], a, from);
    ExtendCorrect(w, k, EAX, sign, from, u);
    RunAppend(w, k, pre, ext, m);
    var u2 := Run(w, k, pre + ext, m);
    ExtWords(sign, from, u.regs[EAX]);
    var at := m.regs[EBP] + SlotOf(f, Res(i));
    var hi: word := if sign && 2 * u2.regs[EAX] >= W32 then W32 - 1 else 0;
    WideTail(w, k, f, i, sign, u2);
    RunAppend(w, k, pre + ext, ExtTail(f, i, sign), m);
    assert pre + ext + ExtTail(f, i, sign) == ExtItems(f, i, sign, from, I64, a);
    TwoHalves(m.mem, at, u2.regs[EAX], hi);
    if i in f.bools {
      WfFnBool(f, i);
      assert false;
    }
    var v := EvalExt(sign, from, I64, Read(w.p, s.stack.top.env, a).value);
    DivModUnique(v, W64, 0, v);
  }

  function ExtTail(f: Fn, i: nat, sign: bool): seq<Item> {
    [Spill(f, EAX, i, 0)] + if sign then [Ins(Cdq), Spill(f, EDX, i, 4)] else [Ins(StoreEbpImm(SlotWord(f, Res(i), 4), 0))]
  }

  /** Writing the low word and the sign or zero word. */
  lemma WideTail(w: World, k: nat, f: Fn, i: nat, sign: bool, u: State)
    requires u.State? && Owner(f, Res(i)) && f.body[i].ResultType().I64? && Geo(f, u.regs[EBP])
    ensures var t := Run(w, k, ExtTail(f, i, sign), u);
      var at := u.regs[EBP] + SlotOf(f, Res(i));
      var hi: word := if sign && 2 * u.regs[EAX] >= W32 then W32 - 1 else 0;
      && t.State? && t.regs[EBP] == u.regs[EBP] && Saved(t) == Saved(u) && t.regs[ESP] == u.regs[ESP]
      && t.mem == Write32(Write32(u.mem, at, u.regs[EAX]), at + 4, hi)
  {
    hide Run, ExecItem, Spill, Geo, Read32, Write32, SlotOf, Vars, SlotWord, ItemSize;
    var sp := Spill(f, EAX, i, 0);
    RunOne(w, k, sp, u);
    SpillExec(w, k, f, EAX, i, 0, u.(eip := u.eip + ItemSize(sp)));
    var u1 := Run(w, k, [sp], u);
    if sign {
      var sp2 := Spill(f, EDX, i, 4);
      RunIns(w, k, Cdq, u1);
      var u2 := Run(w, k, [Ins(Cdq)], u1);
      RunThen(w, k, [Ins(Cdq)], sp2, u1);
      SpillExec(w, k, f, EDX, i, 4, u2.(eip := u2.eip + ItemSize(sp2)));
      assert [Ins(Cdq)] + [sp2] == [Ins(Cdq), sp2];
      RunAppend(w, k, [sp], [Ins(Cdq), sp2], u);
    } else {
      var z := Ins(StoreEbpImm(SlotWord(f, Res(i), 4), 0));
      RunOne(w, k, z, u1);
      SpillZero(w, k, f, i, u1.(eip := u1.eip + ItemSize(z)));
      RunAppend(w, k, [sp], [z], u);
    }
  }

  lemma SpillZero(w: World, k: nat, f: Fn, i: nat, s: State)
    requires Owner(f, Res(i)) && f.body[i].ResultType().I64? && s.State? && Geo(f, s.regs[EBP])
    ensures ExecItem(w, k, Ins(StoreEbpImm(SlotWord(f, Res(i), 4), 0)), s)
            == s.(mem := Write32(s.mem, s.regs[EBP] + SlotOf(f, Res(i)) + 4, 0))
  {
    hide SlotOf, HelperCall, Vars;
    SlotBounds(f, Res(i));
    EbpAddress(s.regs[EBP], SlotOf(f, Res(i)) + 4);
  }

  // ----- 64-bit loads and stores -----

  lemma LoadWideRun(w: World, s: IrState, m: State, at: Value)
    requires Related(w, s, m) && TopInst(w, s) == LoadMem(I64, at)
    requires Read(w.p, s.stack.top.env, at).Some? && Initialised(s.mem, Read(w.p, s.stack.top.env, at).value, 8)
    ensures Delivers(w, s, m, Run(w, s.stack.top.fn, LoadItems(TopFn(w, s), s.stack.top.pc, I64, at), m),
              Read64(s.mem, Read(w.p, s.stack.top.env, at).value))
  {
    hide Run, ExecItem, MovePart, Related, Raw, Part, WfFn, Geo, EnvOk, BoolsOk, Read32, Write32, Read64, SlotOf,
      Vars, COPY64, Initialised, SlotWord, Root, Out, PoolOk, MemOk, StackOk, Fp, Sp;
    RelatedTop(w, s, m);
    var f, k, i := TopFn(w, s), s.stack.top.fn, s.stack.top.pc;
    var a := Read(w.p, s.stack.top.env, at).value;
    var pre, lea := [MovePart(f, EAX, at, 0)], Ins(LeaEbp(EDX, SlotWord(f, Res(i), 0)));
    OneOperand(w, k, f, EAX, at, Ptr, m);
    ReadIsRaw(w, f, s.stack.top.env, m.mem, m.regs[EBP], at, Ptr);
    var u := Run(w, k, pre, m);
    WordsAreSmall(u.regs[EAX]);
    LeaRun(w, k, f, i, u);
    RunAppend(w, k, pre, [lea], m);
    var u2 := Run(w, k, pre + [lea], m);
    SlotApart(w, s, m, a);
    ProgramBytes(w, s, m, a, 8);
    WritableRange(w, s, m, a, 8);
    CopyRun(w, k, u2);
    RunAppend(w, k, pre + [lea], COPY64, m);
    assert pre + [lea] + COPY64 == LoadItems(f, i, I64, at);
    var dst := m.regs[EBP] + SlotOf(f, Res(i));
    TwoHalves(m.mem, dst, Read32(m.mem, a), Read32(m.mem, a + 4));
    ReadSame(m.mem, s.mem, a, 8);
    Halves(m.mem, a);
    if i in f.bools {
      WfFnBool(f, i);
      assert false;
    }
    WideIsSmall(s.mem, a);
    Halves(s.mem, a);
  }

  lemma WideIsSmall(m: Mem, a: int)
    ensures Read64(m, a) % W64 == Read64(m, a) == Read32(m, a) + W32 * Read32(m, a + 4)
  {
    DivModUnique(Read64(m, a), W64, 0, Read64(m, a));
  }

  lemma LeaRun(w: World, k: nat, f: Fn, i: nat, u: State)
    requires u.State? && Owner(f, Res(i)) && Geo(f, u.regs[EBP])
    ensures var t := Run(w, k, [Ins(LeaEbp(EDX, SlotWord(f, Res(i), 0)))], u);
      var at := u.regs[EBP] + SlotOf(f, Res(i));
      0 <= at && at + SlotBytes(f, Res(i)) <= W32 && Kept(u, t) && t.regs == u.regs[EDX := at]
  {
    hide Run, ExecItem, Encode, SlotOf, Vars;
    RunIns(w, k, LeaEbp(EDX, SlotWord(f, Res(i), 0)), u);
    SlotBounds(f, Res(i));
    EbpAddress(u.regs[EBP], SlotOf(f, Res(i)));
  }

  /** Program objects do not overlap the result's slot. */
  lemma SlotApart(w: World, s: IrState, m: State, a: int)
    requires Related(w, s, m) && Initialised(s.mem, a, 8) && Owner(TopFn(w, s), Res(s.stack.top.pc))
    requires TopInst(w, s).ResultType().I64?
    ensures var at := m.regs[EBP] + SlotOf(TopFn(w, s), Res(s.stack.top.pc)); a + 8 <= at || at + 8 <= a
  {
    hide Linked, StackOk, PoolOk, Pc, SlotOf, Vars, EnvOk, BoolsOk, WfFn, WfInst;
    RelatedTop(w, s, m);
    var fr, f := s.stack.top, TopFn(w, s);
    var at := m.regs[EBP] + SlotOf(f, Res(fr.pc));
    SlotBounds(f, Res(fr.pc));
    if at < a + 8 && a < at + 8 {
      var b := if a <= at then at else a;
      assert b in s.mem;
      assert InPrivate(w.p, s.stack, b);
      LinkedData(w);
      PrivateApart(w, s.stack, m.mem, b);
      assert false;
    }
  }

  lemma LinkedData(w: World)
    requires Linked(w)
    ensures Shaped(w.p) && DataOk(w)
  {
    hide DataOk, LabelsOk, CodeOk, WorldOk, PlanOk, WfFn;
  }
}
