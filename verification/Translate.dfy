/** translate_instruction, translate_bb and translate_function: emission of a function's code,
    byte by byte, adds exactly the items that the placement of the code is computed from. */
module Translate {
  import opened Words
  import opened IrOps
  import opened Machine
  import opened Abi
  import opened Encoding
  import opened Ir
  import opened Codegen
  import opened Templates
  import opened Relation
  import opened Operands
  import opened Emission
  import opened Buffers
  import opened CodeBuffer

  /** Every value with storage has its slot in the table. */
  ghost predicate SlotsHold(slots: map<(nat, Ref), int>, k: nat, f: Fn) {
    forall r | Owner(f, r) :: (k, r) in slots && slots[(k, r)] == SlotOf(f, r)
  }

  /** A well-formed operand can be loaded; a 64-bit one is not an address. */
  lemma ValuePlaced(slots: map<(nat, Ref), int>, k: nat, f: Fn, v: Value, ty: Type)
    requires WfFn(f) && SlotsHold(slots, k, f) && WfValue(f, v, ty)
    ensures Placed(slots, k, f, v) && TypeOf(f, v) == ty && (ty.I64? ==> !IsAddress(f, v))
  {
    hide WfFn, SlotOf;
    RootWf(f, v, ty);
  }

  lemma ResultPlaced(slots: map<(nat, Ref), int>, k: nat, f: Fn, i: nat)
    requires SlotsHold(slots, k, f) && i < |f.body| && !f.body[i].Cast?
    ensures Placed(slots, k, f, Use(Res(i))) && !IsCast(f, Use(Res(i))) && TypeOf(f, Use(Res(i))) == f.body[i].ResultType()
    ensures !IsAddress(f, Use(Res(i)))
  {
    hide SlotOf;
    assert Owner(f, Res(i));
  }

  // ----- Phi copies -----

  /** The copies for the phis from instruction i on. */
  function CopiesFrom(f: Fn, from: nat, i: nat, reg: Reg): seq<Item>
    decreases |f.body| - i
  {
    if i < |f.body| && f.body[i].Phi? && IncomingOf(f, i, from).Some?
    then CopyItems(f, i, IncomingOf(f, i, from).value, reg) + CopiesFrom(f, from, i + 1, reg)
    else []
  }

  lemma {:induction false} CopiesAreCopyAll(f: Fn, from: nat, i: nat, reg: Reg, src: seq<Value>)
    requires EdgeSources(f, PhisFrom(f, i), from) == Some(src)
    ensures CopiesFrom(f, from, i, reg) == CopyAll(f, PhisFrom(f, i), src, reg)
    decreases |f.body| - i
  {
    hide CopyItems;
    var p := PhisFrom(f, i);
    if p != [] {
      assert p[0] == i && p[1..] == PhisFrom(f, i + 1);
      CopiesAreCopyAll(f, from, i + 1, reg, src[1..]);
    }
  }

  lemma EdgeHasSources(f: Fn, from: nat, to: nat)
    requires WfTarget(f, from, to)
    ensures EdgeSources(f, Phis(f, to), from).Some?
  {
    hide WfValue;
  }

  /** handle_phi_nodes */
  method HandlePhiNodes(cb: CodeBuf, k: nat, f: Fn, from: nat, to: nat, tmpReg: Reg)
    requires cb.Valid() && cb.fn == k && WfFn(f) && SlotsHold(cb.stackslots, k, f) && WfTarget(f, from, to)
    modifies cb, cb.code, cb.code.buf
    ensures cb.Valid() && cb.Added(PhiItems(f, from, to, tmpReg), [])
  {
    hide CodeBuf.Valid, WfFn, WfValue, WfTarget, SlotsHold, PhisFrom, CopyItems, CopyAll, IncomingOf, PhiItems;
    EdgeItems(f, from, to, tmpReg);
    var i := f.starts[to];
    ghost var done, n := [], 0;
    while i < |f.body| && f.body[i].Phi?
      invariant cb.Valid() && cb.fn == k && SlotsHold(cb.stackslots, k, f) && cb.Added(done, [])
      invariant i == f.starts[to] + n && n + |PhisFrom(f, i)| == |Phis(f, to)|
      invariant done + CopiesFrom(f, from, i, tmpReg) == PhiItems(f, from, to, tmpReg)
    {
      PhiIncoming(f, from, to, n);
      var incoming := IncomingOf(f, i, from).value;
      CopyPhi(cb, k, f, i, incoming, tmpReg);
      done, n := done + CopyItems(f, i, incoming, tmpReg), n + 1;
      i := i + 1;
    }
  }

  lemma EdgeItems(f: Fn, from: nat, to: nat, reg: Reg)
    requires WfTarget(f, from, to)
    ensures to < |f.starts| && CopiesFrom(f, from, f.starts[to], reg) == PhiItems(f, from, to, reg)
    ensures |PhisFrom(f, f.starts[to])| == |Phis(f, to)|
  {
    hide WfValue, CopyItems, CopyAll;
    EdgeHasSources(f, from, to);
    CopiesAreCopyAll(f, from, f.starts[to], reg, EdgeSources(f, Phis(f, to), from).value);
  }

  /** The n-th phi of the block is followed by the rest of its phis. */
  lemma PhiIncoming(f: Fn, from: nat, to: nat, n: nat)
    requires WfTarget(f, from, to)
    requires var i := f.starts[to] + n; i < |f.body| && f.body[i].Phi? && n + |PhisFrom(f, i)| == |Phis(f, to)|
    ensures var i := f.starts[to] + n;
      && IncomingOf(f, i, from).Some? && WfValue(f, IncomingOf(f, i, from).value, f.body[i].ResultType())
      && |PhisFrom(f, i)| == 1 + |PhisFrom(f, i + 1)|
  {
    hide WfValue;
    assert Phis(f, to)[n] == f.starts[to] + n;
  }

  /** One phi's copy. */
  method CopyPhi(cb: CodeBuf, k: nat, f: Fn, i: nat, incoming: Value, tmpReg: Reg)
    requires cb.Valid() && cb.fn == k && WfFn(f) && SlotsHold(cb.stackslots, k, f)
    requires i < |f.body| && f.body[i].Phi? && WfValue(f, incoming, f.body[i].ResultType())
    modifies cb, cb.code, cb.code.buf
    ensures cb.Valid() && cb.Added(CopyItems(f, i, incoming, tmpReg), [])
  {
    hide CodeBuf.Valid, WfFn, WfValue, SlotsHold, MovePart, Spill, Placed, IsAddress;
    ValuePlaced(cb.stackslots, k, f, incoming, f.body[i].ResultType());
    ResultPlaced(cb.stackslots, k, f, i);
    cb.MovePartToReg(k, f, tmpReg, incoming, 0);
    cb.SpillPart(k, f, tmpReg, i, 0);
    if f.body[i].ResultType().I64? {
      cb.MovePartToReg(k, f, tmpReg, incoming, 4);
      cb.SpillPart(k, f, tmpReg, i, 4);
    }
  }

  method UnconditionalJump(cb: CodeBuf, k: nat, f: Fn, from: nat, to: nat)
    requires cb.Valid() && cb.fn == k && WfFn(f) && SlotsHold(cb.stackslots, k, f) && WfTarget(f, from, to)
    modifies cb, cb.code, cb.code.buf
    ensures cb.Valid() && cb.Added(GotoItems(f, from, to), [])
  {
    hide CodeBuf.Valid, WfFn, SlotsHold, PhiItems;
    HandlePhiNodes(cb, k, f, from, to, EAX);
    cb.PutJump(to, k);
  }

  // ----- Arithmetic and comparison -----

  lemma PosAdvance(base: nat, current: nat, n: nat)
    ensures (base + (current + 8 * n)) % W32 == ((base + current) % W32 + 8 * n) % W32
  {
    ModAdd(base + current, 8 * n, W32);
    ModAdd((base + current) % W32, 8 * n, W32);
    DivModUnique((base + current) % W32, W32, 0, (base + current) % W32);
  }

  /** The address of a value into an outgoing argument. */
  method PassAddress(cb: CodeBuf, k: nat, f: Fn, v: Value, off: word)
    requires cb.Valid() && cb.fn == k && WfFn(f) && SlotsHold(cb.stackslots, k, f)
    requires WfValue(f, v, I64)
    modifies cb, cb.code, cb.code.buf, cb.data, cb.data.buf
    ensures cb.Valid() && cb.Added(PassAddr(f, v, old(cb.data.CurrentPos()), off), PoolOf(f, v))
    ensures cb.data.CurrentPos() == NextPool(f, v, old(cb.data.CurrentPos()))
  {
    hide CodeBuf.Valid, WfFn, WfValue, SlotsHold, MovePart, Spill, Placed, IsAddress, Codegen.AddrToReg, PoolOf;
    ValuePlaced(cb.stackslots, k, f, v, I64);
    cb.AddrToReg(k, f, EAX, v);
    cb.WriteRegToEspOffset(EAX, off);
    PosAdvance(cb.data.base, old(cb.data.current), |PoolOf(f, v)|);
  }

  /** A 64-bit operation is a call of its runtime helper. */
  method TranslateWideBin(cb: CodeBuf, k: nat, f: Fn, i: nat, op: BinOp, a: Value, b: Value)
    requires cb.Valid() && cb.fn == k && WfFn(f) && SlotsHold(cb.stackslots, k, f)
    requires i < |f.body| && f.body[i] == Bin(op, I64, a, b) && WfValue(f, a, I64) && WfValue(f, b, I64)
    requires HArith(op) in cb.helpers && cb.frameCalleesArgsSize >= 12
    modifies cb, cb.code, cb.code.buf, cb.data, cb.data.buf
    ensures cb.Valid()
    ensures cb.Added(BinItems(f, i, op, I64, a, b, old(cb.data.CurrentPos())), PoolOf(f, a) + PoolOf(f, b))
  {
    hide CodeBuf.Valid, WfFn, WfValue, SlotsHold, MovePart, Spill, Placed, IsAddress, Codegen.AddrToReg, PoolOf,
      PassAddr, NextPool;
    ResultPlaced(cb.stackslots, k, f, i);
    NoPool(f, i, cb.data.CurrentPos());
    PassAddress(cb, k, f, Use(Res(i)), 0);
    PassAddress(cb, k, f, a, 4);
    PassAddress(cb, k, f, b, 8);
    cb.PutDirectCall(HArith(op));
  }

  lemma NoPool(f: Fn, i: nat, pool: word)
    requires i < |f.body| && f.body[i].Bin? && f.body[i].ty.I64?
    ensures WfValue(f, Use(Res(i)), I64) && PoolOf(f, Use(Res(i))) == [] && NextPool(f, Use(Res(i)), pool) == pool
  {
    DivModUnique(pool, W32, 0, pool);
  }

  /** The operation on %eax and %ecx. */
  method TranslateOp(cb: CodeBuf, op: BinOp, bits: nat)
    requires cb.Valid() && (bits == 1 || bits == 8 || bits == 16 || bits == 32)
    modifies cb, cb.code, cb.code.buf
    ensures cb.Valid() && cb.Added(OpItems(op, bits), [])
  {
    hide CodeBuf.Valid, Extend, Encode;
    ShiftTemplates();
    match op {
      case Add => cb.PutArithRegReg(ADD, EAX, ECX);
      case Sub => cb.PutArithRegReg(SUB, EAX, ECX);
      case And => cb.PutArithRegReg(AND, EAX, ECX);
      case Or => cb.PutArithRegReg(OR, EAX, ECX);
      case Xor => cb.PutArithRegReg(XOR, EAX, ECX);
      case Mul => cb.PutCode(MulEcx, [0xf7, 0xe1]);
      case Shl => cb.PutCode(ShiftCl(SHL), [0xd3, 0xe0]);
      case LShr =>
        cb.ExtendToI32(EAX, false, bits);
        cb.PutCode(ShiftCl(SHR), [0xd3, 0xe8]);
      case AShr =>
        cb.ExtendToI32(EAX, true, bits);
        cb.PutCode(ShiftCl(SAR), [0xd3, 0xf8]);
      case UDiv => TranslateUnsignedDivision(cb, bits);
      case URem => TranslateUnsignedDivision(cb, bits);
      case SDiv => TranslateSignedDivision(cb, bits);
      case SRem => TranslateSignedDivision(cb, bits);
    }
  }

  method TranslateUnsignedDivision(cb: CodeBuf, bits: nat)
    requires cb.Valid() && (bits == 1 || bits == 8 || bits == 16 || bits == 32)
    modifies cb, cb.code, cb.code.buf
    ensures cb.Valid() && cb.Added(OpItems(UDiv, bits), [])
  {
    hide CodeBuf.Valid, Extend, Encode;
    DivTemplates();
    cb.ExtendToI32(EAX, false, bits);
    cb.ExtendToI32(ECX, false, bits);
    cb.PutCode(Alu(XOR, EDX, EDX), [0x31, 0xd2]);
    cb.PutCode(DivEcx, [0xf7, 0xf1]);
  }

  method TranslateSignedDivision(cb: CodeBuf, bits: nat)
    requires cb.Valid() && (bits == 1 || bits == 8 || bits == 16 || bits == 32)
    modifies cb, cb.code, cb.code.buf
    ensures cb.Valid() && cb.Added(OpItems(SDiv, bits), [])
  {
    hide CodeBuf.Valid, Extend, Encode;
    DivTemplates();
    cb.ExtendToI32(EAX, true, bits);
    cb.ExtendToI32(ECX, true, bits);
    cb.PutCode(Cdq, [0x99]);
    cb.PutCode(IdivEcx, [0xf7, 0xf9]);
  }

  method TranslateBin(cb: CodeBuf, k: nat, f: Fn, i: nat, op: BinOp, ty: Type, a: Value, b: Value)
    requires cb.Valid() && cb.fn == k && WfFn(f) && SlotsHold(cb.stackslots, k, f)
    requires i < |f.body| && f.body[i] == Bin(op, ty, a, b) && WfValue(f, a, ty) && WfValue(f, b, ty) && !ty.I64?
    modifies cb, cb.code, cb.code.buf
    ensures cb.Valid() && forall pool: word :: cb.Added(BinItems(f, i, op, ty, a, b, pool), [])
  {
    hide CodeBuf.Valid, WfFn, WfValue, SlotsHold, MovePart, Spill, Placed, IsAddress, Codegen.AddrToReg, PoolOf,
      OpItems;
    ValuePlaced(cb.stackslots, k, f, a, ty);
    ValuePlaced(cb.stackslots, k, f, b, ty);
    ResultPlaced(cb.stackslots, k, f, i);
    cb.MovePartToReg(k, f, EAX, a, 0);
    cb.MovePartToReg(k, f, ECX, b, 0);
    TranslateOp(cb, op, ty.Bits());
    cb.SpillPart(k, f, ResultReg(op), i, 0);
  }

  method TranslateWideICmp(cb: CodeBuf, k: nat, f: Fn, i: nat, p: Pred, a: Value, b: Value)
    requires cb.Valid() && cb.fn == k && WfFn(f) && SlotsHold(cb.stackslots, k, f)
    requires i < |f.body| && f.body[i] == ICmp(p, I64, a, b) && WfValue(f, a, I64) && WfValue(f, b, I64)
    requires HCompare(p) in cb.helpers && cb.frameCalleesArgsSize >= 8
    modifies cb, cb.code, cb.code.buf, cb.data, cb.data.buf
    ensures cb.Valid()
    ensures cb.Added(ICmpItems(f, i, p, I64, a, b, old(cb.data.CurrentPos())), PoolOf(f, a) + PoolOf(f, b))
  {
    hide CodeBuf.Valid, WfFn, WfValue, SlotsHold, MovePart, Spill, Placed, IsAddress, Codegen.AddrToReg, PoolOf,
      PassAddr, NextPool;
    ResultPlaced(cb.stackslots, k, f, i);
    PassAddress(cb, k, f, a, 0);
    PassAddress(cb, k, f, b, 4);
    cb.PutDirectCall(HCompare(p));
    cb.SpillPart(k, f, EAX, i, 0);
  }

  method TranslateICmp(cb: CodeBuf, k: nat, f: Fn, i: nat, p: Pred, ty: Type, a: Value, b: Value)
    requires cb.Valid() && cb.fn == k && WfFn(f) && SlotsHold(cb.stackslots, k, f)
    requires i < |f.body| && f.body[i] == ICmp(p, ty, a, b) && WfValue(f, a, ty) && WfValue(f, b, ty) && !ty.I64? && !ty.I1?
    modifies cb, cb.code, cb.code.buf
    ensures cb.Valid() && forall pool: word :: cb.Added(ICmpItems(f, i, p, ty, a, b, pool), [])
  {
    hide CodeBuf.Valid, WfFn, WfValue, SlotsHold, MovePart, Spill, Placed, IsAddress, Codegen.AddrToReg, PoolOf,
      CompareItems;
    ValuePlaced(cb.stackslots, k, f, a, ty);
    ValuePlaced(cb.stackslots, k, f, b, ty);
    ResultPlaced(cb.stackslots, k, f, i);
    cb.MovePartToReg(k, f, ECX, a, 0);
    cb.MovePartToReg(k, f, EAX, b, 0);
    TranslateComparison(cb, p, ty.Bits());
    cb.SpillPart(k, f, EDX, i, 0);
  }

  /** The comparison of %ecx with %eax into %dl. */
  method TranslateComparison(cb: CodeBuf, p: Pred, bits: nat)
    requires cb.Valid() && (bits == 1 || bits == 8 || bits == 16 || bits == 32)
    modifies cb, cb.code, cb.code.buf
    ensures cb.Valid() && cb.Added(CompareItems(p, bits), [])
  {
    hide CodeBuf.Valid, Extend, CondCode, Encode;
    cb.ExtendToI32(EAX, p.Signed(), bits);
    cb.ExtendToI32(ECX, p.Signed(), bits);
    PutCompare(cb);
    PutSet(cb, CondFor(p));
  }

  /** cmp %eax, %ecx */
  method PutCompare(cb: CodeBuf)
    requires cb.Valid()
    modifies cb, cb.code, cb.code.buf
    ensures cb.Valid() && cb.Added([Ins(Alu(CMP, ECX, EAX))], [])
  {
    hide CodeBuf.Valid, Encode;
    CompareTemplate();
    cb.PutCode(Alu(CMP, ECX, EAX), [0x39, 0xc1]);
  }

  /** setCC %dl */
  method PutSet(cb: CodeBuf, cc: Cond)
    requires cb.Valid()
    modifies cb, cb.code, cb.code.buf
    ensures cb.Valid() && cb.Added([Ins(SetDl(cc))], [])
  {
    hide CodeBuf.Valid, CondCode;
    cb.PutCode(SetDl(cc), [0x0f, 0x90 + CondCode(cc), 0xc2]);
  }

  // ----- Memory -----

  /** Eight bytes from (%eax) to (%edx). */
  method PutCopy64(cb: CodeBuf)
    requires cb.Valid()
    modifies cb, cb.code, cb.code.buf
    ensures cb.Valid() && cb.Added(COPY64, [])
  {
    hide CodeBuf.Valid, Encode;
    CopyTemplates();
    cb.PutCode(LoadAt(ECX, EAX, 0), [0x8b, 0x08]);
    cb.PutCode(StoreAt(ECX, EDX, 0), [0x89, 0x0a]);
    cb.PutCode(LoadAt(ECX, EAX, 4), [0x8b, 0x48, 0x04]);
    cb.PutCode(StoreAt(ECX, EDX, 4), [0x89, 0x4a, 0x04]);
  }

  method TranslateLoad(cb: CodeBuf, k: nat, f: Fn, i: nat, ty: Type, at: Value)
    requires cb.Valid() && cb.fn == k && WfFn(f) && SlotsHold(cb.stackslots, k, f)
    requires i < |f.body| && f.body[i] == LoadMem(ty, at) && WfValue(f, at, Ptr) && !ty.I1?
    modifies cb, cb.code, cb.code.buf, cb.data, cb.data.buf
    ensures cb.Valid() && cb.Added(LoadItems(f, i, ty, at), [])
  {
    hide CodeBuf.Valid, WfFn, WfValue, SlotsHold, MovePart, Spill, Placed, IsAddress, Codegen.AddrToReg, PoolOf,
      Encode, COPY64;
    ValuePlaced(cb.stackslots, k, f, at, Ptr);
    ResultPlaced(cb.stackslots, k, f, i);
    cb.MovePartToReg(k, f, EAX, at, 0);
    if ty.I64? {
      ResultAddress(f, i, cb.data.CurrentPos());
      cb.AddrToReg(k, f, EDX, Use(Res(i)));
      PutCopy64(cb);
    } else {
      LoadTemplates();
      if SizeOf(ty) == 1 {
        cb.PutCode(LoadByte, [0x8a, 0x00]);
      } else if SizeOf(ty) == 2 {
        cb.PutCode(LoadHalf, [0x66, 0x8b, 0x00]);
      } else {
        cb.PutCode(LoadAt(EAX, EAX, 0), [0x8b, 0x00]);
      }
      cb.SpillPart(k, f, EAX, i, 0);
    }
  }

  lemma ResultAddress(f: Fn, i: nat, pool: word)
    requires i < |f.body| && !f.body[i].Cast?
    ensures forall r: Reg :: Codegen.AddrToReg(f, r, Use(Res(i)), pool) == Ins(LeaEbp(r, SlotWord(f, Res(i), 0)))
    ensures PoolOf(f, Use(Res(i))) == []
  {
  }

  method TranslateStore(cb: CodeBuf, k: nat, f: Fn, ty: Type, v: Value, at: Value)
    requires cb.Valid() && cb.fn == k && WfFn(f) && SlotsHold(cb.stackslots, k, f)
    requires WfValue(f, at, Ptr) && WfValue(f, v, ty) && !ty.I1?
    modifies cb, cb.code, cb.code.buf, cb.data, cb.data.buf
    ensures cb.Valid() && cb.Added(StoreItems(f, ty, v, at, old(cb.data.CurrentPos())), if ty.I64? then PoolOf(f, v) else [])
  {
    hide CodeBuf.Valid, WfFn, WfValue, SlotsHold, MovePart, Spill, Placed, IsAddress, Codegen.AddrToReg, PoolOf,
      Encode, COPY64;
    ValuePlaced(cb.stackslots, k, f, at, Ptr);
    ValuePlaced(cb.stackslots, k, f, v, ty);
    cb.MovePartToReg(k, f, EDX, at, 0);
    if ty.I64? {
      cb.AddrToReg(k, f, EAX, v);
      PutCopy64(cb);
    } else {
      StoreTemplates();
      cb.MovePartToReg(k, f, EAX, v, 0);
      if SizeOf(ty) == 1 {
        cb.PutCode(StoreByte, [0x88, 0x02]);
      } else if SizeOf(ty) == 2 {
        cb.PutCode(StoreHalf, [0x66, 0x89, 0x02]);
      } else {
        cb.PutCode(StoreAt(EAX, EDX, 0), [0x89, 0x02]);
      }
    }
  }

  method TranslateExt(cb: CodeBuf, k: nat, f: Fn, i: nat, sign: bool, from: Type, to: Type, a: Value)
    requires cb.Valid() && cb.fn == k && WfFn(f) && SlotsHold(cb.stackslots, k, f)
    requires i < |f.body| && f.body[i] == Ext(sign, from, to, a) && WfValue(f, a, from) && !from.I64?
    modifies cb, cb.code, cb.code.buf
    ensures cb.Valid() && cb.Added(ExtItems(f, i, sign, from, to, a), [])
  {
    hide CodeBuf.Valid, WfFn, WfValue, SlotsHold, MovePart, Spill, Placed, IsAddress, Codegen.AddrToReg, PoolOf,
      Encode, Extend;
    ValuePlaced(cb.stackslots, k, f, a, from);
    ResultPlaced(cb.stackslots, k, f, i);
    cb.MovePartToReg(k, f, EAX, a, 0);
    cb.ExtendToI32(EAX, sign, from.Bits());
    cb.SpillPart(k, f, EAX, i, 0);
    if to.I64? {
      if sign {
        DivTemplates();
        cb.PutCode(Cdq, [0x99]);
        cb.SpillPart(k, f, EDX, i, 4);
      } else {
        PutZeroHigh(cb, k, f, i);
      }
    }
  }

  /** movl $0, offset(%ebp) */
  method PutZeroHigh(cb: CodeBuf, k: nat, f: Fn, i: nat)
    requires cb.Valid() && Placed(cb.stackslots, k, f, Use(Res(i))) && !IsCast(f, Use(Res(i)))
    modifies cb, cb.code, cb.code.buf
    ensures cb.Valid() && cb.Added([Ins(StoreEbpImm(SlotWord(f, Res(i), 4), 0))], [])
  {
    hide CodeBuf.Valid, Le;
    var disp := (cb.stackslots[(k, Res(i))] + 4) % W32;
    cb.PutCode(StoreEbpImm(disp, 0), [0xc7, 0x85] + Le(disp) + Le(0));
  }

  // ----- Select and branches -----

  /** Condition and first operand, and the test of the condition's low byte. */
  method SelectTest(cb: CodeBuf, k: nat, f: Fn, ty: Type, c: Value, a: Value)
    requires cb.Valid() && cb.fn == k && WfFn(f) && SlotsHold(cb.stackslots, k, f)
    requires WfValue(f, c, I1) && WfValue(f, a, ty) && !ty.I64?
    modifies cb, cb.code, cb.code.buf
    ensures cb.Valid() && cb.Added([MovePart(f, EAX, c, 0), MovePart(f, ECX, a, 0), Ins(TestAl)], [])
  {
    hide CodeBuf.Valid, WfFn, WfValue, SlotsHold, MovePart, CodeBuffer.Placed, IsAddress, Encode, Root;
    ValuePlaced(cb.stackslots, k, f, c, I1);
    ValuePlaced(cb.stackslots, k, f, a, ty);
    TestTemplates();
    cb.MovePartToReg(k, f, EAX, c, 0);
    cb.MovePartToReg(k, f, ECX, a, 0);
    cb.PutCode(TestAl, [0x84, 0xc0]);
  }

  /** The jump over the second move is local: its field is filled in once its target is known. */
  method TranslateSelect(cb: CodeBuf, k: nat, f: Fn, i: nat, ty: Type, c: Value, a: Value, b: Value)
    requires cb.Valid() && cb.fn == k && WfFn(f) && SlotsHold(cb.stackslots, k, f)
    requires i < |f.body| && f.body[i] == Select(ty, c, a, b) && !ty.I64?
    requires WfValue(f, c, I1) && WfValue(f, a, ty) && WfValue(f, b, ty)
    modifies cb, cb.code, cb.code.buf
    ensures cb.Valid() && cb.Added(SelectItems(f, i, c, a, b), [])
  {
    hide CodeBuf.Valid, WfFn, WfValue, SlotsHold, MovePart, Spill, CodeBuffer.Placed, IsAddress, ItemSize, Size, Root;
    ValuePlaced(cb.stackslots, k, f, b, ty);
    ResultPlaced(cb.stackslots, k, f, i);
    SelectTest(cb, k, f, ty, c, a);
    ghost var pre, mv := cb.items, MovePart(f, ECX, b, 0);
    var jumpDest := cb.PutLocalJump();
    cb.MovePartToReg(k, f, ECX, b, 0);
    assert cb.items == pre + [Ins(Jcc(NE, 0)), mv];
    cb.FixLocalJump(jumpDest, pre, mv);
    cb.SpillPart(k, f, ECX, i, 0);
  }

  method TranslateBranch(cb: CodeBuf, k: nat, f: Fn, from: nat, c: Value, yes: nat, no: nat)
    requires cb.Valid() && cb.fn == k && WfFn(f) && SlotsHold(cb.stackslots, k, f)
    requires WfValue(f, c, I1) && WfTarget(f, from, yes) && WfTarget(f, from, no)
    modifies cb, cb.code, cb.code.buf
    ensures cb.Valid() && cb.Added(BranchItems(f, from, c, yes, no), [])
  {
    hide CodeBuf.Valid, WfFn, WfValue, SlotsHold, MovePart, Spill, Placed, IsAddress, Codegen.AddrToReg, PoolOf,
      Encode, PhiItems, GotoItems, WfTarget;
    ValuePlaced(cb.stackslots, k, f, c, I1);
    TestTemplates();
    HandlePhiNodes(cb, k, f, from, yes, EAX);
    cb.MovePartToReg(k, f, EAX, c, 0);
    cb.PutCode(TestBit0, [0xa8, 0x01]);
    cb.PutJumpIf(NE, yes, k);
    UnconditionalJump(cb, k, f, from, no);
  }

  method TranslateSwitch(cb: CodeBuf, k: nat, f: Fn, from: nat, ty: Type, c: Value, cases: seq<(nat, nat)>, default: nat)
    requires cb.Valid() && cb.fn == k && WfFn(f) && SlotsHold(cb.stackslots, k, f)
    requires WfValue(f, c, ty) && IsNumber(ty) && !ty.I64? && WfTarget(f, from, default)
    requires forall j | 0 <= j < |cases| :: WfTarget(f, from, cases[j].1)
    modifies cb, cb.code, cb.code.buf
    ensures cb.Valid() && cb.Added(SwitchItems(f, from, ty, c, cases, default), [])
  {
    hide CodeBuf.Valid, WfFn, WfValue, SlotsHold, MovePart, Spill, Placed, IsAddress, Codegen.AddrToReg, PoolOf,
      Encode, PhiItems, GotoItems, WfTarget, Extend, CaseItems;
    ValuePlaced(cb.stackslots, k, f, c, ty);
    cb.MovePartToReg(k, f, EAX, c, 0);
    cb.ExtendToI32(EAX, false, ty.Bits());
    TranslateCases(cb, k, f, from, cases, default);
  }

  method TranslateCases(cb: CodeBuf, k: nat, f: Fn, from: nat, cases: seq<(nat, nat)>, default: nat)
    requires cb.Valid() && cb.fn == k && WfFn(f) && SlotsHold(cb.stackslots, k, f)
    requires WfTarget(f, from, default) && forall j | 0 <= j < |cases| :: WfTarget(f, from, cases[j].1)
    modifies cb, cb.code, cb.code.buf
    ensures cb.Valid() && cb.Added(CaseItems(f, from, cases, default), [])
  {
    hide CodeBuf.Valid, WfFn, SlotsHold, GotoItems, WfTarget, OneCase, CaseItems;
    var j := 0;
    ghost var done := [];
    assert cases[0..] == cases;
    while j < |cases|
      invariant 0 <= j <= |cases| && cb.Valid() && cb.fn == k && SlotsHold(cb.stackslots, k, f) && cb.Added(done, [])
      invariant done + CaseItems(f, from, cases[j..], default) == CaseItems(f, from, cases, default)
    {
      NextCase(f, from, cases, j, default);
      TranslateCase(cb, k, f, from, cases[j].0, cases[j].1);
      done := done + OneCase(f, from, cases[j].0, cases[j].1);
      j := j + 1;
    }
    NoCases(f, from, cases[j..], default);
    UnconditionalJump(cb, k, f, from, default);
  }

  lemma NoCases(f: Fn, from: nat, cases: seq<(nat, nat)>, default: nat)
    requires cases == []
    ensures CaseItems(f, from, cases, default) == GotoItems(f, from, default)
  {
  }

  lemma NextCase(f: Fn, from: nat, cases: seq<(nat, nat)>, j: nat, default: nat)
    requires j < |cases|
    ensures CaseItems(f, from, cases[j..], default)
            == OneCase(f, from, cases[j].0, cases[j].1) + CaseItems(f, from, cases[j + 1..], default)
  {
    hide PhiItems, GotoItems;
    assert cases[j..][0] == cases[j] && cases[j..][1..] == cases[j + 1..];
  }

  function OneCase(f: Fn, from: nat, val: nat, dest: nat): seq<Item> {
    PhiItems(f, from, dest, EDX) + [Ins(MovImm(ECX, val % W32)), Ins(Alu(CMP, ECX, EAX)), JumpIf(E, dest)]
  }

  method TranslateCase(cb: CodeBuf, k: nat, f: Fn, from: nat, val: nat, dest: nat)
    requires cb.Valid() && cb.fn == k && WfFn(f) && SlotsHold(cb.stackslots, k, f)
    requires WfTarget(f, from, dest)
    modifies cb, cb.code, cb.code.buf
    ensures cb.Valid() && cb.Added(OneCase(f, from, val, dest), [])
  {
    hide CodeBuf.Valid, WfFn, SlotsHold, PhiItems, WfTarget;
    HandlePhiNodes(cb, k, f, from, dest, EDX);
    cb.MoveImmToReg(ECX, val % W32);
    PutCompare(cb);
    cb.PutJumpIf(E, dest, k);
  }

  // ----- Calls, returns and allocas -----

  method TranslateReturn(cb: CodeBuf, k: nat, f: Fn, v: Option<Value>)
    requires cb.Valid() && cb.fn == k && WfFn(f) && SlotsHold(cb.stackslots, k, f)
    requires v.Some? ==> WfValue(f, v.value, TypeOf(f, v.value))
    modifies cb, cb.code, cb.code.buf
    ensures cb.Valid() && cb.Added(ReturnItems(f, v), [])
  {
    hide CodeBuf.Valid, WfFn, WfValue, SlotsHold, MovePart, Spill, Placed, IsAddress, Codegen.AddrToReg, PoolOf,
      Encode;
    if v.Some? {
      ValuePlaced(cb.stackslots, k, f, v.value, TypeOf(f, v.value));
      cb.MovePartToReg(k, f, EAX, v.value, 0);
      if TypeOf(f, v.value).I64? {
        cb.MovePartToReg(k, f, EDX, v.value, 4);
      }
    }
    LeaveTemplates();
    cb.PutCode(Leave, [0xc9]);
    cb.PutCode(Ret, [0xc3]);
  }

  method PassArgument(cb: CodeBuf, k: nat, f: Fn, v: Value, off: nat)
    requires cb.Valid() && cb.fn == k && WfFn(f) && SlotsHold(cb.stackslots, k, f)
    requires WfValue(f, v, TypeOf(f, v))
    modifies cb, cb.code, cb.code.buf, cb.data, cb.data.buf
    ensures cb.Valid() && cb.Added(PassArg(f, v, off, old(cb.data.CurrentPos())), ArgPool(f, v))
    ensures cb.data.CurrentPos() == (old(cb.data.CurrentPos()) + 8 * |ArgPool(f, v)|) % W32
  {
    hide CodeBuf.Valid, WfFn, WfValue, SlotsHold, MovePart, Spill, Placed, IsAddress, Codegen.AddrToReg, PoolOf,
      Encode;
    ValuePlaced(cb.stackslots, k, f, v, TypeOf(f, v));
    if TypeOf(f, v).I64? {
      CopyTemplates();
      cb.AddrToReg(k, f, EAX, v);
      cb.PutCode(LoadAt(EDX, EAX, 0), [0x8b, 0x10]);
      cb.WriteRegToEspOffset(EDX, off);
      cb.PutCode(LoadAt(EDX, EAX, 4), [0x8b, 0x50, 0x04]);
      cb.WriteRegToEspOffset(EDX, off + 4);
    } else {
      cb.MovePartToReg(k, f, EAX, v, 0);
      cb.WriteRegToEspOffset(EAX, off);
    }
    PosAdvance(cb.data.base, old(cb.data.current), |ArgPool(f, v)|);
  }

  method PassArguments(cb: CodeBuf, k: nat, f: Fn, args: seq<Value>)
    requires cb.Valid() && cb.fn == k && WfFn(f) && SlotsHold(cb.stackslots, k, f)
    requires forall j | 0 <= j < |args| :: WfValue(f, args[j], TypeOf(f, args[j]))
    modifies cb, cb.code, cb.code.buf, cb.data, cb.data.buf
    ensures cb.Valid() && cb.Added(PassArgs(f, args, 0, old(cb.data.CurrentPos())), ArgsPool(f, args))
  {
    hide CodeBuf.Valid, WfFn, WfValue, SlotsHold, PassArg, ArgPool, SlotSize, PassArgs, ArgsPool, TypeOf;
    var j: nat, stackOffset: nat := 0, 0;
    ghost var done, pooled, pool := [], [], cb.data.CurrentPos();
    assert args[0..] == args;
    while j < |args|
      invariant 0 <= j <= |args| && cb.Valid() && cb.fn == k && SlotsHold(cb.stackslots, k, f) && cb.Added(done, pooled)
      invariant done + PassArgs(f, args[j..], stackOffset, cb.data.CurrentPos()) == PassArgs(f, args, 0, pool)
      invariant pooled + ArgsPool(f, args[j..]) == ArgsPool(f, args)
    {
      NextArg(f, args, j, stackOffset, cb.data.CurrentPos());
      done, pooled := done + PassArg(f, args[j], stackOffset, cb.data.CurrentPos()), pooled + ArgPool(f, args[j]);
      PassArgument(cb, k, f, args[j], stackOffset);
      stackOffset := stackOffset + SlotSize(TypeOf(f, args[j]));
      j := j + 1;
    }
    NoArgs(f, args[j..], stackOffset, cb.data.CurrentPos());
  }

  lemma NextArg(f: Fn, args: seq<Value>, j: nat, off: nat, pool: word)
    requires j < |args|
    ensures PassArgs(f, args[j..], off, pool)
            == PassArg(f, args[j], off, pool)
               + PassArgs(f, args[j + 1..], off + SlotSize(TypeOf(f, args[j])), (pool + 8 * |ArgPool(f, args[j])|) % W32)
    ensures ArgsPool(f, args[j..]) == ArgPool(f, args[j]) + ArgsPool(f, args[j + 1..])
  {
    hide PassArg, ArgPool, SlotSize, TypeOf;
    assert args[j..][0] == args[j] && args[j..][1..] == args[j + 1..];
  }

  lemma NoArgs(f: Fn, args: seq<Value>, off: nat, pool: word)
    requires args == []
    ensures PassArgs(f, args, off, pool) == [] && ArgsPool(f, args) == []
  {
  }

  method TranslateCall(cb: CodeBuf, k: nat, f: Fn, i: nat, fn: Value, args: seq<Value>)
    requires cb.Valid() && cb.fn == k && WfFn(f) && SlotsHold(cb.stackslots, k, f)
    requires i < |f.body| && f.body[i].CallFn? && WfValue(f, fn, Ptr)
    requires forall j | 0 <= j < |args| :: WfValue(f, args[j], TypeOf(f, args[j]))
    modifies cb, cb.code, cb.code.buf, cb.data, cb.data.buf
    ensures cb.Valid() && cb.Added(CallItems(f, fn, args, old(cb.data.CurrentPos())) + AfterCall(f, i), ArgsPool(f, args))
  {
    hide CodeBuf.Valid, WfFn, WfValue, SlotsHold, MovePart, Spill, Placed, IsAddress, Codegen.AddrToReg, PoolOf,
      Encode, PassArgs, ArgsPool;
    ValuePlaced(cb.stackslots, k, f, fn, Ptr);
    ResultPlaced(cb.stackslots, k, f, i);
    TestTemplates();
    PassArguments(cb, k, f, args);
    cb.MovePartToReg(k, f, EAX, fn, 0);
    cb.PutCode(CallEax, [0xff, 0xd0]);
    cb.SpillPart(k, f, EAX, i, 0);
    if f.body[i].ResultType().I64? {
      cb.SpillPart(k, f, EDX, i, 4);
    }
  }

  method TranslateAlloca(cb: CodeBuf, k: nat, f: Fn, i: nat, size: nat)
    requires cb.Valid() && cb.fn == k && WfFn(f) && SlotsHold(cb.stackslots, k, f)
    requires i < |f.body| && f.body[i] == Alloca(size) && cb.frameCalleesArgsSize >= 0
    modifies cb, cb.code, cb.code.buf
    ensures cb.Valid() && cb.Added(AllocaItems(f, i, size, cb.frameCalleesArgsSize), [])
  {
    hide CodeBuf.Valid, WfFn, SlotsHold, Spill, Placed, Le;
    ResultPlaced(cb.stackslots, k, f, i);
    cb.PutCode(SubEsp(size % W32), [0x81, 0xec] + Le(size % W32));
    if cb.frameCalleesArgsSize != 0 {
      cb.PutCode(LeaEsp(EAX, cb.frameCalleesArgsSize % W32), [0x8d, 0x84, 0x24] + Le(cb.frameCalleesArgsSize % W32));
      cb.SpillPart(k, f, EAX, i, 0);
    } else {
      cb.SpillPart(k, f, ESP, i, 0);
    }
  }

  // ----- Whole instructions -----

  predicate HelpersKnown(helpers: map<Helper, word>) {
    (forall op: BinOp :: HArith(op) in helpers) && forall p: Pred :: HCompare(p) in helpers
  }

  /** The binary operators and comparisons of translate_instruction. */
  method TranslateCompute(cb: CodeBuf, k: nat, f: Fn, i: nat)
    requires cb.Valid() && cb.fn == k && WfFn(f) && SlotsHold(cb.stackslots, k, f)
    requires i < |f.body| == |f.parent| && HelpersKnown(cb.helpers) && cb.frameCalleesArgsSize == Out(f)
    requires f.body[i].Bin? || f.body[i].ICmp?
    modifies cb, cb.code, cb.code.buf, cb.data, cb.data.buf
    ensures cb.Valid() && cb.Added(InstItems(f, i, old(cb.data.CurrentPos()), Out(f)), InstPool(f, i))
  {
    InstWf(f, i);
    OutAtLeast(f);
    hide CodeBuf.Valid, WfFn, WfValue, WfTarget, SlotsHold, HelpersKnown, Out, PoolOf, BinItems, ICmpItems, LoadItems, StoreItems,
      ExtItems, SelectItems, GotoItems, BranchItems, SwitchItems, ReturnItems, CallItems, AllocaItems, AfterCall, IsBool;
    match f.body[i] {
      case Bin(op, ty, a, b) =>
        if ty.I64? {
          HelperKnown(cb.helpers, op, Eq);
          TranslateWideBin(cb, k, f, i, op, a, b);
        } else {
          TranslateBin(cb, k, f, i, op, ty, a, b);
        }
      case ICmp(p, ty, a, b) =>
        if ty.I64? {
          HelperKnown(cb.helpers, Add, p);
          TranslateWideICmp(cb, k, f, i, p, a, b);
        } else {
          TranslateICmp(cb, k, f, i, p, ty, a, b);
        }
    }
  }

  /** The branches of translate_instruction. */
  method TranslateJump(cb: CodeBuf, k: nat, f: Fn, i: nat)
    requires cb.Valid() && cb.fn == k && WfFn(f) && SlotsHold(cb.stackslots, k, f)
    requires i < |f.body| == |f.parent| && (f.body[i].Goto? || f.body[i].Branch? || f.body[i].Switch?)
    modifies cb, cb.code, cb.code.buf
    ensures cb.Valid() && forall pool: word :: cb.Added(InstItems(f, i, pool, Out(f)), InstPool(f, i))
  {
    InstWf(f, i);
    hide CodeBuf.Valid, WfFn, WfValue, WfTarget, SlotsHold, HelpersKnown, Out, PoolOf, BinItems, ICmpItems, LoadItems, StoreItems,
      ExtItems, SelectItems, GotoItems, BranchItems, SwitchItems, ReturnItems, CallItems, AllocaItems, AfterCall, IsBool;
    match f.body[i] {
      case Goto(d) => UnconditionalJump(cb, k, f, f.parent[i], d);
      case Branch(c, y, n) => TranslateBranch(cb, k, f, f.parent[i], c, y, n);
      case Switch(ty, c, cases, d) => TranslateSwitch(cb, k, f, f.parent[i], ty, c, cases, d);
    }
  }

  /** translate_instruction */
  method TranslateInstruction(cb: CodeBuf, k: nat, f: Fn, i: nat)
    requires cb.Valid() && cb.fn == k && WfFn(f) && SlotsHold(cb.stackslots, k, f)
    requires i < |f.body| == |f.parent| && HelpersKnown(cb.helpers) && cb.frameCalleesArgsSize == Out(f)
    modifies cb, cb.code, cb.code.buf, cb.data, cb.data.buf
    ensures cb.Valid() && cb.Added(InstItems(f, i, old(cb.data.CurrentPos()), Out(f)), InstPool(f, i))
  {
    hide CodeBuf.Valid, WfFn, WfValue, WfTarget, SlotsHold, HelpersKnown, Out, PoolOf, BinItems, ICmpItems, LoadItems, StoreItems,
      ExtItems, SelectItems, GotoItems, BranchItems, SwitchItems, ReturnItems, CallItems, AllocaItems, AfterCall, IsBool, InstItems, InstPool;
    if f.body[i].Bin? || f.body[i].ICmp? {
      TranslateCompute(cb, k, f, i);
    } else if f.body[i].Goto? || f.body[i].Branch? || f.body[i].Switch? {
      TranslateJump(cb, k, f, i);
    } else if f.body[i].LoadMem? || f.body[i].StoreMem? || f.body[i].Ext? {
      TranslateMove(cb, k, f, i);
    } else {
      TranslateOther(cb, k, f, i);
    }
  }

  /** The loads, stores and extensions of translate_instruction. */
  method TranslateMove(cb: CodeBuf, k: nat, f: Fn, i: nat)
    requires cb.Valid() && cb.fn == k && WfFn(f) && SlotsHold(cb.stackslots, k, f)
    requires i < |f.body| == |f.parent| && (f.body[i].LoadMem? || f.body[i].StoreMem? || f.body[i].Ext?)
    modifies cb, cb.code, cb.code.buf, cb.data, cb.data.buf
    ensures cb.Valid() && cb.Added(InstItems(f, i, old(cb.data.CurrentPos()), Out(f)), InstPool(f, i))
  {
    InstWf(f, i);
    hide CodeBuf.Valid, WfFn, WfValue, WfTarget, SlotsHold, HelpersKnown, Out, PoolOf, BinItems, ICmpItems, LoadItems, StoreItems,
      ExtItems, SelectItems, GotoItems, BranchItems, SwitchItems, ReturnItems, CallItems, AllocaItems, AfterCall, IsBool;
    match f.body[i] {
      case LoadMem(ty, at) => TranslateLoad(cb, k, f, i, ty, at);
      case StoreMem(ty, v, at) => TranslateStore(cb, k, f, ty, v, at);
      case Ext(sign, from, to, a) => TranslateExt(cb, k, f, i, sign, from, to, a);
    }
  }

  predicate Other(inst: Inst) {
    inst.Select? || inst.Return? || inst.CallFn? || inst.Alloca? || inst.Unreachable? || inst.Cast? || inst.Phi?
  }

  lemma OtherItems(f: Fn, i: nat, pool: word, out: nat)
    requires i < |f.body| == |f.parent|
    ensures var inst := f.body[i];
      && (inst.Select? ==> InstItems(f, i, pool, out) == SelectItems(f, i, inst.c, inst.a, inst.b))
      && (inst.Return? ==> InstItems(f, i, pool, out) == ReturnItems(f, inst.result))
      && (inst.CallFn? ==> InstItems(f, i, pool, out) == CallItems(f, inst.fn, inst.args, pool) + AfterCall(f, i))
      && (inst.Alloca? ==> InstItems(f, i, pool, out) == AllocaItems(f, i, inst.size, out))
      && (inst.Unreachable? ==> InstItems(f, i, pool, out) == [Ins(Hlt)])
      && (inst.Cast? || inst.Phi? ==> InstItems(f, i, pool, out) == [])
    ensures Other(f.body[i]) ==> InstPool(f, i) == if f.body[i].CallFn? then ArgsPool(f, f.body[i].args) else []
  {
    hide SelectItems, ReturnItems, CallItems, AllocaItems, AfterCall, ArgsPool;
  }

  /** The other cases of translate_instruction; casts and phis emit nothing. */
  method TranslateOther(cb: CodeBuf, k: nat, f: Fn, i: nat)
    requires cb.Valid() && cb.fn == k && WfFn(f) && SlotsHold(cb.stackslots, k, f)
    requires i < |f.body| == |f.parent| && cb.frameCalleesArgsSize == Out(f) && Other(f.body[i])
    modifies cb, cb.code, cb.code.buf, cb.data, cb.data.buf
    ensures cb.Valid() && cb.Added(InstItems(f, i, old(cb.data.CurrentPos()), Out(f)), InstPool(f, i))
  {
    hide CodeBuf.Valid, WfFn, SlotsHold, Out, SelectItems, ReturnItems, CallItems, AllocaItems, AfterCall,
      InstItems, InstPool, ArgsPool, WfInst, WfValue, TypeOf;
    OtherItems(f, i, cb.data.CurrentPos(), Out(f));
    OtherOperands(f, i);
    match f.body[i] {
      case Select(ty, c, a, b) => TranslateSelect(cb, k, f, i, ty, c, a, b);
      case Return(v) => TranslateReturn(cb, k, f, v);
      case CallFn(_, fn, args) => TranslateCall(cb, k, f, i, fn, args);
      case Alloca(n) => TranslateAlloca(cb, k, f, i, n);
      case Unreachable => PutHalt(cb);
      case Cast(_, _, _) =>
      case Phi(_, _) =>
    }
  }

  lemma OtherOperands(f: Fn, i: nat)
    requires WfFn(f) && i < |f.body| == |f.parent|
    ensures var inst := f.body[i];
      && (inst.Select? ==> !inst.ty.I64? && WfValue(f, inst.c, I1) && WfValue(f, inst.a, inst.ty) && WfValue(f, inst.b, inst.ty))
      && (inst.Return? && inst.result.Some? ==> WfValue(f, inst.result.value, TypeOf(f, inst.result.value)))
      && (inst.CallFn? ==> WfValue(f, inst.fn, Ptr) && forall j | 0 <= j < |inst.args| :: WfValue(f, inst.args[j], TypeOf(f, inst.args[j])))
  {
    hide WfFn, WfTarget;
    InstWf(f, i);
  }

  method PutHalt(cb: CodeBuf)
    requires cb.Valid()
    modifies cb, cb.code, cb.code.buf
    ensures cb.Valid() && cb.Added([Ins(Hlt)], [])
  {
    hide CodeBuf.Valid, Encode;
    EdgeTemplates();
    cb.PutCode(Hlt, [0xf4]);
  }

  lemma HelperKnown(helpers: map<Helper, word>, op: BinOp, p: Pred)
    requires HelpersKnown(helpers)
    ensures HArith(op) in helpers && HCompare(p) in helpers
  {
  }

  lemma InstWf(f: Fn, i: nat)
    requires WfFn(f) && i < |f.body|
    ensures |f.parent| == |f.body| && WfInst(f, i) && (f.body[i].Return? && f.body[i].result.Some?
            ==> WfValue(f, f.body[i].result.value, TypeOf(f, f.body[i].result.value)))
  {
    hide WfTarget, WfBool;
    assert WfInst(f, i);
  }

  lemma OutAtLeast(f: Fn)
    ensures Out(f) >= 12
  {
  }

  // ----- Frame layout -----

  method GetArgsStackSize(f: Fn, args: seq<Value>) returns (size: nat)
    ensures size == ArgsSize(TypesOf(f, args))
  {
    var types := TypesOf(f, args);
    var j := 0;
    size := 0;
    while j < |args|
      invariant 0 <= j <= |args| && size == ArgsSize(types[..j])
    {
      size := size + SlotSize(TypeOf(f, args[j]));
      assert types[..j + 1][..j] == types[..j];
      j := j + 1;
    }
    assert types[..j] == types;
  }

  /** The outgoing area is as large as the largest call needs, and at least three words. */
  method CalleesArgsSize(f: Fn) returns (size: nat)
    ensures size == Out(f)
  {
    var i := 0;
    size := MIN_CALLEE_ARGS;
    while i < |f.body|
      invariant 0 <= i <= |f.body| && size == OutSize(f, i)
    {
      match f.body[i] {
        case CallFn(_, _, args) =>
          var n := GetArgsStackSize(f, args);
          size := Max(size, n);
        case _ =>
      }
      i := i + 1;
    }
  }

  lemma SlotOfArg(f: Fn, j: nat)
    requires j < |f.params|
    ensures SlotOf(f, Arg(j)) == 8 + ArgsSize(f.params[..j])
    ensures ArgsSize(f.params[..j + 1]) == ArgsSize(f.params[..j]) + SlotSize(f.params[j])
  {
    assert f.params[..j + 1][..j] == f.params[..j];
  }

  /** Only entries of function k have been added. */
  ghost predicate Grown(a: map<(nat, Ref), int>, b: map<(nat, Ref), int>, k: nat) {
    && (forall q: (nat, Ref) | q.0 != k :: q in a <==> q in b)
    && (forall q: (nat, Ref) | q in a :: q in b && b[q] == a[q])
  }

  /** Arguments get slots above the return address. */
  method AssignArguments(cb: CodeBuf, k: nat, f: Fn)
    requires cb.Valid() && forall r :: (k, r) !in cb.stackslots
    modifies cb`stackslots
    ensures cb.Valid() && forall r :: (k, r) in cb.stackslots <==> r.Arg? && r.k < |f.params|
    ensures forall r | (k, r) in cb.stackslots :: cb.stackslots[(k, r)] == SlotOf(f, r) == 8 + StackBytes(f.params[..r.k])
    ensures Grown(old(cb.stackslots), cb.stackslots, k)
  {
    hide SlotOf, ArgsSize, StackBytes;
    var argOffset: nat := 8; // skip return address and frame pointer
    var j := 0;
    ArgsStart(f);
    while j < |f.params|
      invariant 0 <= j <= |f.params| && cb.Valid() && argOffset == 8 + ArgsSize(f.params[..j])
      invariant forall r :: (k, r) in cb.stackslots <==> r.Arg? && r.k < j
      invariant forall r | (k, r) in cb.stackslots :: cb.stackslots[(k, r)] == SlotOf(f, r)
      invariant Grown(old(cb.stackslots), cb.stackslots, k)
    {
      SlotOfArg(f, j);
      cb.stackslots := cb.stackslots[(k, Arg(j)) := argOffset];
      argOffset := argOffset + SlotSize(f.params[j]);
      j := j + 1;
    }
    forall r | (k, r) in cb.stackslots ensures SlotOf(f, r) == 8 + StackBytes(f.params[..r.k]) {
      ArgPosition(f, r.k);
    }
  }

  lemma ArgsStart(f: Fn)
    ensures ArgsSize(f.params[..0]) == 0
  {
  }

  lemma VarsStart(f: Fn)
    ensures VarsSize(f, 0) == 0
  {
  }

  lemma SlotOfRes(f: Fn, i: nat)
    requires i < |f.body|
    ensures SlotOf(f, Res(i)) == 0 - VarsSize(f, i + 1)
    ensures VarsSize(f, i + 1) == VarsSize(f, i) + if f.body[i].Cast? then 0 else SlotSize(f.body[i].ResultType())
  {
  }

  /** Instructions that are not casts get slots below the frame pointer. */
  method AssignResults(cb: CodeBuf, k: nat, f: Fn)
    requires cb.Valid() && forall r :: (k, r) in cb.stackslots <==> r.Arg? && r.k < |f.params|
    requires forall r | (k, r) in cb.stackslots :: cb.stackslots[(k, r)] == SlotOf(f, r)
    modifies cb`stackslots, cb`frameVarsSize
    ensures cb.Valid() && SlotsHold(cb.stackslots, k, f) && cb.frameVarsSize == Vars(f)
    ensures Grown(old(cb.stackslots), cb.stackslots, k)
  {
    hide ArgsSize, SlotOf, VarsSize;
    var varsSize: nat := 0;
    VarsStart(f);
    var i := 0;
    while i < |f.body|
      invariant 0 <= i <= |f.body| && cb.Valid() && varsSize == VarsSize(f, i)
      invariant forall r | Owner(f, r) && (r.Res? ==> r.i < i) :: (k, r) in cb.stackslots
      invariant forall r | (k, r) in cb.stackslots :: cb.stackslots[(k, r)] == SlotOf(f, r) && (r.Res? ==> r.i < i)
      invariant Grown(old(cb.stackslots), cb.stackslots, k)
    {
      SlotOfRes(f, i);
      if !f.body[i].Cast? {
        varsSize := varsSize + SlotSize(f.body[i].ResultType());
        cb.stackslots := cb.stackslots[(k, Res(i)) := 0 - varsSize];
      }
      i := i + 1;
    }
    cb.frameVarsSize := varsSize;
  }

  // ----- Blocks and functions -----

  /** Blocks are not empty and follow one another. */
  ghost predicate Blocks(f: Fn) {
    && |f.starts| > 0 && f.starts[0] == 0
    && (forall b | 0 <= b < |f.starts| :: f.starts[b] < |f.body|)
    && (forall b, c | 0 <= b < c < |f.starts| :: f.starts[b] < f.starts[c])
  }

  function BlockEnd(f: Fn, b: nat): nat {
    if b + 1 < |f.starts| then f.starts[b + 1] else |f.body|
  }

  /** Where the code of instruction i of function k goes when the function's code starts at origin. */
  function Address(origin: int, p: Program, pool0: int, k: nat, i: nat): word
    requires Shaped(p) && k < |p.fns| && i <= |p.fns[k].body|
  {
    (origin + Size(FnItems(p, pool0, k, i))) % W32
  }

  /** The labels of the first n blocks of function k are the addresses of their first instructions,
      and no other label has been added. */
  ghost predicate LabelsUpTo(labels: map<(nat, nat), word>, origin: int, p: Program, pool0: int, k: nat, n: nat,
                             before: map<(nat, nat), word>)
    requires Shaped(p) && k < |p.fns| && n <= |p.fns[k].starts|
  {
    && (forall b | 0 <= b < n && p.fns[k].starts[b] <= |p.fns[k].body| ::
          (k, b) in labels && labels[(k, b)] == Address(origin, p, pool0, k, p.fns[k].starts[b]))
    && (forall c | (k, c) in labels :: c < n)
    && (forall q: (nat, nat) | q.0 != k :: q in labels <==> q in before)
    && (forall q | q in before :: q in labels && labels[q] == before[q])
  }

  lemma FreshLabel(labels: map<(nat, nat), word>, origin: int, p: Program, pool0: int, k: nat, b: nat, before: map<(nat, nat), word>)
    requires Shaped(p) && k < |p.fns| && b <= |p.fns[k].starts| && LabelsUpTo(labels, origin, p, pool0, k, b, before)
    ensures (k, b) !in labels
  {
    hide Address;
  }

  lemma LabelStep(labels: map<(nat, nat), word>, origin: int, p: Program, pool0: int, k: nat, b: nat, before: map<(nat, nat), word>)
    requires Shaped(p) && k < |p.fns| && b < |p.fns[k].starts| && p.fns[k].starts[b] <= |p.fns[k].body|
    requires LabelsUpTo(labels, origin, p, pool0, k, b, before) && (k, b) !in before
    ensures LabelsUpTo(labels[(k, b) := Address(origin, p, pool0, k, p.fns[k].starts[b])], origin, p, pool0, k, b + 1, before)
  {
    hide Address;
  }

  /** The accounts when instruction i of function k is next. */
  ghost predicate AtInstruction(cb: CodeBuf, p: Program, pool0: int, k: nat, i: nat)
    requires Shaped(p) && k < |p.fns| && i <= |p.fns[k].body|
    reads cb, cb.code, cb.code.buf, cb.data, cb.data.buf
  {
    && cb.Valid() && cb.fn == k && SlotsHold(cb.stackslots, k, p.fns[k]) && cb.frameCalleesArgsSize == Out(p.fns[k])
    && cb.items == FnItems(p, pool0, k, i) && cb.pool == FnPool(p.fns[k], i)
    && cb.data.base + |cb.start.data| == pool0 + 8 * PoolIndex(p, k, 0)
  }

  /** Nothing but the accounts and the buffers changes while a block is translated. */
  twostate predicate TablesKept(cb: CodeBuf)
    reads cb
  {
    && cb.start == old(cb.start) && cb.stackslots == old(cb.stackslots) && cb.labels == old(cb.labels)
    && cb.globals == old(cb.globals) && cb.frameVarsSize == old(cb.frameVarsSize)
  }

  lemma NextItems(p: Program, pool0: int, k: nat, i: nat)
    requires Shaped(p) && k < |p.fns| && i < |p.fns[k].body|
    ensures FnItems(p, pool0, k, i + 1)
            == FnItems(p, pool0, k, i) + InstItems(p.fns[k], i, (pool0 + 8 * PoolIndex(p, k, i)) % W32, Out(p.fns[k]))
    ensures FnPool(p.fns[k], i + 1) == FnPool(p.fns[k], i) + InstPool(p.fns[k], i)
    ensures PoolIndex(p, k, i) == PoolIndex(p, k, 0) + |FnPool(p.fns[k], i)|
  {
    hide InstItems, InstPool;
  }

  method TranslateNext(cb: CodeBuf, p: Program, ghost pool0: int, k: nat, i: nat)
    requires Shaped(p) && k < |p.fns| && i < |p.fns[k].body| && WfFn(p.fns[k]) && HelpersKnown(cb.helpers)
    requires |p.fns[k].parent| == |p.fns[k].body| && AtInstruction(cb, p, pool0, k, i)
    modifies cb, cb.code, cb.code.buf, cb.data, cb.data.buf
    ensures AtInstruction(cb, p, pool0, k, i + 1) && TablesKept(cb)
  {
    hide CodeBuf.Valid, WfFn, SlotsHold, HelpersKnown, InstItems, InstPool, Out, FnItems, FnPool, PoolIndex;
    cb.Sizes();
    NextItems(p, pool0, k, i);
    TranslateInstruction(cb, k, p.fns[k], i);
  }

  /** Block b starts at the address the items before it determine. */
  twostate predicate Labelled(cb: CodeBuf, p: Program, pool0: int, k: nat, b: nat)
    requires Shaped(p) && k < |p.fns| && b < |p.fns[k].starts| && p.fns[k].starts[b] <= |p.fns[k].body|
    reads cb
  {
    && cb.start == old(cb.start) && cb.stackslots == old(cb.stackslots) && cb.globals == old(cb.globals)
    && cb.labels == old(cb.labels)[(k, b) := Address(cb.code.base + |cb.start.code|, p, pool0, k, p.fns[k].starts[b])]
  }

  /** translate_bb */
  method TranslateBb(cb: CodeBuf, p: Program, ghost pool0: int, k: nat, b: nat)
    requires Shaped(p) && k < |p.fns| && WfFn(p.fns[k]) && Blocks(p.fns[k]) && HelpersKnown(cb.helpers)
    requires b < |p.fns[k].starts| && (k, b) !in cb.labels && AtInstruction(cb, p, pool0, k, p.fns[k].starts[b])
    modifies cb, cb.code, cb.code.buf, cb.data, cb.data.buf
    ensures AtInstruction(cb, p, pool0, k, BlockEnd(p.fns[k], b)) && Labelled(cb, p, pool0, k, b)
  {
    hide AtInstruction, WfFn, HelpersKnown, FnItems, Size, CodeBuf.Valid;
    var i := p.fns[k].starts[b];
    MakeBlockLabel(cb, p, pool0, k, b);
    while i < BlockEnd(p.fns[k], b)
      invariant p.fns[k].starts[b] <= i <= BlockEnd(p.fns[k], b)
      invariant AtInstruction(cb, p, pool0, k, i) && Labelled(cb, p, pool0, k, b)
    {
      TranslateNext(cb, p, pool0, k, i);
      i := i + 1;
    }
  }

  method MakeBlockLabel(cb: CodeBuf, p: Program, ghost pool0: int, k: nat, b: nat)
    requires Shaped(p) && k < |p.fns| && b < |p.fns[k].starts| && p.fns[k].starts[b] <= |p.fns[k].body|
    requires (k, b) !in cb.labels && AtInstruction(cb, p, pool0, k, p.fns[k].starts[b])
    modifies cb`labels
    ensures AtInstruction(cb, p, pool0, k, p.fns[k].starts[b]) && Labelled(cb, p, pool0, k, b)
  {
    hide CodeBuf.Valid, SlotsHold, FnItems, FnPool, PoolIndex, Out, Size;
    cb.Sizes();
    cb.MakeLabel((k, b));
  }

  /** What translating function k leaves behind, given the state `before` it. */
  ghost predicate Translated(cb: CodeBuf, p: Program, pool0: int, k: nat, before: Buf)
    requires Shaped(p) && k < |p.fns|
    reads cb, cb.code, cb.code.buf, cb.data, cb.data.buf
  {
    && AtInstruction(cb, p, pool0, k, |p.fns[k].body|) && cb.start == before
    && Grown(before.slots, cb.stackslots, k)
    && cb.globals == before.globals[Fun(k) := (cb.code.base + |before.code|) % W32]
    && LabelsUpTo(cb.labels, cb.code.base + |before.code|, p, pool0, k, |p.fns[k].starts|, before.labels)
  }

  /** pushl %ebp; movl %esp, %ebp; subl $frame_size, %esp */
  method PutProlog(cb: CodeBuf, f: Fn)
    requires cb.Valid() && cb.frameVarsSize == Vars(f) && cb.frameCalleesArgsSize == Out(f)
    modifies cb, cb.code, cb.code.buf
    ensures cb.Valid() && cb.Added(Prolog(f), [])
  {
    hide CodeBuf.Valid, VarsSize, OutSize, Le;
    var frameSize := cb.frameVarsSize + cb.frameCalleesArgsSize;
    cb.PutCode(PushEbp, [0x55]);
    cb.PutCode(MovReg(EBP, ESP), [0x89, 0xe5]);
    cb.PutCode(SubEsp(frameSize % W32), [0x81, 0xec] + Le(frameSize % W32));
  }

  /** The tables while function k's blocks are translated. */
  ghost predicate Progress(cb: CodeBuf, p: Program, pool0: int, k: nat, b: nat, before: Buf)
    requires Shaped(p) && k < |p.fns| && b <= |p.fns[k].starts|
    reads cb
  {
    && cb.start == before && Grown(before.slots, cb.stackslots, k) && cb.globals == before.globals
    && LabelsUpTo(cb.labels, cb.code.base + |before.code|, p, pool0, k, b, before.labels)
  }

  /** The end of one block is the start of the next. */
  lemma BlocksMeet(f: Fn, b: nat)
    requires Blocks(f) && b < |f.starts|
    ensures f.starts[b] < BlockEnd(f, b) <= |f.body|
    ensures BlockEnd(f, b) == if b + 1 < |f.starts| then f.starts[b + 1] else |f.body|
  {
  }

  /** Frame layout, before any code of function k. */
  method EnterFunction(cb: CodeBuf, p: Program, ghost pool0: int, k: nat)
    requires cb.Separate() && k < |p.fns|
    requires (forall r :: (k, r) !in cb.stackslots) && (forall b :: (k, b) !in cb.labels)
    modifies cb
    ensures cb.Valid() && cb.start == old(cb.Image()) && cb.fn == k && cb.items == [] && cb.pool == []
    ensures SlotsHold(cb.stackslots, k, p.fns[k]) && Grown(old(cb.stackslots), cb.stackslots, k)
    ensures cb.frameVarsSize == Vars(p.fns[k]) && cb.frameCalleesArgsSize == Out(p.fns[k])
    ensures cb.labels == old(cb.labels) && cb.globals == old(cb.globals)
    ensures cb.code.current == |cb.start.code| && cb.data.current == |cb.start.data|
  {
    hide CodeBuf.Valid, SlotsHold, VarsSize, OutSize;
    cb.Begin(k);
    cb.Sizes();
    var n := CalleesArgsSize(p.fns[k]);
    cb.SetCalleesArgsSize(n);
    AssignArguments(cb, k, p.fns[k]);
    AssignResults(cb, k, p.fns[k]);
  }

  lemma FirstInstruction(cb: CodeBuf, p: Program, pool0: int, k: nat, before: Buf)
    requires Shaped(p) && k < |p.fns| && cb.Valid() && cb.fn == k && cb.start == before
    requires cb.items == Prolog(p.fns[k]) && cb.pool == []
    requires SlotsHold(cb.stackslots, k, p.fns[k]) && cb.frameCalleesArgsSize == Out(p.fns[k])
    requires cb.data.base + |before.data| == pool0 + 8 * PoolIndex(p, k, 0)
    requires Grown(before.slots, cb.stackslots, k) && cb.globals == before.globals && cb.labels == before.labels
    requires forall b :: (k, b) !in before.labels
    ensures AtInstruction(cb, p, pool0, k, 0) && Progress(cb, p, pool0, k, 0, before)
  {
    hide CodeBuf.Valid, SlotsHold, PoolIndex, Prolog, Out;
  }

  method FinishFunction(cb: CodeBuf, p: Program, ghost pool0: int, k: nat, functionEntry: word, ghost before: Buf)
    requires Shaped(p) && k < |p.fns| && functionEntry == (cb.code.base + |before.code|) % W32
    requires Progress(cb, p, pool0, k, |p.fns[k].starts|, before) && AtInstruction(cb, p, pool0, k, |p.fns[k].body|)
    modifies cb`globals
    ensures Translated(cb, p, pool0, k, before)
  {
    hide CodeBuf.Valid, SlotsHold, PoolIndex, FnItems, FnPool, Out, Size, Grown;
    cb.DefineGlobal(Fun(k), functionEntry);
  }

  /** translate_function: frame layout, prolog, blocks, and the function's address. */
  method TranslateFunction(cb: CodeBuf, p: Program, ghost pool0: int, k: nat)
    requires cb.Separate() && Shaped(p) && k < |p.fns| && WfFn(p.fns[k]) && Blocks(p.fns[k]) && HelpersKnown(cb.helpers)
    requires (forall r :: (k, r) !in cb.stackslots) && (forall b :: (k, b) !in cb.labels)
    requires cb.data.base + cb.data.current == pool0 + 8 * PoolIndex(p, k, 0)
    modifies cb, cb.code, cb.code.buf, cb.data, cb.data.buf
    ensures Translated(cb, p, pool0, k, old(cb.Image()))
  {
    hide CodeBuf.Valid, WfFn, HelpersKnown, AtInstruction, PoolIndex, Address, Grown, FnItems, SlotsHold, Prolog,
      LabelsUpTo, BlockEnd, Out, Vars;
    ghost var before := cb.Image();
    var f := p.fns[k];
    EnterFunction(cb, p, pool0, k);
    var functionEntry := cb.code.CurrentPos();
    PutProlog(cb, f);
    FirstInstruction(cb, p, pool0, k, before);
    var b := 0;
    while b < |f.starts|
      invariant 0 <= b <= |f.starts| && Progress(cb, p, pool0, k, b, before)
      invariant AtInstruction(cb, p, pool0, k, if b < |f.starts| then f.starts[b] else |f.body|)
    {
      BlocksMeet(f, b);
      ghost var labels := cb.labels;
      FreshLabel(labels, cb.code.base + |before.code|, p, pool0, k, b, before.labels);
      TranslateBb(cb, p, pool0, k, b);
      LabelStep(labels, cb.code.base + |before.code|, p, pool0, k, b, before.labels);
      b := b + 1;
    }
    FinishFunction(cb, p, pool0, k, functionEntry, before);
  }
}
