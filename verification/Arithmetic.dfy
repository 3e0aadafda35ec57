/** Arithmetic and comparison on 4-byte slots whose bits above the value's width are garbage. */
module Arithmetic {
  import opened Words
  import opened IrOps
  import opened Machine
  import opened Abi
  import opened Encoding
  import opened Ir
  import opened Codegen
  import opened Execution

  /** Widths that live in one 4-byte slot. */
  predicate OneWord(ty: Type) {
    !ty.I64?
  }

  lemma RunNone(w: World, k: nat, s: State)
    ensures Run(w, k, [], s) == s
  {
  }

  lemma RunOne(w: World, k: nat, it: Item, s: State)
    requires s.State?
    ensures Run(w, k, [it], s) == ExecItem(w, k, it, s.(eip := s.eip + ItemSize(it)))
  {
    hide ExecItem;
    var s' := ExecItem(w, k, it, s.(eip := s.eip + ItemSize(it)));
    assert [it][1..] == [];
    assert Run(w, k, [], s') == s';
  }

  lemma RunThen(w: World, k: nat, a: seq<Item>, it: Item, s: State)
    requires Run(w, k, a, s).State?
    ensures var t := Run(w, k, a, s);
      Run(w, k, a + [it], s) == ExecItem(w, k, it, t.(eip := t.eip + ItemSize(it)))
  {
    hide ExecItem;
    RunAppend(w, k, a, [it], s);
    RunOne(w, k, it, Run(w, k, a, s));
  }

  /** Memory, stack and frame pointer are as before. */
  predicate Kept(s: State, t: State) {
    s.State? && t.State? && t.mem == s.mem && t.regs[ESP] == s.regs[ESP] && t.regs[EBP] == s.regs[EBP] && Saved(t) == Saved(s)
  }

  // ----- Signed readings -----

  lemma SignedRange(ty: Type, x: nat)
    requires x < ty.Modulus()
    ensures 0 - ty.Modulus() <= 2 * Signed(ty.Modulus(), x) < ty.Modulus()
    ensures Signed(ty.Modulus(), x) % ty.Modulus() == x
  {
    var m := ty.Modulus();
    AddMultiple(x, m, -1);
    DivModUnique(x, m, 0, x);
  }

  lemma SignedOfWrapped(m: int, z: int)
    requires m > 0 && -m <= 2 * z < m
    ensures Signed(m, z % m) == z
  {
    if z >= 0 {
      DivModUnique(z, m, 0, z);
    } else {
      DivModUnique(z, m, -1, z + m);
    }
  }

  /** The quotient is no larger than the dividend, and smaller unless the divisor is 1 or -1. */
  lemma TruncDivBound(a: int, b: int)
    requires b != 0
    ensures Abs(TruncDiv(a, b)) <= Abs(a)
    ensures a != 0 && Abs(b) > 1 ==> Abs(TruncDiv(a, b)) < Abs(a)
  {
    var n, d := Abs(a), Abs(b);
    DivLess(n, d, n + 1);
    DivModPositive(n, d);
    if n > 0 && d > 1 {
      QuotientSmaller(n, d);
    }
  }

  lemma QuotientSmaller(n: nat, d: nat)
    requires n > 0 && d > 1
    ensures n / d < n
  {
    var q := n / d;
    assert n == d * q + n % d;
    MulMono(q, 2, d);
    assert q * d == d * q;
  }

  // ----- extend_to_i32 -----

  /** What extend_to_i32 makes of a word whose low bits hold the value. */
  function Extended(ty: Type, sign: bool, x: word): word
    requires OneWord(ty)
  {
    var v := x % ty.Modulus();
    if sign then Signed(ty.Modulus(), v) % W32 else v
  }

  lemma ShiftPair(x: word)
    ensures ShiftResult(SAR, ShiftResult(SHL, x, 31), 31) == if x % 2 == 1 then W32 - 1 else 0
  {
    Pow2Widths();
    assert Pow2(31) == W32 / 2;
    var h := W32 / 2;
    var y := ShiftUp(x, 31) % W32;
    assert ShiftUp(x, 31) == W32 * (x / 2) + h * (x % 2);
    AddMultiple(h * (x % 2), W32, x / 2);
    assert y == h * (x % 2);
    if x % 2 == 1 {
      assert Signed(W32, y) == -h;
      DivModUnique(-h, h, -1, 0);
      assert ShiftDown(-h, 31) == -1;
    } else {
      DivModUnique(0, h, 0, 0);
      assert ShiftDown(0, 31) == 0;
    }
  }

  /** One instruction, run as an item. */
  lemma RunIns(w: World, k: nat, i: Instr, s: State)
    requires s.State?
    ensures Run(w, k, [Ins(i)], s) == Exec(i, s.(eip := s.eip + |Encode(i)|))
  {
    hide Exec, Encode, HelperCall;
    RunOne(w, k, Ins(i), s);
  }

  lemma RunTwo(w: World, k: nat, i: Instr, j: Instr, s: State)
    requires s.State? && Exec(i, s.(eip := s.eip + |Encode(i)|)).State?
    ensures var t := Exec(i, s.(eip := s.eip + |Encode(i)|));
      Run(w, k, [Ins(i), Ins(j)], s) == Exec(j, t.(eip := t.eip + |Encode(j)|))
  {
    hide Exec, Encode, ExecItem;
    assert [Ins(i), Ins(j)] == [Ins(i)] + [Ins(j)];
    RunAppend(w, k, [Ins(i)], [Ins(j)], s);
    RunIns(w, k, i, s);
    RunIns(w, k, j, Exec(i, s.(eip := s.eip + |Encode(i)|)));
  }

  lemma ExtendOneBit(w: World, k: nat, reg: Reg, s: State)
    requires s.State? && reg < 3
    ensures var t := Run(w, k, [Ins(Shl31(reg)), Ins(Sar31(reg))], s);
      && Kept(s, t) && t.regs == s.regs[reg := if s.regs[reg] % 2 == 1 then W32 - 1 else 0]
  {
    hide Encode, ExecItem, ShiftResult;
    ShiftPair(s.regs[reg]);
    RunTwo(w, k, Shl31(reg), Sar31(reg), s);
  }

  lemma ExtendOther(w: World, k: nat, reg: Reg, sign: bool, ty: Type, s: State)
    requires s.State? && reg < 3 && (ty.I8? || ty.I16? || (ty.I1? && !sign))
    ensures var t := Run(w, k, Extend(reg, sign, ty.Bits()), s);
      && Kept(s, t) && t.regs == s.regs[reg := Extended(ty, sign, s.regs[reg])]
  {
    hide Encode, ExecItem, Run;
    RunIns(w, k, if ty.I1? then And1(reg) else if ty.I8? then ExtendByte(sign, reg) else ExtendHalf(sign, reg), s);
  }

  lemma ExtendStraight(reg: Reg, sign: bool, ty: Type)
    requires reg < 3
    ensures AllStraight(Extend(reg, sign, ty.Bits()))
  {
  }

  /** extend_to_i32 replaces the register by the value's zero or sign extension, whatever was
      above the width, and touches no other register. */
  lemma ExtendCorrect(w: World, k: nat, reg: Reg, sign: bool, ty: Type, s: State)
    requires s.State? && reg < 3 && OneWord(ty)
    ensures var t := Run(w, k, Extend(reg, sign, ty.Bits()), s);
      && Kept(s, t) && t.regs == s.regs[reg := Extended(ty, sign, s.regs[reg])]
  {
    hide Encode, ExecItem, Exec;
    var x := s.regs[reg];
    if ty.Bits() == 32 {
      SignedRange(I32, x);
      assert s.regs[reg := x] == s.regs;
    } else if ty.I1? && sign {
      ExtendOneBit(w, k, reg, s);
    } else {
      ExtendOther(w, k, reg, sign, ty, s);
    }
  }

  // ----- Binary operators -----

  /** Both operands extended, as before a division. */
  lemma ExtendBoth(w: World, k: nat, sign: bool, ty: Type, s: State)
    requires s.State? && OneWord(ty)
    ensures var t := Run(w, k, Extend(EAX, sign, ty.Bits()) + Extend(ECX, sign, ty.Bits()), s);
      && Kept(s, t)
      && t.regs == s.regs[EAX := Extended(ty, sign, s.regs[EAX])][ECX := Extended(ty, sign, s.regs[ECX])]
  {
    hide Encode, ExecItem, Extend, Run, Extended;
    var a, b := Extend(EAX, sign, ty.Bits()), Extend(ECX, sign, ty.Bits());
    RunAppend(w, k, a, b, s);
    ExtendCorrect(w, k, EAX, sign, ty, s);
    ExtendCorrect(w, k, ECX, sign, ty, Run(w, k, a, s));
  }

  /** The run of an operation leaves v, modulo the width, in its result register. */
  predicate Computes(w: World, k: nat, op: BinOp, ty: Type, s: State, v: nat) {
    var t := Run(w, k, OpItems(op, ty.Bits()), s);
    Kept(s, t) && t.regs[ResultReg(op)] % ty.Modulus() == v
  }

  lemma LowOfLogic(op: Logic, ty: Type, x: word, y: word)
    requires OneWord(ty)
    ensures Bitwise(op, x, y, 32) % ty.Modulus() == Bitwise(op, x % ty.Modulus(), y % ty.Modulus(), ty.Bits())
  {
    ModulusPow2(ty);
    BitwiseLow(op, x, y, 32, ty.Bits());
  }

  function AluOp(op: BinOp): Arith
    requires op.Add? || op.Sub? || op.And? || op.Or? || op.Xor?
  {
    match op
    case Add => ADD
    case Sub => SUB
    case And => AND
    case Or => OR
    case Xor => XOR
  }

  /** add and sub need no cleaning. */
  lemma AddSubCorrect(w: World, k: nat, op: BinOp, ty: Type, s: State)
    requires s.State? && OneWord(ty) && (op.Add? || op.Sub?)
    ensures var m := ty.Modulus();
      Computes(w, k, op, ty, s, EvalBin(op, ty, s.regs[EAX] % m, s.regs[ECX] % m).value)
  {
    hide Encode, ExecItem, Run, AluFlags;
    var m, x: word, y: word := ty.Modulus(), s.regs[EAX], s.regs[ECX];
    RunIns(w, k, Alu(AluOp(op), EAX, ECX), s);
    if op.Add? {
      NarrowWord(x + y, ty);
      ModAdd(x, y, m);
    } else {
      NarrowWord(x - y, ty);
      ModSub(x, y, m);
    }
  }

  /** Neither do the logic operations. */
  lemma LogicCorrect(w: World, k: nat, op: BinOp, ty: Type, s: State)
    requires s.State? && OneWord(ty) && (op.And? || op.Or? || op.Xor?)
    ensures var m := ty.Modulus();
      Computes(w, k, op, ty, s, EvalBin(op, ty, s.regs[EAX] % m, s.regs[ECX] % m).value)
  {
    hide Encode, ExecItem, Run, Bitwise, Pow2;
    RunIns(w, k, Alu(AluOp(op), EAX, ECX), s);
    LowOfLogic(LogicOf(op), ty, s.regs[EAX], s.regs[ECX]);
  }

  lemma MulCorrect(w: World, k: nat, ty: Type, s: State)
    requires s.State? && OneWord(ty)
    ensures var m := ty.Modulus();
      Computes(w, k, Mul, ty, s, ((s.regs[EAX] % m) * (s.regs[ECX] % m)) % m)
  {
    hide Encode, ExecItem, Run;
    var x: int, y: int := s.regs[EAX], s.regs[ECX];
    RunIns(w, k, MulEcx, s);
    NarrowWord(x * y, ty);
    ModMul(x, y, ty.Modulus());
  }

  lemma UnsignedDivRun(w: World, k: nat, ty: Type, s: State)
    requires s.State? && OneWord(ty) && s.regs[ECX] % ty.Modulus() != 0
    ensures var m := ty.Modulus();
      var a, b := s.regs[EAX] % m, s.regs[ECX] % m;
      var t := Run(w, k, OpItems(UDiv, ty.Bits()), s);
      Kept(s, t) && t.regs[EAX] == a / b && t.regs[EDX] == a % b
  {
    hide Run, Extend;
    var m := ty.Modulus();
    var ext, div := Extend(EAX, false, ty.Bits()) + Extend(ECX, false, ty.Bits()), [Ins(Alu(XOR, EDX, EDX)), Ins(DivEcx)];
    ExtendBoth(w, k, false, ty, s);
    XorDivRun(w, k, Run(w, k, ext, s));
    RunAppend(w, k, ext, div, s);
  }

  /** xorl %edx, %edx clears edx and changes no other register. */
  lemma XorExec(s: State)
    requires s.State?
    ensures var t := Exec(Alu(XOR, EDX, EDX), s); Kept(s, t) && t.eip == s.eip && t.regs == s.regs[EDX := 0]
  {
    hide AluFlags, Bitwise;
    XorSelf(s.regs[EDX], 32);
  }

  /** t holds quotient and remainder of s's eax and ecx. */
  predicate Divided(s: State, t: State) {
    && s.State? && s.regs[ECX] != 0 && Kept(s, t)
    && t.regs[EAX] == s.regs[EAX] / s.regs[ECX] && t.regs[EDX] == s.regs[EAX] % s.regs[ECX]
  }

  /** With edx zero, divl divides eax by a non-zero ecx and cannot overflow. */
  lemma DivExec(s: State)
    requires s.State? && s.regs[EDX] == 0 && s.regs[ECX] != 0
    ensures Divided(s, Exec(DivEcx, s))
  {
    DivLess(s.regs[EAX], s.regs[ECX], W32);
  }

  lemma XorDivRun(w: World, k: nat, s: State)
    requires s.State? && s.regs[ECX] != 0
    ensures Divided(s, Run(w, k, [Ins(Alu(XOR, EDX, EDX)), Ins(DivEcx)], s))
  {
    hide Run, Exec, Encode;
    var s1 := s.(eip := s.eip + |Encode(Alu(XOR, EDX, EDX))|);
    XorExec(s1);
    var t := Exec(Alu(XOR, EDX, EDX), s1);
    DivExec(t.(eip := t.eip + |Encode(DivEcx)|));
    RunTwo(w, k, Alu(XOR, EDX, EDX), DivEcx, s);
  }

  lemma XorSelf(x: nat, n: nat)
    ensures Bitwise(XorBits, x, x, n) == 0
  {
    if n > 0 {
      XorSelf(x / 2, n - 1);
    }
  }

  /** cltd and idivl on sign-extended operands divide the signed values, truncating toward zero. */
  lemma SignedDivRun(w: World, k: nat, ty: Type, s: State)
    requires s.State? && OneWord(ty)
    requires !SignedDivUndefined(ty.Modulus(), s.regs[EAX] % ty.Modulus(), s.regs[ECX] % ty.Modulus())
    ensures var m := ty.Modulus();
      var a, b := Signed(m, s.regs[EAX] % m), Signed(m, s.regs[ECX] % m);
      var t := Run(w, k, OpItems(SDiv, ty.Bits()), s);
      Kept(s, t) && t.regs[EAX] == TruncDiv(a, b) % W32 && t.regs[EDX] == TruncRem(a, b) % W32
  {
    hide Encode, ExecItem, Run, Extend, TruncDiv, TruncRem, Signed;
    var m := ty.Modulus();
    var a, b := Signed(m, s.regs[EAX] % m), Signed(m, s.regs[ECX] % m);
    var ext := Extend(EAX, true, ty.Bits()) + Extend(ECX, true, ty.Bits());
    ExtendBoth(w, k, true, ty, s);
    var t := Run(w, k, ext, s);
    SignedRange(ty, s.regs[EAX] % m);
    SignedRange(ty, s.regs[ECX] % m);
    SignedOfWrapped(W32, a);
    SignedOfWrapped(W32, b);
    SignExtends(a);
    QuotientFits(ty, s.regs[EAX] % m, s.regs[ECX] % m);
    RunTwo(w, k, Cdq, IdivEcx, t);
    RunAppend(w, k, ext, [Ins(Cdq), Ins(IdivEcx)], s);
  }

  lemma QuotientFits(ty: Type, x: nat, y: nat)
    requires OneWord(ty) && x < ty.Modulus() && y < ty.Modulus() && !SignedDivUndefined(ty.Modulus(), x, y)
    ensures var a, b := Signed(ty.Modulus(), x), Signed(ty.Modulus(), y);
      b != 0 && -W32 / 2 <= TruncDiv(a, b) < W32 / 2
  {
    hide TruncDiv;
    var a, b := Signed(ty.Modulus(), x), Signed(ty.Modulus(), y);
    SignedRange(ty, x);
    SignedRange(ty, y);
    TruncDivBound(a, b);
    UnitQuotient(a);
  }

  lemma UnitQuotient(a: int)
    ensures TruncDiv(a, 1) == a && TruncDiv(a, -1) == -a
  {
  }

  /** edx:eax after cltd reads as the same signed number. */
  lemma SignExtends(a: int)
    requires -W32 <= 2 * a < W32
    ensures var lo := a % W32;
      Signed(W64, (if 2 * lo >= W32 then W32 - 1 else 0) * W32 + lo) == a
  {
    SignedOfWrapped(W32, a);
  }

  lemma QuotientsAreSmall(a: nat, b: nat, m: nat)
    requires 0 < b && a < m
    ensures 0 <= a / b && a / b % m == a / b && a % b % m == a % b
  {
    DivLess(a, b, m);
    DivModPositive(a, b);
    DivModUnique(a / b, m, 0, a / b);
    assert a % b <= a by { assert a == b * (a / b) + a % b; MulMono(b, 0, a / b); }
    DivModUnique(a % b, m, 0, a % b);
  }

  lemma DivCorrect(w: World, k: nat, op: BinOp, ty: Type, s: State)
    requires s.State? && OneWord(ty) && (op.UDiv? || op.URem? || op.SDiv? || op.SRem?)
    requires EvalBin(op, ty, s.regs[EAX] % ty.Modulus(), s.regs[ECX] % ty.Modulus()).Some?
    ensures var m := ty.Modulus();
      Computes(w, k, op, ty, s, EvalBin(op, ty, s.regs[EAX] % m, s.regs[ECX] % m).value)
  {
    hide Encode, ExecItem, Run, Extend;
    var m := ty.Modulus();
    var a, b := s.regs[EAX] % m, s.regs[ECX] % m;
    if op.UDiv? || op.URem? {
      UnsignedDivRun(w, k, ty, s);
      assert OpItems(op, ty.Bits()) == OpItems(UDiv, ty.Bits());
      QuotientsAreSmall(a, b, m);
    } else {
      hide TruncDiv, TruncRem, Signed;
      SignedDivRun(w, k, ty, s);
      assert OpItems(op, ty.Bits()) == OpItems(SDiv, ty.Bits());
      NarrowWord(TruncDiv(Signed(m, a), Signed(m, b)), ty);
      NarrowWord(TruncRem(Signed(m, a), Signed(m, b)), ty);
    }
  }

  /** The count in cl is exact although ecx is never cleaned. */
  lemma ShiftCount(ty: Type, y: word)
    requires OneWord(ty) && !ty.I1? && y % ty.Modulus() < ty.Bits()
    ensures y % W8 % 32 == y % ty.Modulus()
  {
    NarrowTwice(y, ty, I8);
    var v := y % ty.Modulus();
    DivModUnique(v, W8, 0, v);
    DivModUnique(v, 32, 0, v);
  }

  lemma ShiftCorrect(w: World, k: nat, op: BinOp, ty: Type, s: State)
    requires s.State? && OneWord(ty) && !ty.I1? && (op.Shl? || op.LShr? || op.AShr?)
    requires s.regs[ECX] % ty.Modulus() < ty.Bits()
    ensures var m := ty.Modulus();
      Computes(w, k, op, ty, s, EvalBin(op, ty, s.regs[EAX] % m, s.regs[ECX] % m).value)
  {
    hide Encode, ExecItem, Run, Extend, ShiftUp, ShiftDown;
    var m := ty.Modulus();
    var x, b := s.regs[EAX], s.regs[ECX] % m;
    ShiftCount(ty, s.regs[ECX]);
    if op.Shl? {
      RunIns(w, k, ShiftCl(SHL), s);
      NarrowWord(ShiftUp(x, b), ty);
      ShiftUpLow(x, b, m);
    } else {
      var sign := op.AShr?;
      var ext := Extend(EAX, sign, ty.Bits());
      ExtendCorrect(w, k, EAX, sign, ty, s);
      var t := Run(w, k, ext, s);
      RunIns(w, k, ShiftCl(if sign then SAR else SHR), t);
      RunAppend(w, k, ext, [Ins(ShiftCl(if sign then SAR else SHR))], s);
      if sign {
        SignedRange(ty, x % m);
        SignedOfWrapped(W32, Signed(m, x % m));
        NarrowWord(ShiftDown(Signed(m, x % m), b), ty);
      } else {
        DivModUnique(ShiftDown(x % m, b), m, 0, ShiftDown(x % m, b));
      }
    }
  }

  lemma ShiftUpLow(x: nat, b: nat, m: nat)
    requires m > 0
    ensures ShiftUp(x, b) % m == ShiftUp(x % m, b) % m
  {
    ModMulLeft(x, Pow2(b), m);
  }

  /** Every one-word operator computes LLVM's result modulo the width from operands that are
      right modulo the width, for all operands on which LLVM defines it. */
  lemma OpCorrect(w: World, k: nat, op: BinOp, ty: Type, s: State)
    requires s.State? && OneWord(ty) && (ty.I1? ==> op.And? || op.Or? || op.Xor?)
    requires EvalBin(op, ty, s.regs[EAX] % ty.Modulus(), s.regs[ECX] % ty.Modulus()).Some?
    ensures var m := ty.Modulus();
      Computes(w, k, op, ty, s, EvalBin(op, ty, s.regs[EAX] % m, s.regs[ECX] % m).value)
  {
    hide Computes;
    match op {
      case Mul => MulCorrect(w, k, ty, s);
      case UDiv => DivCorrect(w, k, op, ty, s);
      case URem => DivCorrect(w, k, op, ty, s);
      case SDiv => DivCorrect(w, k, op, ty, s);
      case SRem => DivCorrect(w, k, op, ty, s);
      case Shl => ShiftCorrect(w, k, op, ty, s);
      case LShr => ShiftCorrect(w, k, op, ty, s);
      case AShr => ShiftCorrect(w, k, op, ty, s);
      case Add => AddSubCorrect(w, k, op, ty, s);
      case Sub => AddSubCorrect(w, k, op, ty, s);
      case _ => LogicCorrect(w, k, op, ty, s);
    }
  }

  lemma OpStraight(op: BinOp, ty: Type)
    ensures AllStraight(OpItems(op, ty.Bits()))
  {
    hide Extend;
    ExtendStraight(EAX, true, ty);
    ExtendStraight(EAX, false, ty);
    ExtendStraight(ECX, true, ty);
    ExtendStraight(ECX, false, ty);
  }

  /** Logic on words whose low bytes are 0 or 1 gives such a word again. */
  lemma LogicKeepsBool(w: World, k: nat, op: BinOp, s: State)
    requires s.State? && (op.And? || op.Or? || op.Xor?) && s.regs[EAX] % W8 < 2 && s.regs[ECX] % W8 < 2
    ensures var t := Run(w, k, OpItems(op, 1), s); t.State? && t.regs[EAX] % W8 < 2
  {
    hide Encode, ExecItem, Run, Bitwise, Pow2;
    var a, b := s.regs[EAX] % W8, s.regs[ECX] % W8;
    var l := LogicOf(op);
    RunIns(w, k, Alu(AluOp(op), EAX, ECX), s);
    LowOfLogic(l, I8, s.regs[EAX], s.regs[ECX]);
    BitwiseBool(l, a, b, 8);
  }

  // ----- Comparison -----

  /** The flags of x - y decide every predicate, also when the subtraction overflows. */
  lemma FlagsDecide(p: Pred, x: word, y: word)
    ensures Holds(CondFor(p), SubFlags(x, y)) <==> EvalCmp(p, I32, x, y)
  {
    var d := (x - y) % W32;
    if x >= y {
      DivModUnique(x - y, W32, 0, x - y);
    } else {
      DivModUnique(x - y, W32, -1, x - y + W32);
    }
  }

  /** Extending both sides keeps the order, signed or not. */
  lemma ExtendKeepsOrder(p: Pred, ty: Type, x: word, y: word)
    requires OneWord(ty)
    ensures EvalCmp(p, I32, Extended(ty, p.Signed(), x), Extended(ty, p.Signed(), y))
            == EvalCmp(p, ty, x % ty.Modulus(), y % ty.Modulus())
  {
    var m := ty.Modulus();
    SignedRange(ty, x % m);
    SignedRange(ty, y % m);
    SignedOfWrapped(W32, Signed(m, x % m));
    SignedOfWrapped(W32, Signed(m, y % m));
  }

  /** extend-both, cmp and setCC leave the truth of the comparison in dl, whatever garbage lies
      above the width and whether or not the subtraction overflows. */
  lemma CompareCorrect(w: World, k: nat, p: Pred, ty: Type, s: State)
    requires s.State? && OneWord(ty)
    ensures var t := Run(w, k, CompareItems(p, ty.Bits()), s);
      var truth := EvalCmp(p, ty, s.regs[ECX] % ty.Modulus(), s.regs[EAX] % ty.Modulus());
      Kept(s, t) && t.regs[EDX] % W8 == if truth then 1 else 0
  {
    hide Encode, ExecItem, Run, Extend, Extended;
    var sign := p.Signed();
    var ext := Extend(EAX, sign, ty.Bits()) + Extend(ECX, sign, ty.Bits());
    ExtendBoth(w, k, sign, ty, s);
    var t := Run(w, k, ext, s);
    RunTwo(w, k, Alu(CMP, ECX, EAX), SetDl(CondFor(p)), t);
    RunAppend(w, k, ext, [Ins(Alu(CMP, ECX, EAX)), Ins(SetDl(CondFor(p)))], s);
    FlagsDecide(p, t.regs[ECX], t.regs[EAX]);
    ExtendKeepsOrder(p, ty, s.regs[ECX], s.regs[EAX]);
  }

  lemma CompareStraight(p: Pred, ty: Type)
    ensures AllStraight(CompareItems(p, ty.Bits()))
  {
    ExtendStraight(EAX, p.Signed(), ty);
    ExtendStraight(ECX, p.Signed(), ty);
  }

  // ----- 64-bit helpers -----

  /** Each runtime_i64 arithmetic helper computes LLVM's 64-bit result. */
  lemma HelperIsIr(op: BinOp, a: nat, b: nat)
    requires a < W64 && b < W64
    ensures HelperValue(op, a, b) == EvalBin(op, I64, a, b)
  {
  }

  lemma HelperTestIsIr(p: Pred, a: nat, b: nat)
    requires a < W64 && b < W64
    ensures HelperTest(p, a, b) == if EvalCmp(p, I64, a, b) then 1 else 0
  {
  }

  /** The helpers follow the calling convention: the words at esp are the addresses of the result and
      of the two operands, in this order, and a helper changes no other byte at or above them and no
      register but eax, ecx and edx. Below them it may leave anything. */
  lemma HelperConvention(w: World, op: BinOp, s: State)
    requires s.State? && HelperCall(w, HArith(op), s).State?
    ensures var t, args := HelperCall(w, HArith(op), s), StackArgs(s.mem, s.regs[4], [Ptr, Ptr, Ptr]);
      && EvalBin(op, I64, Read64(s.mem, args[1]), Read64(s.mem, args[2])) == Some(Read64(t.mem, args[0]))
      && (forall a | s.regs[4] as int + 12 <= a && !(args[0] <= a < args[0] + 8) :: Byte(t.mem, a) == Byte(s.mem, a))
      && (forall a | w.p.limit <= a < s.regs[4] as int + 12 && !(args[0] <= a < args[0] + 8) && a in w.scratch ::
            Byte(t.mem, a) == w.scratch[a])
      && t.regs[0] == w.junk(s.eip) && t.regs[1] == w.junk(s.eip + 1) && t.regs[2] == w.junk(s.eip + 2)
      && t.eip == s.eip && forall r | 3 <= r < 8 :: t.regs[r] == s.regs[r]
  {
    hide HelperValue, EvalBin, Read64, Read32, Write64;
    var esp: int := s.regs[ESP];
    ThreeWords(s.mem, esp);
    var x, y, z := Read32(s.mem, esp), Read32(s.mem, esp + 4), Read32(s.mem, esp + 8);
    HelperIsIr(op, Read64(s.mem, y), Read64(s.mem, z));
    var v := HelperValue(op, Read64(s.mem, y), Read64(s.mem, z)).value;
    ReadWrite64(Scribble(s.mem, w.scratch, w.p.limit, esp + 12), x, v);
  }

  /** Comparison helpers take the addresses of the operands and answer in eax. */
  lemma CompareConvention(w: World, p: Pred, s: State)
    requires s.State? && HelperCall(w, HCompare(p), s).State?
    ensures var t, args := HelperCall(w, HCompare(p), s), StackArgs(s.mem, s.regs[4], [Ptr, Ptr, Ptr]);
      && t.regs[0] == (if EvalCmp(p, I64, Read64(s.mem, args[0]), Read64(s.mem, args[1])) then 1 else 0)
      && (forall a | s.regs[4] as int + 8 <= a :: Byte(t.mem, a) == Byte(s.mem, a))
      && (forall a | w.p.limit <= a < s.regs[4] as int + 8 && a in w.scratch :: Byte(t.mem, a) == w.scratch[a])
      && t.regs[1] == w.junk(s.eip) && t.regs[2] == w.junk(s.eip + 1)
      && t.eip == s.eip && forall r | 3 <= r < 8 :: t.regs[r] == s.regs[r]
  {
    hide HelperTest, EvalCmp, Read64, Read32;
    var esp: int := s.regs[ESP];
    ThreeWords(s.mem, esp);
    HelperTestIsIr(p, Read64(s.mem, Read32(s.mem, esp)), Read64(s.mem, Read32(s.mem, esp + 4)));
  }

  lemma ThreeWords(mem: Mem, a: int)
    ensures StackArgs(mem, a, [Ptr, Ptr, Ptr]) == [Read32(mem, a), Read32(mem, a + 4), Read32(mem, a + 8)]
  {
    hide StackArgs, Read32;
    OnePointer(mem, a, [Ptr, Ptr]);
    OnePointer(mem, a + 4, [Ptr]);
    OnePointer(mem, a + 8, []);
    assert [Ptr] + [Ptr, Ptr] == [Ptr, Ptr, Ptr] && [Ptr] + [Ptr] == [Ptr, Ptr] && [Ptr] + [] == [Ptr];
  }

  lemma OnePointer(mem: Mem, a: int, rest: seq<Type>)
    ensures StackArgs(mem, a, [Ptr] + rest) == [Read32(mem, a)] + StackArgs(mem, a + 4, rest)
  {
    hide WordAt, Read32, Pow2;
    assert ([Ptr] + rest)[1..] == rest;
    LittleEndian(mem, a);
    Pow2Widths();
    DivModUnique(Read32(mem, a), W32, 0, Read32(mem, a));
  }
}
