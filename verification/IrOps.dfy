/** LLVM's integer types and the meaning of its integer operations on n-bit values. */
module IrOps {
  import opened Words

  datatype Option<+T> = None | Some(value: T)

  datatype Type = I1 | I8 | I16 | I32 | I64 | Ptr
  {
    function Bits(): (n: nat)
      ensures n > 0
    {
      match this
      case I1 => 1
      case I8 => 8
      case I16 => 16
      case I32 => 32
      case I64 => 64
      case Ptr => 32
    }

    /** 2 to the width. */
    function Modulus(): (m: nat)
      ensures m > 0
    {
      match this
      case I1 => 2
      case I8 => W8
      case I16 => W16
      case I32 => W32
      case I64 => W64
      case Ptr => W32
    }
  }

  datatype BinOp = Add | Sub | Mul | UDiv | URem | SDiv | SRem | And | Or | Xor | Shl | LShr | AShr

  datatype Pred = Eq | Ne | Ugt | Uge | Ult | Ule | Sgt | Sge | Slt | Sle
  {
    predicate Signed() {
      Sgt? || Sge? || Slt? || Sle?
    }
  }

  function LogicOf(op: BinOp): Logic
    requires op.And? || op.Or? || op.Xor?
  {
    match op
    case And => AndBits
    case Or => OrBits
    case Xor => XorBits
  }

  /** Signed division is undefined on a zero divisor and on minimum over -1. */
  predicate SignedDivUndefined(m: nat, a: int, b: int) {
    Signed(m, b) == 0 || (Signed(m, b) == -1 && 2 * a == m)
  }

  function SignedDiv(m: nat, a: nat, b: nat): nat
    requires m > 0 && Signed(m, b) != 0
  {
    TruncDiv(Signed(m, a), Signed(m, b)) % m
  }

  function SignedRem(m: nat, a: nat, b: nat): nat
    requires m > 0 && Signed(m, b) != 0
  {
    TruncRem(Signed(m, a), Signed(m, b)) % m
  }

  /** The result of an n-bit operation, or None where LLVM leaves it undefined. */
  function EvalBin(op: BinOp, ty: Type, a: nat, b: nat): Option<nat> {
    var m := ty.Modulus();
    match op
    case Add => Some((a + b) % m)
    case Sub => Some((a - b) % m)
    case Mul => Some((a * b) % m)
    case UDiv => if b == 0 then None else (DivModPositive(a, b); Some(a / b))
    case URem => if b == 0 then None else (DivModPositive(a, b); Some(a % b))
    case SDiv => if SignedDivUndefined(m, a, b) then None else Some(SignedDiv(m, a, b))
    case SRem => if SignedDivUndefined(m, a, b) then None else Some(SignedRem(m, a, b))
    case And => Some(Bitwise(AndBits, a, b, ty.Bits()))
    case Or => Some(Bitwise(OrBits, a, b, ty.Bits()))
    case Xor => Some(Bitwise(XorBits, a, b, ty.Bits()))
    case Shl => if b >= ty.Bits() then None else Some(ShiftUp(a, b) % m)
    case LShr => if b >= ty.Bits() then None else Some(ShiftDown(a, b))
    case AShr => if b >= ty.Bits() then None else Some(ShiftDown(Signed(m, a), b) % m)
  }

  predicate EvalCmp(p: Pred, ty: Type, a: nat, b: nat) {
    var m := ty.Modulus();
    match p
    case Eq => a == b
    case Ne => a != b
    case Ugt => a > b
    case Uge => a >= b
    case Ult => a < b
    case Ule => a <= b
    case Sgt => Signed(m, a) > Signed(m, b)
    case Sge => Signed(m, a) >= Signed(m, b)
    case Slt => Signed(m, a) < Signed(m, b)
    case Sle => Signed(m, a) <= Signed(m, b)
  }

  function EvalExt(sign: bool, from: Type, to: Type, a: nat): nat {
    if sign then Signed(from.Modulus(), a) % to.Modulus() else a % to.Modulus()
  }

  /** Every width's modulus is 2 to the width and divides every larger modulus. */
  lemma ModulusPow2(ty: Type)
    ensures ty.Modulus() == Pow2(ty.Bits())
  {
    Pow2Widths();
  }

  /** Narrowing twice is narrowing once. */
  lemma NarrowTwice(x: int, wide: Type, narrow: Type)
    requires narrow.Bits() <= wide.Bits()
    ensures (x % wide.Modulus()) % narrow.Modulus() == x % narrow.Modulus()
  {
    ModulusPow2(wide);
    ModulusPow2(narrow);
    var d := wide.Bits() - narrow.Bits();
    Pow2Sum(narrow.Bits(), d);
    ModMod(x, narrow.Modulus(), Pow2(d));
  }

  /** Narrowing a machine word is narrowing the value it was cut from. */
  lemma NarrowWord(x: int, ty: Type)
    requires ty.Bits() <= 32
    ensures (x % W32) % ty.Modulus() == x % ty.Modulus()
  {
    NarrowTwice(x, I32, ty);
  }

  // ----- What the operations mean -----

  lemma TypeWidths()
    ensures I1.Bits() == 1 && I8.Bits() == 8 && I16.Bits() == 16 && I32.Bits() == 32 && I64.Bits() == 64 && Ptr.Bits() == 32
    ensures forall ty: Type :: ty.Modulus() == Pow2(ty.Bits())
  {
    forall ty: Type ensures ty.Modulus() == Pow2(ty.Bits()) {
      ModulusPow2(ty);
    }
  }

  /** LLVM leaves exactly these undefined: division by zero, the quotient and remainder of the least
      number by -1, and shifts by the width or more. */
  lemma BinDefined(op: BinOp, ty: Type, a: nat, b: nat)
    requires a < ty.Modulus() && b < ty.Modulus()
    ensures EvalBin(op, ty, a, b).None?
            <==> match op
                 case UDiv => b == 0
                 case URem => b == 0
                 case SDiv => b == 0 || (b == ty.Modulus() - 1 && 2 * a == ty.Modulus())
                 case SRem => b == 0 || (b == ty.Modulus() - 1 && 2 * a == ty.Modulus())
                 case Shl => b >= ty.Bits()
                 case LShr => b >= ty.Bits()
                 case AShr => b >= ty.Bits()
                 case _ => false
  {
    hide TruncDiv, TruncRem, Bitwise, ShiftUp, ShiftDown;
  }

  /** Sums, differences and products are right modulo 2 to the width. */
  lemma RingMeaning(op: BinOp, ty: Type, a: nat, b: nat)
    requires op.Add? || op.Sub? || op.Mul?
    ensures EvalBin(op, ty, a, b).Some?
    ensures var r, m := EvalBin(op, ty, a, b).value, ty.Modulus();
      r < m && (r - if op.Add? then a + b else if op.Sub? then a - b else a * b) % m == 0
  {
    ResidueOf(if op.Add? then a + b else if op.Sub? then a - b else a * b, ty.Modulus());
  }

  /** Quotients and remainders, the signed ones of the signed readings. */
  lemma DivideMeaning(op: BinOp, ty: Type, a: nat, b: nat)
    requires (op.UDiv? || op.URem? || op.SDiv? || op.SRem?) && EvalBin(op, ty, a, b).Some?
    ensures var r, m := EvalBin(op, ty, a, b).value, ty.Modulus();
      && (op.UDiv? ==> b * r <= a < b * r + b)
      && (op.URem? ==> r < b && exists q :: a == b * q + r)
      && (op.SDiv? ==> r < m && Signed(m, b) != 0 && (r - TruncDiv(Signed(m, a), Signed(m, b))) % m == 0)
      && (op.SRem? ==> r < m && Signed(m, b) != 0 && (r - TruncRem(Signed(m, a), Signed(m, b))) % m == 0)
  {
    hide TruncDiv, TruncRem;
    var m := ty.Modulus();
    match op {
      case UDiv => assert a == b * (a / b) + a % b;
      case URem => assert a == b * (a / b) + a % b;
      case SDiv => ResidueOf(TruncDiv(Signed(m, a), Signed(m, b)), m);
      case SRem => ResidueOf(TruncRem(Signed(m, a), Signed(m, b)), m);
    }
  }

  /** Shifts multiply and divide by powers of two; the arithmetic one divides the signed reading. */
  lemma ShiftMeaning(op: BinOp, ty: Type, a: nat, b: nat)
    requires (op.Shl? || op.LShr? || op.AShr?) && EvalBin(op, ty, a, b).Some?
    ensures var r, m := EvalBin(op, ty, a, b).value, ty.Modulus();
      && (op.Shl? ==> r < m && (r - a * Pow2(b)) % m == 0)
      && (op.LShr? ==> r * Pow2(b) <= a < (r + 1) * Pow2(b))
      && (op.AShr? ==> r < m && exists q ::
            q * Pow2(b) <= Signed(m, a) < (q + 1) * Pow2(b) && (r - q) % m == 0)
  {
    hide Pow2, ShiftDown;
    var m := ty.Modulus();
    match op {
      case Shl => ResidueOf(a * Pow2(b), m);
      case LShr => ShiftDownIs(a, b);
      case AShr =>
        ShiftDownIs(Signed(m, a), b);
        ResidueOf(ShiftDown(Signed(m, a), b), m);
    }
  }

  /** Bit i of and, or and xor. */
  lemma LogicMeaning(op: BinOp, ty: Type, a: nat, b: nat, i: nat)
    requires (op.And? || op.Or? || op.Xor?) && i < ty.Bits()
    ensures EvalBin(op, ty, a, b).Some? && EvalBin(op, ty, a, b).value < ty.Modulus()
    ensures var x, y := a / Pow2(i) % 2 == 1, b / Pow2(i) % 2 == 1;
      EvalBin(op, ty, a, b).value / Pow2(i) % 2 == 1 <==> if op.And? then x && y else if op.Or? then x || y else x != y
  {
    hide Pow2, Bitwise;
    ModulusPow2(ty);
    BitwiseBits(LogicOf(op), a, b, ty.Bits(), i);
  }

  lemma ResidueOf(x: int, m: nat)
    requires m > 0
    ensures (x % m - x) % m == 0
  {
    assert x % m - x == m * (-(x / m));
    DivModUnique(x % m - x, m, -(x / m), 0);
  }

  /** An extension keeps the number, read unsigned or signed. */
  lemma ExtMeaning(sign: bool, from: Type, to: Type, a: nat)
    requires a < from.Modulus() && from.Bits() <= to.Bits()
    ensures EvalExt(sign, from, to, a) < to.Modulus()
    ensures if sign then Signed(to.Modulus(), EvalExt(sign, from, to, a)) == Signed(from.Modulus(), a)
            else EvalExt(sign, from, to, a) == a
  {
    var m, n := from.Modulus(), to.Modulus();
    assert m <= n;
    var x := if sign then Signed(m, a) else a;
    if x < 0 {
      DivModUnique(x, n, -1, x + n);
    } else {
      DivModUnique(x, n, 0, x);
    }
  }

  /** Comparisons of 0xff and 1 as bytes, where the signed and the unsigned orders differ, and of equals. */
  lemma CompareBytes255And1()
    ensures forall p: Pred :: EvalCmp(p, I8, 0xff, 1) <==> p == Ne || p == Ugt || p == Uge || p == Slt || p == Sle
    ensures forall p: Pred :: EvalCmp(p, I8, 1, 0xff) <==> p == Ne || p == Ult || p == Ule || p == Sgt || p == Sge
    ensures forall p: Pred, x: nat :: EvalCmp(p, I8, x, x) <==> p == Eq || p == Uge || p == Ule || p == Sge || p == Sle
  {
  }
}
