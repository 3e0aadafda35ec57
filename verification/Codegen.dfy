/** What the code generator emits for each instruction, as a list of instructions some of
    which still name a block, a global or a helper; and where everything is placed. */
module Codegen {
  import opened Words
  import opened IrOps
  import opened Machine
  import opened Encoding
  import opened Ir
  import opened Abi

  datatype Helper = HArith(op: BinOp) | HCompare(pred: Pred)

  datatype Item =
    | Ins(i: Instr)
    | JumpTo(b: nat)
    | JumpIf(cc: Cond, b: nat)
    | MovGlobal(r: Reg, g: GlobalRef, off: word)
    | CallHelper(h: Helper)

  function ItemSize(it: Item): (n: nat)
    ensures n > 0
  {
    match it
    case Ins(i) => |Encode(i)|
    case JumpTo(_) => 5
    case JumpIf(_, _) => 6
    case MovGlobal(_, _, _) => 5
    case CallHelper(_) => 5
  }

  function Size(items: seq<Item>): nat {
    if items == [] then 0 else ItemSize(items[0]) + Size(items[1..])
  }

  lemma {:induction false} SizeAppend(a: seq<Item>, b: seq<Item>)
    ensures Size(a + b) == Size(a) + Size(b)
  {
    if a == [] {
      assert a + b == b;
    } else {
      assert (a + b)[1..] == a[1..] + b;
      SizeAppend(a[1..], b);
    }
  }

  // ----- Frame layout -----

  function SlotSize(ty: Type): nat {
    if ty.I64? then 8 else 4
  }

  function ArgsSize(tys: seq<Type>): nat {
    if tys == [] then 0 else ArgsSize(tys[..|tys| - 1]) + SlotSize(tys[|tys| - 1])
  }

  /** The argument area is laid out as the calling convention says. */
  lemma {:induction false} ArgsSizeIs(tys: seq<Type>)
    ensures ArgsSize(tys) == StackBytes(tys)
  {
    if tys != [] {
      var n := |tys| - 1;
      ArgsSizeIs(tys[..n]);
      StackBytesAppend(tys[..n], [tys[n]]);
      assert [tys[n]][1..] == [] && tys[..n] + [tys[n]] == tys;
    }
  }

  /** Bytes of value slots for the first n instructions; casts have none. */
  function VarsSize(f: Fn, n: nat): nat
    requires n <= |f.body|
  {
    if n == 0 then 0
    else VarsSize(f, n - 1) + if f.body[n - 1].Cast? then 0 else SlotSize(f.body[n - 1].ResultType())
  }

  /** Offset from ebp of a slot: arguments above the return address, results below ebp. */
  function SlotOf(f: Fn, r: Ref): int {
    match r
    case Arg(k) => if k <= |f.params| then 8 + ArgsSize(f.params[..k]) else 8
    case Res(i) => if i < |f.body| then 0 - VarsSize(f, i + 1) else 0
  }

  function SlotWord(f: Fn, r: Ref, part: nat): word {
    (SlotOf(f, r) + part) % W32
  }

  /** Argument 0 lies just above the return address and the saved ebp, and argument k + 1 one word
      behind argument k, or two words behind a 64-bit one. */
  lemma ArgPosition(f: Fn, k: nat)
    requires k <= |f.params|
    ensures SlotOf(f, Arg(k)) == 8 + StackBytes(f.params[..k]) && SlotOf(f, Arg(0)) == 8
    ensures k < |f.params| ==> SlotOf(f, Arg(k + 1)) == SlotOf(f, Arg(k)) + if f.params[k].I64? then 8 else 4
    ensures (forall j | 0 <= j < k :: !f.params[j].I64?) ==> SlotOf(f, Arg(k)) == 8 + 4 * k
  {
    ArgsSizeIs(f.params[..k]);
    assert f.params[..0] == [];
    if k < |f.params| {
      assert f.params[..k + 1][..k] == f.params[..k];
    }
    if forall j | 0 <= j < k :: !f.params[j].I64? {
      OneWordEach(f.params[..k]);
    }
  }

  const MIN_CALLEE_ARGS := 12

  function Max(a: nat, b: nat): nat {
    if a < b then b else a
  }

  /** Size of the outgoing-argument area: the largest call among the first n instructions. */
  function OutSize(f: Fn, n: nat): (s: nat)
    requires n <= |f.body|
    ensures s >= MIN_CALLEE_ARGS
  {
    if n == 0 then MIN_CALLEE_ARGS
    else match f.body[n - 1]
         case CallFn(_, _, args) => Max(OutSize(f, n - 1), ArgsSize(TypesOf(f, args)))
         case _ => OutSize(f, n - 1)
  }

  // ----- Operands -----

  /** movl of the 32-bit part of v at byte offset `part` (0 or 4) into reg. */
  function MovePart(f: Fn, reg: Reg, v: Value, part: nat): Item {
    match Root(f, v)
    case Const(_, Num(n)) => Ins(MovImm(reg, if part == 4 then n / W32 % W32 else n % W32))
    case Const(_, Addr(g, off)) => MovGlobal(reg, g, off % W32)
    case Use(r) => Ins(LoadEbp(reg, SlotWord(f, r, part)))
  }

  /** 64-bit constants whose address is taken go to the data segment at `pool`. */
  function AddrToReg(f: Fn, reg: Reg, v: Value, pool: word): Item {
    match Root(f, v)
    case Const(_, _) => Ins(MovImm(reg, pool))
    case Use(r) => Ins(LeaEbp(reg, SlotWord(f, r, 0)))
  }

  function PoolOf(f: Fn, v: Value): seq<nat> {
    match Root(f, v)
    case Const(_, Num(n)) => [n]
    case Const(_, Addr(_, off)) => [off]
    case Use(_) => []
  }

  function Spill(f: Fn, reg: Reg, i: nat, part: nat): Item {
    Ins(StoreEbp(reg, SlotWord(f, Res(i), part)))
  }

  /** extend_to_i32 */
  function Extend(reg: Reg, sign: bool, bits: nat): seq<Item>
    requires reg < 4
  {
    if bits == 32 then []
    else if bits == 1 then
      if sign then [Ins(Shl31(reg)), Ins(Sar31(reg))] else [Ins(And1(reg))]
    else if bits == 8 then [Ins(ExtendByte(sign, reg))]
    else [Ins(ExtendHalf(sign, reg))]
  }

  // ----- Instructions -----

  /** The operation itself, with its operands in eax and ecx. */
  function OpItems(op: BinOp, bits: nat): seq<Item> {
    match op
    case Add => [Ins(Alu(ADD, EAX, ECX))]
    case Sub => [Ins(Alu(SUB, EAX, ECX))]
    case And => [Ins(Alu(AND, EAX, ECX))]
    case Or => [Ins(Alu(OR, EAX, ECX))]
    case Xor => [Ins(Alu(XOR, EAX, ECX))]
    case Mul => [Ins(MulEcx)]
    case UDiv => Extend(EAX, false, bits) + Extend(ECX, false, bits) + [Ins(Alu(XOR, EDX, EDX)), Ins(DivEcx)]
    case URem => Extend(EAX, false, bits) + Extend(ECX, false, bits) + [Ins(Alu(XOR, EDX, EDX)), Ins(DivEcx)]
    case SDiv => Extend(EAX, true, bits) + Extend(ECX, true, bits) + [Ins(Cdq), Ins(IdivEcx)]
    case SRem => Extend(EAX, true, bits) + Extend(ECX, true, bits) + [Ins(Cdq), Ins(IdivEcx)]
    case Shl => [Ins(ShiftCl(SHL))]
    case LShr => Extend(EAX, false, bits) + [Ins(ShiftCl(SHR))]
    case AShr => Extend(EAX, true, bits) + [Ins(ShiftCl(SAR))]
  }

  function ResultReg(op: BinOp): Reg {
    if op.URem? || op.SRem? then EDX else EAX
  }

  function CondFor(p: Pred): Cond {
    match p
    case Eq => E
    case Ne => NE
    case Ugt => A
    case Uge => AE
    case Ult => B
    case Ule => BE
    case Sgt => G
    case Sge => GE
    case Slt => L
    case Sle => LE
  }

  /** The comparison itself, with the left operand in ecx and the right one in eax. */
  function CompareItems(p: Pred, bits: nat): seq<Item> {
    Extend(EAX, p.Signed(), bits) + Extend(ECX, p.Signed(), bits)
    + [Ins(Alu(CMP, ECX, EAX)), Ins(SetDl(CondFor(p)))]
  }

  /** Pass the address of v as the outgoing argument at esp + off. */
  function PassAddr(f: Fn, v: Value, pool: word, off: word): seq<Item> {
    [AddrToReg(f, EAX, v, pool), Ins(StoreEsp(EAX, off))]
  }

  function NextPool(f: Fn, v: Value, pool: word): word {
    (pool + 8 * |PoolOf(f, v)|) % W32
  }

  /** Copy eight bytes from (%eax) to (%edx) through ecx. */
  const COPY64: seq<Item> :=
    [Ins(LoadAt(ECX, EAX, 0)), Ins(StoreAt(ECX, EDX, 0)), Ins(LoadAt(ECX, EAX, 4)), Ins(StoreAt(ECX, EDX, 4))]

  function BinItems(f: Fn, i: nat, op: BinOp, ty: Type, a: Value, b: Value, pool: word): seq<Item> {
    if ty.I64? then
      PassAddr(f, Use(Res(i)), pool, 0) + PassAddr(f, a, pool, 4) + PassAddr(f, b, NextPool(f, a, pool), 8)
      + [CallHelper(HArith(op))]
    else
      [MovePart(f, EAX, a, 0), MovePart(f, ECX, b, 0)] + OpItems(op, ty.Bits()) + [Spill(f, ResultReg(op), i, 0)]
  }

  function ICmpItems(f: Fn, i: nat, p: Pred, ty: Type, a: Value, b: Value, pool: word): seq<Item> {
    if ty.I64? then
      PassAddr(f, a, pool, 0) + PassAddr(f, b, NextPool(f, a, pool), 4)
      + [CallHelper(HCompare(p)), Spill(f, EAX, i, 0)]
    else
      [MovePart(f, ECX, a, 0), MovePart(f, EAX, b, 0)] + CompareItems(p, ty.Bits()) + [Spill(f, EDX, i, 0)]
  }

  function LoadItems(f: Fn, i: nat, ty: Type, p: Value): seq<Item> {
    [MovePart(f, EAX, p, 0)]
    + match SizeOf(ty)
      case 8 => [Ins(LeaEbp(EDX, SlotWord(f, Res(i), 0)))] + COPY64
      case 1 => [Ins(LoadByte), Spill(f, EAX, i, 0)]
      case 2 => [Ins(LoadHalf), Spill(f, EAX, i, 0)]
      case _ => [Ins(LoadAt(EAX, EAX, 0)), Spill(f, EAX, i, 0)]
  }

  function StoreItems(f: Fn, ty: Type, v: Value, p: Value, pool: word): seq<Item> {
    [MovePart(f, EDX, p, 0)]
    + match SizeOf(ty)
      case 8 => [AddrToReg(f, EAX, v, pool)] + COPY64
      case 1 => [MovePart(f, EAX, v, 0), Ins(StoreByte)]
      case 2 => [MovePart(f, EAX, v, 0), Ins(StoreHalf)]
      case _ => [MovePart(f, EAX, v, 0), Ins(StoreAt(EAX, EDX, 0))]
  }

  function ExtItems(f: Fn, i: nat, sign: bool, from: Type, to: Type, a: Value): seq<Item> {
    [MovePart(f, EAX, a, 0)] + Extend(EAX, sign, from.Bits()) + [Spill(f, EAX, i, 0)]
    + if !to.I64? then []
      else if sign then [Ins(Cdq), Spill(f, EDX, i, 4)]
      else [Ins(StoreEbpImm(SlotWord(f, Res(i), 4), 0))]
  }

  function SelectItems(f: Fn, i: nat, c: Value, a: Value, b: Value): seq<Item> {
    [MovePart(f, EAX, c, 0), MovePart(f, ECX, a, 0), Ins(TestAl),
     Ins(Jcc(NE, ItemSize(MovePart(f, ECX, b, 0)) % W32)), MovePart(f, ECX, b, 0), Spill(f, ECX, i, 0)]
  }

  /** One phi's copy. */
  function CopyItems(f: Fn, phi: nat, src: Value, reg: Reg): seq<Item>
    requires phi < |f.body|
  {
    if f.body[phi].ResultType().I64? then
      [MovePart(f, reg, src, 0), Spill(f, reg, phi, 0), MovePart(f, reg, src, 4), Spill(f, reg, phi, 4)]
    else
      [MovePart(f, reg, src, 0), Spill(f, reg, phi, 0)]
  }

  function CopyAll(f: Fn, phis: seq<nat>, src: seq<Value>, reg: Reg): seq<Item>
    requires |phis| == |src| && forall j | 0 <= j < |phis| :: phis[j] < |f.body|
  {
    if phis == [] then [] else CopyItems(f, phis[0], src[0], reg) + CopyAll(f, phis[1..], src[1..], reg)
  }

  /** handle_phi_nodes */
  function PhiItems(f: Fn, from: nat, to: nat, reg: Reg): seq<Item> {
    match EdgeSources(f, Phis(f, to), from)
    case None => []
    case Some(src) => CopyAll(f, Phis(f, to), src, reg)
  }

  function GotoItems(f: Fn, from: nat, to: nat): seq<Item> {
    PhiItems(f, from, to, EAX) + [JumpTo(to)]
  }

  function BranchItems(f: Fn, from: nat, c: Value, yes: nat, no: nat): seq<Item> {
    PhiItems(f, from, yes, EAX) + [MovePart(f, EAX, c, 0), Ins(TestBit0), JumpIf(NE, yes)] + GotoItems(f, from, no)
  }

  function CaseItems(f: Fn, from: nat, cases: seq<(nat, nat)>, default: nat): seq<Item> {
    if cases == [] then GotoItems(f, from, default)
    else PhiItems(f, from, cases[0].1, EDX)
         + [Ins(MovImm(ECX, cases[0].0 % W32)), Ins(Alu(CMP, ECX, EAX)), JumpIf(E, cases[0].1)]
         + CaseItems(f, from, cases[1..], default)
  }

  function SwitchItems(f: Fn, from: nat, ty: Type, c: Value, cases: seq<(nat, nat)>, default: nat): seq<Item> {
    [MovePart(f, EAX, c, 0)] + Extend(EAX, false, ty.Bits()) + CaseItems(f, from, cases, default)
  }

  function ReturnItems(f: Fn, v: Option<Value>): seq<Item> {
    (if v.None? then []
     else if TypeOf(f, v.value).I64? then [MovePart(f, EAX, v.value, 0), MovePart(f, EDX, v.value, 4)]
     else [MovePart(f, EAX, v.value, 0)])
    + [Ins(Leave), Ins(Ret)]
  }

  function PassArg(f: Fn, v: Value, off: nat, pool: word): seq<Item> {
    if TypeOf(f, v).I64? then
      [AddrToReg(f, EAX, v, pool), Ins(LoadAt(EDX, EAX, 0)), Ins(StoreEsp(EDX, off % W32)),
       Ins(LoadAt(EDX, EAX, 4)), Ins(StoreEsp(EDX, (off + 4) % W32))]
    else
      [MovePart(f, EAX, v, 0), Ins(StoreEsp(EAX, off % W32))]
  }

  function ArgPool(f: Fn, v: Value): seq<nat> {
    if TypeOf(f, v).I64? then PoolOf(f, v) else []
  }

  function ArgsPool(f: Fn, args: seq<Value>): seq<nat> {
    if args == [] then [] else ArgPool(f, args[0]) + ArgsPool(f, args[1..])
  }

  function PassArgs(f: Fn, args: seq<Value>, off: nat, pool: word): seq<Item> {
    if args == [] then []
    else PassArg(f, args[0], off, pool)
         + PassArgs(f, args[1..], off + SlotSize(TypeOf(f, args[0])), (pool + 8 * |ArgPool(f, args[0])|) % W32)
  }

  /** Up to and including the call. */
  function CallItems(f: Fn, fn: Value, args: seq<Value>, pool: word): seq<Item> {
    PassArgs(f, args, 0, pool) + [MovePart(f, EAX, fn, 0), Ins(CallEax)]
  }

  /** After the callee has returned. */
  function AfterCall(f: Fn, i: nat): seq<Item>
    requires i < |f.body|
  {
    if f.body[i].ResultType().I64? then [Spill(f, EAX, i, 0), Spill(f, EDX, i, 4)] else [Spill(f, EAX, i, 0)]
  }

  function AllocaItems(f: Fn, i: nat, size: nat, out: nat): seq<Item> {
    [Ins(SubEsp(size % W32))]
    + if out != 0 then [Ins(LeaEsp(EAX, out % W32)), Spill(f, EAX, i, 0)] else [Spill(f, ESP, i, 0)]
  }

  /** translate_instruction */
  function InstItems(f: Fn, i: nat, pool: word, out: nat): seq<Item>
    requires i < |f.body| == |f.parent|
  {
    match f.body[i]
    case Bin(op, ty, a, b) => BinItems(f, i, op, ty, a, b, pool)
    case ICmp(p, ty, a, b) => ICmpItems(f, i, p, ty, a, b, pool)
    case LoadMem(ty, p) => LoadItems(f, i, ty, p)
    case StoreMem(ty, v, p) => StoreItems(f, ty, v, p, pool)
    case Ext(sign, from, to, a) => ExtItems(f, i, sign, from, to, a)
    case Cast(_, _, _) => []
    case Phi(_, _) => []
    case Select(_, c, a, b) => SelectItems(f, i, c, a, b)
    case Goto(d) => GotoItems(f, f.parent[i], d)
    case Branch(c, y, n) => BranchItems(f, f.parent[i], c, y, n)
    case Switch(ty, c, cases, d) => SwitchItems(f, f.parent[i], ty, c, cases, d)
    case Return(v) => ReturnItems(f, v)
    case CallFn(_, fn, args) => CallItems(f, fn, args, pool) + AfterCall(f, i)
    case Alloca(n) => AllocaItems(f, i, n, out)
    case Unreachable => [Ins(Hlt)]
  }

  /** The constants instruction i puts in the data segment. */
  function InstPool(f: Fn, i: nat): seq<nat>
    requires i < |f.body|
  {
    match f.body[i]
    case Bin(_, ty, a, b) => if ty.I64? then PoolOf(f, a) + PoolOf(f, b) else []
    case ICmp(_, ty, a, b) => if ty.I64? then PoolOf(f, a) + PoolOf(f, b) else []
    case StoreMem(ty, v, _) => if ty.I64? then PoolOf(f, v) else []
    case CallFn(_, _, args) => ArgsPool(f, args)
    case _ => []
  }

  function Prolog(f: Fn): seq<Item> {
    [Ins(PushEbp), Ins(MovReg(EBP, ESP)), Ins(SubEsp((VarsSize(f, |f.body|) + OutSize(f, |f.body|)) % W32))]
  }

  // ----- Placement -----

  function FnPool(f: Fn, n: nat): seq<nat>
    requires n <= |f.body|
  {
    if n == 0 then [] else FnPool(f, n - 1) + InstPool(f, n - 1)
  }

  function ModulePool(p: Program, k: nat): seq<nat>
    requires k <= |p.fns|
  {
    if k == 0 then [] else ModulePool(p, k - 1) + FnPool(p.fns[k - 1], |p.fns[k - 1].body|)
  }

  /** Number of pool constants emitted before instruction i of function k. */
  function PoolIndex(p: Program, k: nat, i: nat): nat
    requires k < |p.fns| && i <= |p.fns[k].body|
  {
    |ModulePool(p, k)| + |FnPool(p.fns[k], i)|
  }

  predicate Shaped(p: Program) {
    forall k | 0 <= k < |p.fns| :: |p.fns[k].parent| == |p.fns[k].body|
  }

  /** Everything emitted for function k before its instruction n; pool0 is the pool's address. */
  function FnItems(p: Program, pool0: int, k: nat, n: nat): seq<Item>
    requires Shaped(p) && k < |p.fns| && n <= |p.fns[k].body|
  {
    var f := p.fns[k];
    if n == 0 then Prolog(f)
    else FnItems(p, pool0, k, n - 1)
         + InstItems(f, n - 1, (pool0 + 8 * PoolIndex(p, k, n - 1)) % W32, OutSize(f, |f.body|))
  }

  /** Offset of function k in the code buffer. */
  function FnStart(p: Program, pool0: int, k: nat): nat
    requires Shaped(p) && k <= |p.fns|
  {
    if k == 0 then 0
    else FnStart(p, pool0, k - 1) + Size(FnItems(p, pool0, k - 1, |p.fns[k - 1].body|))
  }

  function PcOffset(p: Program, pool0: int, k: nat, i: nat): nat
    requires Shaped(p) && k < |p.fns| && i <= |p.fns[k].body|
  {
    FnStart(p, pool0, k) + Size(FnItems(p, pool0, k, i))
  }
}
