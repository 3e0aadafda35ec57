/** The part of the i386 that the generated code uses: registers, flags, little-endian byte
    memory and one step of execution over the emitted bytes' instructions. */
module Machine {
  import opened Words

  // ----- Byte memory -----

  type Mem = map<int, byte>

  function Byte(m: Mem, a: int): byte {
    if a in m then m[a] else 0
  }

  function Read16(m: Mem, a: int): (v: int)
    ensures 0 <= v < W16
  {
    Byte(m, a) + W8 * Byte(m, a + 1)
  }

  function Read32(m: Mem, a: int): (v: word) {
    Read16(m, a) + W16 * Read16(m, a + 2)
  }

  function Read64(m: Mem, a: int): (v: int)
    ensures 0 <= v < W64
  {
    Read32(m, a) + W32 * Read32(m, a + 4)
  }

  function Write8(m: Mem, a: int, v: int): Mem {
    m[a := v % W8]
  }

  function Write16(m: Mem, a: int, v: int): Mem {
    m[a := v % W8][a + 1 := v / W8 % W8]
  }

  function Write32(m: Mem, a: int, v: int): Mem {
    Write16(Write16(m, a, v % W16), a + 2, v / W16 % W16)
  }

  function Write64(m: Mem, a: int, v: int): Mem {
    Write32(Write32(m, a, v % W32), a + 4, v / W32 % W32)
  }

  lemma ReadWrite16(m: Mem, a: int, v: int)
    requires 0 <= v < W16
    ensures Read16(Write16(m, a, v), a) == v
  {
  }

  lemma ReadWrite32(m: Mem, a: int, v: word)
    ensures Read32(Write32(m, a, v), a) == v
    ensures forall x | x < a || a + 4 <= x :: Byte(Write32(m, a, v), x) == Byte(m, x)
  {
    ReadWrite16(m, a, v % W16);
    var m' := Write16(m, a, v % W16);
    ReadWrite16(m', a + 2, v / W16 % W16);
    assert v / W16 % W16 == v / W16;
  }

  lemma ReadWrite64(m: Mem, a: int, v: int)
    requires 0 <= v < W64
    ensures Read64(Write64(m, a, v), a) == v
    ensures forall x | x < a || a + 8 <= x :: Byte(Write64(m, a, v), x) == Byte(m, x)
  {
    var m' := Write32(m, a, v % W32);
    ReadWrite32(m, a, v % W32);
    ReadWrite32(m', a + 4, v / W32);
    assert v / W32 % W32 == v / W32;
    ReadSame(m', Write64(m, a, v), a, 4);
  }

  ghost predicate SameBytes(m: Mem, m': Mem, a: int, n: int) {
    forall x | a <= x < a + n :: Byte(m, x) == Byte(m', x)
  }

  lemma ReadSame(m: Mem, m': Mem, a: int, n: int)
    requires SameBytes(m, m', a, n)
    ensures n >= 2 ==> Read16(m, a) == Read16(m', a)
    ensures n >= 4 ==> Read32(m, a) == Read32(m', a)
    ensures n >= 8 ==> Read64(m, a) == Read64(m', a)
  {
    assert n >= 1 ==> Byte(m, a) == Byte(m', a);
    assert n >= 2 ==> Byte(m, a + 1) == Byte(m', a + 1);
    assert n >= 4 ==> Byte(m, a + 2) == Byte(m', a + 2) && Byte(m, a + 3) == Byte(m', a + 3);
    assert n >= 8 ==> Byte(m, a + 4) == Byte(m', a + 4) && Byte(m, a + 5) == Byte(m', a + 5)
                      && Byte(m, a + 6) == Byte(m', a + 6) && Byte(m, a + 7) == Byte(m', a + 7);
  }

  // ----- Instructions -----

  type Reg = r: int | 0 <= r < 8
  const EAX: Reg := 0
  const ECX: Reg := 1
  const EDX: Reg := 2
  const EBX: Reg := 3
  const ESP: Reg := 4
  const EBP: Reg := 5
  const ESI: Reg := 6
  const EDI: Reg := 7

  datatype Arith = ADD | OR | ADC | SBB | AND | SUB | XOR | CMP

  datatype Shift = SHL | SHR | SAR

  /** Condition codes of SDM Volume 1, Appendix B. */
  datatype Cond = B | AE | E | NE | BE | A | L | GE | LE | G

  datatype Instr =
    | MovImm(r: Reg, imm: word)
    | MovReg(dst: Reg, src: Reg)
    | LoadEbp(r: Reg, disp: word)
    | StoreEbp(r: Reg, disp: word)
    | StoreEsp(r: Reg, disp: word)
    | StoreEbpImm(disp: word, imm: word)
    | LeaEbp(r: Reg, disp: word)
    | LeaEsp(r: Reg, disp: word)
    | LoadAt(dst: Reg, base: Reg, disp: word)   // movl disp(%base), %dst with disp 0 or 4
    | StoreAt(src: Reg, base: Reg, disp: word)  // movl %src, disp(%base)
    | LoadByte                                  // movb (%eax), %al
    | LoadHalf                                  // movw (%eax), %ax
    | StoreByte                                 // movb %al, (%edx)
    | StoreHalf                                 // movw %ax, (%edx)
    | Alu(op: Arith, dst: Reg, src: Reg)
    | MulEcx
    | DivEcx
    | IdivEcx
    | Cdq
    | ShiftCl(shift: Shift)                     // shift %eax by %cl
    | Shl31(r: Reg)
    | Sar31(r: Reg)
    | And1(r: Reg)
    | ExtendByte(sign: bool, r: Reg)            // movzx/movsx low byte of r into r
    | ExtendHalf(sign: bool, r: Reg)
    | SetDl(cc: Cond)
    | TestAl                                    // testb %al, %al
    | TestBit0                                  // testb $1, %al
    | Jcc(cc: Cond, rel: word)
    | Jmp(rel: word)
    | CallRel(rel: word)
    | CallEax
    | PushEbp
    | SubEsp(imm: word)
    | Leave
    | Ret
    | Hlt

  // ----- State -----

  type Regs = r: seq<word> | |r| == 8 witness [0, 0, 0, 0, 0, 0, 0, 0]

  /** Flags are Undefined after instructions that leave them so, or whose flags no emitted code reads. */
  datatype Flags = Undefined | Flags(zf: bool, sf: bool, cf: bool, of: bool)

  datatype State = Fault | State(regs: Regs, flags: Flags, mem: Mem, eip: int)
  {
    function Set(r: Reg, v: word): State
      requires State?
    {
      this.(regs := regs[r := v])
    }

    function Clear(): State
      requires State?
    {
      this.(flags := Undefined)
    }
  }

  /** ebx, esi and edi: with ebp and esp the registers that the System V ABI makes a function preserve. */
  function Saved(s: State): (word, word, word)
    requires s.State?
  {
    (s.regs[EBX], s.regs[ESI], s.regs[EDI])
  }

  predicate Holds(cc: Cond, f: Flags)
    requires f.Flags?
  {
    match cc
    case B => f.cf
    case AE => !f.cf
    case E => f.zf
    case NE => !f.zf
    case BE => f.cf || f.zf
    case A => !f.cf && !f.zf
    case L => f.sf != f.of
    case GE => f.sf == f.of
    case LE => f.zf || f.sf != f.of
    case G => !f.zf && f.sf == f.of
  }

  function LogicFlags(v: word, half: int): Flags {
    Flags(v == 0, v >= half, false, false)
  }

  /** Flags of the subtraction x - y. */
  function SubFlags(x: word, y: word): Flags {
    var d := (x - y) % W32;
    Flags(d == 0, 2 * d >= W32, x < y, Signed(W32, d) != Signed(W32, x) - Signed(W32, y))
  }

  function Ea(s: State, base: Reg, disp: word): int
    requires s.State?
  {
    (s.regs[base] + disp) % W32
  }

  /** A load or store that would run past the top of the address space faults. */
  function LoadTo(s: State, r: Reg, a: int): State
    requires s.State?
  {
    if a + 4 > W32 then Fault else s.Set(r, Read32(s.mem, a))
  }

  function StoreFrom(s: State, v: word, a: int): State
    requires s.State?
  {
    if a + 4 > W32 then Fault else s.(mem := Write32(s.mem, a, v))
  }

  function AluResult(op: Arith, x: word, y: word): word {
    match op
    case ADD => (x + y) % W32
    case SUB => (x - y) % W32
    case AND => (Pow2Widths(); Bitwise(AndBits, x, y, 32))
    case OR => (Pow2Widths(); Bitwise(OrBits, x, y, 32))
    case XOR => (Pow2Widths(); Bitwise(XorBits, x, y, 32))
    case _ => x
  }

  function AluFlags(op: Arith, x: word, y: word): Flags {
    match op
    case AND => LogicFlags(AluResult(op, x, y), W32 / 2)
    case OR => LogicFlags(AluResult(op, x, y), W32 / 2)
    case XOR => LogicFlags(AluResult(op, x, y), W32 / 2)
    case SUB => SubFlags(x, y)
    case CMP => SubFlags(x, y)
    case _ => Undefined
  }

  /** The x86 masks a 32-bit shift count to five bits. */
  function ShiftResult(k: Shift, x: word, count: int): word {
    match k
    case SHL => ShiftUp(x, count % 32) % W32
    case SHR => ShiftDown(x, count % 32)
    case SAR => ShiftDown(Signed(W32, x), count % 32) % W32
  }

  /** The unsigned product of eax and ecx in edx:eax. */
  function MulStep(s: State): State
    requires s.State?
  {
    var x: int, y: int := s.regs[EAX], s.regs[ECX];
    s.Set(EAX, (x * y) % W32).Set(EDX, (x * y) / W32 % W32).Clear()
  }

  /** edx:eax divided by ecx; a quotient that does not fit faults. */
  function DivStep(s: State): State
    requires s.State?
  {
    var n: nat, d: nat := s.regs[EDX] as int * W32 + s.regs[EAX], s.regs[ECX];
    if d == 0 || n / d >= W32 then Fault
    else (DivModPositive(n, d); s.Set(EAX, n / d).Set(EDX, n % d).Clear())
  }

  function IdivStep(s: State): State
    requires s.State?
  {
    var n, d := Signed(W64, s.regs[EDX] as int * W32 + s.regs[EAX]), Signed(W32, s.regs[ECX]);
    if d == 0 || !(-W32 / 2 <= TruncDiv(n, d) < W32 / 2) then Fault
    else s.Set(EAX, TruncDiv(n, d) % W32).Set(EDX, TruncRem(n, d) % W32).Clear()
  }

  /** Writing al, ax or dl keeps the rest of the register. */
  function SetLow(s: State, r: Reg, m: int, v: int): State
    requires s.State? && (m == W8 || m == W16) && 0 <= v < m
  {
    s.Set(r, s.regs[r] - s.regs[r] % m + v)
  }

  function ExtendLow(s: State, r: Reg, m: int, sign: bool): State
    requires s.State? && (m == W8 || m == W16)
  {
    var x := s.regs[r] % m;
    s.Set(r, if sign then Signed(m, x) % W32 else x)
  }

  /** One instruction; s.eip is already past it. */
  function Exec(i: Instr, s: State): State
    requires s.State?
  {
    match i
    case MovImm(r, imm) => s.Set(r, imm)
    case MovReg(d, r) => s.Set(d, s.regs[r])
    case LoadEbp(r, disp) => LoadTo(s, r, Ea(s, EBP, disp))
    case StoreEbp(r, disp) => StoreFrom(s, s.regs[r], Ea(s, EBP, disp))
    case StoreEsp(r, disp) => StoreFrom(s, s.regs[r], Ea(s, ESP, disp))
    case StoreEbpImm(disp, imm) => StoreFrom(s, imm, Ea(s, EBP, disp))
    case LeaEbp(r, disp) => s.Set(r, Ea(s, EBP, disp))
    case LeaEsp(r, disp) => s.Set(r, Ea(s, ESP, disp))
    case LoadAt(d, b, disp) => LoadTo(s, d, Ea(s, b, disp))
    case StoreAt(r, b, disp) => StoreFrom(s, s.regs[r], Ea(s, b, disp))
    case LoadByte => SetLow(s, EAX, W8, Byte(s.mem, s.regs[EAX]))
    case LoadHalf =>
      if s.regs[EAX] + 2 > W32 then Fault else SetLow(s, EAX, W16, Read16(s.mem, s.regs[EAX]))
    case StoreByte => s.(mem := Write8(s.mem, s.regs[EDX], s.regs[EAX]))
    case StoreHalf =>
      if s.regs[EDX] + 2 > W32 then Fault else s.(mem := Write16(s.mem, s.regs[EDX], s.regs[EAX]))
    case Alu(op, d, r) =>
      if op.ADC? || op.SBB? then Fault
      else s.Set(d, AluResult(op, s.regs[d], s.regs[r])).(flags := AluFlags(op, s.regs[d], s.regs[r]))
    case MulEcx => MulStep(s)
    case DivEcx => DivStep(s)
    case IdivEcx => IdivStep(s)
    case Cdq => s.Set(EDX, if 2 * s.regs[EAX] >= W32 then W32 - 1 else 0)
    case ShiftCl(k) => s.Set(EAX, ShiftResult(k, s.regs[EAX], s.regs[ECX] % W8)).Clear()
    case Shl31(r) => s.Set(r, ShiftResult(SHL, s.regs[r], 31)).Clear()
    case Sar31(r) => s.Set(r, ShiftResult(SAR, s.regs[r], 31)).Clear()
    case And1(r) => s.Set(r, s.regs[r] % 2).Clear()
    case ExtendByte(sign, r) => ExtendLow(s, r, W8, sign)
    case ExtendHalf(sign, r) => ExtendLow(s, r, W16, sign)
    case SetDl(cc) =>
      if s.flags.Undefined? then Fault
      else SetLow(s, EDX, W8, if Holds(cc, s.flags) then 1 else 0)
    case TestAl => s.(flags := LogicFlags(s.regs[EAX] % W8, W8 / 2))
    case TestBit0 => s.(flags := LogicFlags(s.regs[EAX] % 2, W8 / 2))
    case Jcc(cc, rel) =>
      if s.flags.Undefined? then Fault
      else if Holds(cc, s.flags) then s.(eip := (s.eip + rel) % W32) else s
    case Jmp(rel) => s.(eip := (s.eip + rel) % W32)
    case CallRel(rel) => Call(s, (s.eip + rel) % W32)
    case CallEax => Call(s, s.regs[EAX])
    case PushEbp => Push(s, s.regs[EBP])
    case SubEsp(imm) => s.Set(ESP, (s.regs[ESP] - imm) % W32).Clear()
    case Leave =>
      var a := s.regs[EBP];
      if a + 4 > W32 then Fault else s.Set(ESP, (a + 4) % W32).Set(EBP, Read32(s.mem, a))
    case Ret =>
      var a := s.regs[ESP];
      if a + 4 > W32 then Fault else s.Set(ESP, (a + 4) % W32).(eip := Read32(s.mem, a))
    case Hlt => Fault
  }

  function Push(s: State, v: word): State
    requires s.State?
  {
    var a := (s.regs[ESP] - 4) % W32;
    if a + 4 > W32 then Fault else s.Set(ESP, a).(mem := Write32(s.mem, a, v))
  }

  function Call(s: State, target: word): State
    requires s.State?
  {
    match Push(s, s.eip % W32)
    case Fault => Fault
    case State(r, f, m, _) => State(r, f, m, target)
  }

  // ----- Division -----

  /** div divides edx:eax by ecx and faults exactly when the quotient does not fit in eax: when the
      divisor is not above the dividend's upper word, zero included. */
  lemma DivIs(s: State)
    requires s.State?
    ensures var lo: int, hi: int, d: int, t := s.regs[EAX], s.regs[EDX], s.regs[ECX], Exec(DivEcx, s);
      && (t.Fault? <==> d <= hi)
      && (t.State? ==> t.regs[EAX] * d + t.regs[EDX] == W32 * hi + lo && t.regs[EDX] < d)
  {
    var lo: int, hi: int, d: int := s.regs[EAX], s.regs[EDX], s.regs[ECX];
    var n := W32 * hi + lo;
    if d > 0 {
      var q := n / d;
      assert n == d * q + n % d && q * d == d * q && d * (q + 1) == d * q + d && d * W32 == W32 * d;
      if d <= hi {
        MulMono(W32, d, hi);
        Cancel(d, W32, q + 1);
      } else {
        MulMono(W32, hi + 1, d);
        Cancel(d, q, W32);
      }
    }
  }

  lemma Cancel(d: int, x: int, y: int)
    requires d > 0 && d * x < d * y
    ensures x < y
  {
    if y <= x {
      MulMono(d, y, x);
    }
  }

  /** idiv divides the signed edx:eax, truncating toward zero, and faults exactly when the divisor is
      zero or the quotient is no signed word. */
  lemma IdivIs(s: State)
    requires s.State?
    ensures var n, d, t := Signed(W64, s.regs[EDX] as int * W32 + s.regs[EAX]), Signed(W32, s.regs[ECX]), Exec(IdivEcx, s);
      && (t.Fault? <==> d == 0 || TruncDiv(n, d) < -0x8000_0000 || TruncDiv(n, d) > 0x7fff_ffff)
      && (t.State? ==> Signed(W32, t.regs[EAX]) == TruncDiv(n, d) && (t.regs[EDX] - TruncRem(n, d)) % W32 == 0)
  {
    hide TruncDiv, TruncRem;
    var n, d := Signed(W64, s.regs[EDX] as int * W32 + s.regs[EAX]), Signed(W32, s.regs[ECX]);
    if d != 0 && -W32 / 2 <= TruncDiv(n, d) < W32 / 2 {
      var q, r := TruncDiv(n, d), TruncRem(n, d);
      if q < 0 {
        DivModUnique(q, W32, -1, q + W32);
      } else {
        DivModUnique(q, W32, 0, q);
      }
      assert r % W32 - r == W32 * (-(r / W32));
      DivModUnique(r % W32 - r, W32, -(r / W32), 0);
    }
  }

  /** mul leaves the whole product in edx:eax. */
  lemma MulIs(s: State)
    requires s.State?
    ensures var x: int, y: int, t := s.regs[EAX], s.regs[ECX], Exec(MulEcx, s);
      t.State? && W32 * t.regs[EDX] + t.regs[EAX] == x * y
  {
    var x: int, y: int := s.regs[EAX], s.regs[ECX];
    MulMono(x, y, W32);
    MulMono(W32, x, W32);
    var q := x * y / W32;
    assert x * y == W32 * q + x * y % W32;
    if q >= W32 {
      MulMono(W32, W32, q);
    }
    DivModUnique(q, W32, 0, q);
  }

  // ----- Faults and flags -----

  /** An access that runs past the top of the address space faults, and no other does. */
  lemma MoveFaults(s: State, r: Reg, b: Reg, disp: word)
    requires s.State?
    ensures var a: int := (s.regs[b] + disp) % W32;
      (Exec(LoadAt(r, b, disp), s).Fault? <==> a > 0xffff_fffc) && (Exec(StoreAt(r, b, disp), s).Fault? <==> a > 0xffff_fffc)
  {
  }

  lemma HalfFaults(s: State)
    requires s.State?
    ensures (Exec(LoadHalf, s).Fault? <==> s.regs[EAX] == 0xffff_ffff) && Exec(LoadByte, s).State?
    ensures (Exec(StoreHalf, s).Fault? <==> s.regs[EDX] == 0xffff_ffff) && Exec(StoreByte, s).State?
  {
    hide Read16, Write16, Write8;
  }

  lemma StackFaults(s: State)
    requires s.State?
    ensures (Exec(Leave, s).Fault? <==> s.regs[EBP] > 0xffff_fffc) && (Exec(Ret, s).Fault? <==> s.regs[ESP] > 0xffff_fffc)
    ensures Exec(Hlt, s).Fault?
  {
    hide Read32;
  }

  lemma PushFaults(s: State, v: word)
    requires s.State?
    ensures Push(s, v).Fault? <==> 0 < s.regs[ESP] < 4
  {
    hide Write32;
    var a: int := s.regs[ESP] as int - 4;
    if a >= 0 {
      DivModUnique(a, W32, 0, a);
    } else {
      DivModUnique(a, W32, -1, a + W32);
    }
  }

  lemma TestFlags(s: State)
    requires s.State?
    ensures Exec(TestAl, s).flags == Flags(s.regs[EAX] % 0x100 == 0, s.regs[EAX] % 0x100 >= 0x80, false, false)
    ensures Exec(TestBit0, s).flags == Flags(s.regs[EAX] % 2 == 0, false, false, false)
  {
  }

  /** After these no emitted code reads the flags, and the model does not let it. */
  lemma FlagsGone(s: State, k: Shift, imm: word)
    requires s.State?
    ensures Exec(MulEcx, s).flags.Undefined? && Exec(ShiftCl(k), s).flags.Undefined? && Exec(SubEsp(imm), s).flags.Undefined?
    ensures Exec(DivEcx, s).State? ==> Exec(DivEcx, s).flags.Undefined?
    ensures Exec(IdivEcx, s).State? ==> Exec(IdivEcx, s).flags.Undefined?
  {
    hide ShiftResult, TruncDiv, TruncRem;
  }

  lemma FlagsNeeded(s: State, cc: Cond, rel: word)
    requires s.State?
    ensures (Exec(SetDl(cc), s).Fault? <==> s.flags.Undefined?) && (Exec(Jcc(cc, rel), s).Fault? <==> s.flags.Undefined?)
  {
    hide Holds;
  }
}
