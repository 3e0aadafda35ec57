/** The bytes of each instruction form that the code generator emits, and a decoder for them.
    Forms follow the Intel 64 and IA-32 SDM, Volume 2, sections 2.1.3 and 2.1.5. */
module Encoding {
  import opened Words
  import opened IrOps
  import opened Machine

  /** The four bytes of a 32-bit field, least significant first. */
  function Le(w: word): (b: seq<byte>)
    ensures |b| == 4
  {
    [w % W8, w / W8 % W8, w / W16 % W8, w / (W16 * W8) % W8]
  }

  /** Inverse of Le at position p. */
  function LeAt(code: seq<byte>, p: nat): word
    requires p + 4 <= |code|
  {
    code[p] + W8 * code[p + 1] + W16 * code[p + 2] + W16 * W8 * code[p + 3]
  }

  /** The 32-bit field at offset `at` replaced. */
  function Patch(code: seq<byte>, at: nat, v: word): (c: seq<byte>)
    requires at + 4 <= |code|
    ensures |c| == |code|
  {
    code[..at] + Le(v) + code[at + 4..]
  }

  function CondCode(cc: Cond): (n: nat)
    ensures n < 16
  {
    match cc
    case B => 2
    case AE => 3
    case E => 4
    case NE => 5
    case BE => 6
    case A => 7
    case L => 12
    case GE => 13
    case LE => 14
    case G => 15
  }

  function CondOf(n: int): Option<Cond> {
    if n == 2 then Some(B) else if n == 3 then Some(AE) else if n == 4 then Some(E)
    else if n == 5 then Some(NE) else if n == 6 then Some(BE) else if n == 7 then Some(A)
    else if n == 12 then Some(L) else if n == 13 then Some(GE) else if n == 14 then Some(LE)
    else if n == 15 then Some(G) else None
  }

  function AluCode(op: Arith): (n: nat)
    ensures n < 8
  {
    match op
    case ADD => 0
    case OR => 1
    case ADC => 2
    case SBB => 3
    case AND => 4
    case SUB => 5
    case XOR => 6
    case CMP => 7
  }

  function AluOf(n: int): Arith {
    if n == 0 then ADD else if n == 1 then OR else if n == 2 then ADC else if n == 3 then SBB
    else if n == 4 then AND else if n == 5 then SUB else if n == 6 then XOR else CMP
  }

  /** A ModR/M byte; the source's `|` of disjoint bit fields is a sum. */
  function ModRm(mode: nat, reg: Reg, rm: Reg): byte
    requires mode < 4
  {
    64 * mode + 8 * reg + rm
  }

  /** Forms with operands the encoder has bytes for. */
  predicate Encodable(i: Instr) {
    match i
    case LoadAt(_, b, d) => b != ESP && b != EBP && (d == 0 || d == 4)
    case StoreAt(_, b, d) => b != ESP && b != EBP && (d == 0 || d == 4)
    case ExtendByte(_, r) => r < 4
    case _ => true
  }

  function Disp(opcode: byte, reg: Reg, base: Reg, disp: word): seq<byte> {
    if disp == 0 then [opcode, ModRm(0, reg, base)] else [opcode, ModRm(1, reg, base), disp % W8]
  }

  function Encode(i: Instr): (e: seq<byte>)
    ensures 0 < |e| <= 10
  {
    match i
    case MovImm(r, imm) => [0xb8 + r] + Le(imm)
    case MovReg(d, r) => [0x89, ModRm(3, r, d)]
    case LoadEbp(r, disp) => [0x8b, ModRm(2, r, EBP)] + Le(disp)
    case StoreEbp(r, disp) => [0x89, ModRm(2, r, EBP)] + Le(disp)
    case StoreEsp(r, disp) => [0x89, ModRm(2, r, ESP), 0x24] + Le(disp)
    case StoreEbpImm(disp, imm) => [0xc7, 0x85] + Le(disp) + Le(imm)
    case LeaEbp(r, disp) => [0x8d, ModRm(2, r, EBP)] + Le(disp)
    case LeaEsp(r, disp) => [0x8d, ModRm(2, r, ESP), 0x24] + Le(disp)
    case LoadAt(d, b, disp) => Disp(0x8b, d, b, disp)
    case StoreAt(r, b, disp) => Disp(0x89, r, b, disp)
    case LoadByte => [0x8a, 0x00]
    case LoadHalf => [0x66, 0x8b, 0x00]
    case StoreByte => [0x88, 0x02]
    case StoreHalf => [0x66, 0x89, 0x02]
    case Alu(op, d, r) => [8 * AluCode(op) + 1, ModRm(3, r, d)]
    case MulEcx => [0xf7, 0xe1]
    case DivEcx => [0xf7, 0xf1]
    case IdivEcx => [0xf7, 0xf9]
    case Cdq => [0x99]
    case ShiftCl(k) => [0xd3, match k case SHL => 0xe0 case SHR => 0xe8 case SAR => 0xf8]
    case Shl31(r) => [0xc1, 0xe0 + r, 0x1f]
    case Sar31(r) => [0xc1, 0xf8 + r, 0x1f]
    case And1(r) => [0x83, 0xe0 + r, 0x01]
    case ExtendByte(sign, r) => [0x0f, if sign then 0xbe else 0xb6, ModRm(3, r, r)]
    case ExtendHalf(sign, r) => [0x0f, if sign then 0xbf else 0xb7, ModRm(3, r, r)]
    case SetDl(cc) => [0x0f, 0x90 + CondCode(cc), 0xc2]
    case TestAl => [0x84, 0xc0]
    case TestBit0 => [0xa8, 0x01]
    case Jcc(cc, rel) => [0x0f, 0x80 + CondCode(cc)] + Le(rel)
    case Jmp(rel) => [0xe9] + Le(rel)
    case CallRel(rel) => [0xe8] + Le(rel)
    case CallEax => [0xff, 0xd0]
    case PushEbp => [0x55]
    case SubEsp(imm) => [0x81, 0xec] + Le(imm)
    case Leave => [0xc9]
    case Ret => [0xc3]
    case Hlt => [0xf4]
  }

  // ----- Decoder -----

  type Decoded = Option<(Instr, nat)>

  function At(code: seq<byte>, p: nat): int {
    if p < |code| then code[p] else -1
  }

  function Imm(code: seq<byte>, p: nat): Option<word> {
    if p + 4 <= |code| then Some(LeAt(code, p)) else None
  }

  /** 8b, 89 and 8d with a ModR/M operand. */
  function DecodeMov(opcode: int, code: seq<byte>, p: nat): Decoded {
    var mrm := At(code, p + 1);
    if mrm < 0 then None else
    var mode, reg: Reg, rm: Reg := mrm / 64, mrm / 8 % 8, mrm % 8;
    if mode == 3 then
      if opcode == 0x89 then Some((MovReg(rm, reg), 2)) else None
    else if mode == 2 && rm == EBP then
      match Imm(code, p + 2)
      case None => None
      case Some(d) =>
        Some((if opcode == 0x8b then LoadEbp(reg, d) else if opcode == 0x89 then StoreEbp(reg, d)
              else LeaEbp(reg, d), 6))
    else if mode == 2 && rm == ESP && At(code, p + 2) == 0x24 && opcode != 0x8b then
      match Imm(code, p + 3)
      case None => None
      case Some(d) => Some((if opcode == 0x89 then StoreEsp(reg, d) else LeaEsp(reg, d), 7))
    else if rm == ESP || rm == EBP || opcode == 0x8d then None
    else if mode == 0 then Some((if opcode == 0x8b then LoadAt(reg, rm, 0) else StoreAt(reg, rm, 0), 2))
    else if mode == 1 && At(code, p + 2) == 4 then
      Some((if opcode == 0x8b then LoadAt(reg, rm, 4) else StoreAt(reg, rm, 4), 3))
    else None
  }

  /** The two-byte opcodes 0f xx. */
  function DecodeTwoByte(code: seq<byte>, p: nat): Decoded {
    var op, mrm := At(code, p + 1), At(code, p + 2);
    if 0x80 <= op < 0x90 then
      match (CondOf(op - 0x80), Imm(code, p + 2))
      case (Some(cc), Some(rel)) => Some((Jcc(cc, rel), 6))
      case _ => None
    else if 0x90 <= op < 0xa0 && mrm == 0xc2 then
      match CondOf(op - 0x90)
      case Some(cc) => Some((SetDl(cc), 3))
      case None => None
    else if 0xc0 <= mrm && mrm / 8 % 8 == mrm % 8 then
      if op == 0xb6 || op == 0xbe then
        if mrm % 8 < 4 then Some((ExtendByte(op == 0xbe, mrm % 8), 3)) else None
      else if op == 0xb7 || op == 0xbf then Some((ExtendHalf(op == 0xbf, mrm % 8), 3))
      else None
    else None
  }

  /** The remaining multi-byte forms, told apart by their second byte. */
  function DecodeGroup(op: int, code: seq<byte>, p: nat): Decoded {
    var b, c := At(code, p + 1), At(code, p + 2);
    if op == 0xf7 then
      if b == 0xe1 then Some((MulEcx, 2)) else if b == 0xf1 then Some((DivEcx, 2))
      else if b == 0xf9 then Some((IdivEcx, 2)) else None
    else if op == 0xd3 then
      if b == 0xe0 then Some((ShiftCl(SHL), 2)) else if b == 0xe8 then Some((ShiftCl(SHR), 2))
      else if b == 0xf8 then Some((ShiftCl(SAR), 2)) else None
    else if op == 0xc1 && c == 0x1f then
      if 0xe0 <= b < 0xe8 then Some((Shl31(b - 0xe0), 3))
      else if 0xf8 <= b then Some((Sar31(b - 0xf8), 3)) else None
    else if op == 0x83 && c == 0x01 && 0xe0 <= b < 0xe8 then Some((And1(b - 0xe0), 3))
    else if op == 0x66 then
      if b == 0x8b && c == 0 then Some((LoadHalf, 3)) else if b == 0x89 && c == 2 then Some((StoreHalf, 3)) else None
    else if op == 0x8a && b == 0 then Some((LoadByte, 2))
    else if op == 0x88 && b == 2 then Some((StoreByte, 2))
    else if op == 0x84 && b == 0xc0 then Some((TestAl, 2))
    else if op == 0xa8 && b == 1 then Some((TestBit0, 2))
    else if op == 0xff && b == 0xd0 then Some((CallEax, 2))
    else None
  }

  /** The forms that end in 32-bit immediates. */
  function DecodeImm(op: int, code: seq<byte>, p: nat): Decoded {
    var b := At(code, p + 1);
    if 0xb8 <= op < 0xc0 || op == 0xe9 || op == 0xe8 then
      match Imm(code, p + 1)
      case None => None
      case Some(v) =>
        Some((if op == 0xe9 then Jmp(v) else if op == 0xe8 then CallRel(v) else MovImm(op - 0xb8, v), 5))
    else if op == 0x81 && b == 0xec then
      match Imm(code, p + 2)
      case None => None
      case Some(v) => Some((SubEsp(v), 6))
    else if op == 0xc7 && b == 0x85 then
      match (Imm(code, p + 2), Imm(code, p + 6))
      case (Some(d), Some(v)) => Some((StoreEbpImm(d, v), 10))
      case _ => None
    else None
  }

  /** The instruction at position p and its length. */
  function Decode(code: seq<byte>, p: nat): Decoded {
    var op := At(code, p);
    if op < 0 then None
    else if op == 0x8b || op == 0x89 || op == 0x8d then DecodeMov(op, code, p)
    else if op == 0x0f then DecodeTwoByte(code, p)
    else if op < 0x40 && op % 8 == 1 then
      var mrm := At(code, p + 1);
      if 0xc0 <= mrm then Some((Alu(AluOf(op / 8), mrm % 8, mrm / 8 % 8), 2)) else None
    else if op == 0x99 then Some((Cdq, 1))
    else if op == 0x55 then Some((PushEbp, 1))
    else if op == 0xc9 then Some((Leave, 1))
    else if op == 0xc3 then Some((Ret, 1))
    else if op == 0xf4 then Some((Hlt, 1))
    else match DecodeImm(op, code, p)
         case Some(r) => Some(r)
         case None => DecodeGroup(op, code, p)
  }

  /** The bytes e stand at position p. */
  ghost predicate BytesAt(code: seq<byte>, p: nat, e: seq<byte>) {
    p + |e| <= |code| && forall k | 0 <= k < |e| :: code[p + k] == e[k]
  }

  lemma LeSum(w: word)
    ensures Le(w)[0] + W8 * Le(w)[1] + W16 * Le(w)[2] + W16 * W8 * Le(w)[3] == w
  {
    var q1 := w / W8;
    var q2 := q1 / W8;
    var q3 := q2 / W8;
    DivModUnique(w, W16, q2, W8 * (q1 % W8) + w % W8);
    DivModUnique(w, W16 * W8, q3, W16 * (q2 % W8) + W8 * (q1 % W8) + w % W8);
    DivModUnique(q3, W8, 0, q3);
  }

  lemma ImmAt(w: word, code: seq<byte>, p: nat, pre: seq<byte>, post: seq<byte>)
    requires BytesAt(code, p, pre + Le(w) + post)
    ensures Imm(code, p + |pre|) == Some(w)
  {
    var b, e, k := Le(w), pre + Le(w) + post, |pre|;
    assert forall j | 0 <= j < 4 :: code[p + (k + j)] == b[j] by {
      forall j | 0 <= j < 4 ensures code[p + (k + j)] == b[j] {
        assert code[p + (k + j)] == e[k + j];
      }
    }
    assert code[p + (k + 0)] == b[0] && code[p + (k + 1)] == b[1];
    assert code[p + (k + 2)] == b[2] && code[p + (k + 3)] == b[3];
    LeSum(w);
  }

  lemma FirstBytes(code: seq<byte>, p: nat, e: seq<byte>)
    requires BytesAt(code, p, e) && |e| > 0
    ensures At(code, p) == e[0]
    ensures |e| > 1 ==> At(code, p + 1) == e[1]
    ensures |e| > 2 ==> At(code, p + 2) == e[2]
  {
    assert code[p + 0] == e[0];
    assert |e| > 1 ==> code[p + 1] == e[1];
    assert |e| > 2 ==> code[p + 2] == e[2];
  }

  lemma ModRmFields(mode: nat, reg: Reg, rm: Reg)
    requires mode < 4
    ensures ModRm(mode, reg, rm) / 64 == mode
    ensures ModRm(mode, reg, rm) / 8 % 8 == reg
    ensures ModRm(mode, reg, rm) % 8 == rm
  {
    DivModUnique(ModRm(mode, reg, rm), 64, mode, 8 * reg + rm);
    DivModUnique(ModRm(mode, reg, rm), 8, 8 * mode + reg, rm);
    DivModUnique(8 * mode + reg, 8, mode, reg);
  }

  predicate IsMov(i: Instr) {
    i.MovReg? || i.LoadEbp? || i.StoreEbp? || i.StoreEsp? || i.LeaEbp? || i.LeaEsp? || i.LoadAt? || i.StoreAt?
  }

  predicate HasImm(i: Instr) {
    i.MovImm? || i.StoreEbpImm? || i.Jmp? || i.CallRel? || i.SubEsp?
  }

  predicate IsTwoByte(i: Instr) {
    i.ExtendByte? || i.ExtendHalf? || i.SetDl? || i.Jcc?
  }

  lemma DecodeMovForms(i: Instr, code: seq<byte>, p: nat)
    requires IsMov(i) && Encodable(i) && BytesAt(code, p, Encode(i))
    ensures Decode(code, p) == Some((i, |Encode(i)|))
  {
    FirstBytes(code, p, Encode(i));
    match i {
      case MovReg(d, r) => ModRmFields(3, r, d);
      case LoadEbp(r, v) => ModRmFields(2, r, EBP); ImmAt(v, code, p, [0x8b, ModRm(2, r, EBP)], []);
      case StoreEbp(r, v) => ModRmFields(2, r, EBP); ImmAt(v, code, p, [0x89, ModRm(2, r, EBP)], []);
      case StoreEsp(r, v) => ModRmFields(2, r, ESP); ImmAt(v, code, p, [0x89, ModRm(2, r, ESP), 0x24], []);
      case LeaEbp(r, v) => ModRmFields(2, r, EBP); ImmAt(v, code, p, [0x8d, ModRm(2, r, EBP)], []);
      case LeaEsp(r, v) => ModRmFields(2, r, ESP); ImmAt(v, code, p, [0x8d, ModRm(2, r, ESP), 0x24], []);
      case LoadAt(d, b, v) => ModRmFields(0, d, b); ModRmFields(1, d, b);
      case StoreAt(r, b, v) => ModRmFields(0, r, b); ModRmFields(1, r, b);
    }
  }

  lemma DecodeTwoByteForms(i: Instr, code: seq<byte>, p: nat)
    requires IsTwoByte(i) && Encodable(i) && BytesAt(code, p, Encode(i))
    ensures Decode(code, p) == Some((i, |Encode(i)|))
  {
    FirstBytes(code, p, Encode(i));
    match i {
      case Jcc(cc, v) => ImmAt(v, code, p, [0x0f, 0x80 + CondCode(cc)], []);
      case SetDl(_) =>
      case ExtendByte(_, r) => ModRmFields(3, r, r);
      case ExtendHalf(_, r) => ModRmFields(3, r, r);
    }
  }

  lemma DecodeImmForms(i: Instr, code: seq<byte>, p: nat)
    requires HasImm(i) && BytesAt(code, p, Encode(i))
    ensures Decode(code, p) == Some((i, |Encode(i)|))
  {
    FirstBytes(code, p, Encode(i));
    match i {
      case MovImm(r, v) => ImmAt(v, code, p, [0xb8 + r], []);
      case StoreEbpImm(d, v) =>
        ImmAt(d, code, p, [0xc7, 0x85], Le(v));
        ImmAt(v, code, p, [0xc7, 0x85] + Le(d), []);
      case Jmp(v) => ImmAt(v, code, p, [0xe9], []);
      case CallRel(v) => ImmAt(v, code, p, [0xe8], []);
      case SubEsp(v) => ImmAt(v, code, p, [0x81, 0xec], []);
    }
  }

  /** Decoding wherever an instruction was emitted gives back that instruction and its length. */
  lemma DecodeInvertsEncode(i: Instr, code: seq<byte>, p: nat)
    requires Encodable(i) && BytesAt(code, p, Encode(i))
    ensures Decode(code, p) == Some((i, |Encode(i)|))
  {
    if IsMov(i) {
      DecodeMovForms(i, code, p);
    } else if IsTwoByte(i) {
      DecodeTwoByteForms(i, code, p);
    } else if HasImm(i) {
      DecodeImmForms(i, code, p);
    } else {
      FirstBytes(code, p, Encode(i));
      if i.Alu? {
        ModRmFields(3, i.src, i.dst);
      }
    }
  }
}
