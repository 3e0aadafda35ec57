/** The generated code written out byte by byte, apart from the encoder's tables: register numbers,
    opcodes and condition codes of the Intel 64 and IA-32 SDM, Volume 2, and the fixed templates. */
module Opcodes {
  import opened Words
  import opened IrOps
  import opened Machine
  import opened Encoding
  import opened Templates
  import opened Ir
  import opened Codegen
  import opened Execution

  predicate AllIns(items: seq<Item>) {
    forall j | 0 <= j < |items| :: items[j].Ins?
  }

  /** The bytes of items that name no block, global or helper. */
  function InsBytes(items: seq<Item>): seq<byte>
    requires AllIns(items)
  {
    if items == [] then [] else Encode(items[0].i) + InsBytes(items[1..])
  }

  /** They do not depend on where the items are placed. */
  lemma {:induction false} InsBytesAre(w: World, k: nat, items: seq<Item>, pos: nat)
    requires AllIns(items)
    ensures ResolvedBytes(w, k, items, pos) == InsBytes(items)
    decreases |items|
  {
    hide Encode;
    if items != [] {
      InsBytesAre(w, k, items[1..], pos + ItemSize(items[0]));
    }
  }

  lemma {:induction false} InsBytesAppend(a: seq<Item>, b: seq<Item>)
    requires AllIns(a) && AllIns(b)
    ensures InsBytes(a + b) == InsBytes(a) + InsBytes(b)
  {
    hide Encode;
    if a == [] {
      assert a + b == b;
    } else {
      assert (a + b)[1..] == a[1..] + b;
      InsBytesAppend(a[1..], b);
    }
  }

  lemma OneIns(i: Instr)
    ensures InsBytes([Ins(i)]) == Encode(i)
  {
    hide Encode;
    assert [Ins(i)][1..] == [];
  }

  lemma TwoIns(i: Instr, j: Instr)
    ensures InsBytes([Ins(i), Ins(j)]) == Encode(i) + Encode(j)
  {
    hide Encode;
    assert [Ins(i), Ins(j)] == [Ins(i)] + [Ins(j)];
    InsBytesAppend([Ins(i)], [Ins(j)]);
    OneIns(i);
    OneIns(j);
  }

  // ----- Arithmetic -----

  /** extend_to_i32 of eax and of ecx. */
  lemma ExtendBytes(sign: bool, bits: nat)
    requires bits == 1 || bits == 8 || bits == 16 || bits == 32
    ensures AllIns(Extend(EAX, sign, bits)) && AllIns(Extend(ECX, sign, bits))
    ensures InsBytes(Extend(EAX, sign, bits))
            == if bits == 32 then []
               else if bits == 1 then if sign then [0xc1, 0xe0, 0x1f, 0xc1, 0xf8, 0x1f] else [0x83, 0xe0, 0x01]
               else if bits == 8 then if sign then [0x0f, 0xbe, 0xc0] else [0x0f, 0xb6, 0xc0]
               else if sign then [0x0f, 0xbf, 0xc0] else [0x0f, 0xb7, 0xc0]
    ensures InsBytes(Extend(ECX, sign, bits))
            == if bits == 32 then []
               else if bits == 1 then if sign then [0xc1, 0xe1, 0x1f, 0xc1, 0xf9, 0x1f] else [0x83, 0xe1, 0x01]
               else if bits == 8 then if sign then [0x0f, 0xbe, 0xc9] else [0x0f, 0xb6, 0xc9]
               else if sign then [0x0f, 0xbf, 0xc9] else [0x0f, 0xb7, 0xc9]
  {
    hide InsBytes, Extend, Encode;
    ExtendCode(EAX, sign, bits);
    ExtendCode(ECX, sign, bits);
    BitTemplates();
    ExtendTemplates(sign);
  }

  lemma ExtendCode(r: Reg, sign: bool, bits: nat)
    requires r < 2 && (bits == 1 || bits == 8 || bits == 16 || bits == 32)
    ensures AllIns(Extend(r, sign, bits))
    ensures InsBytes(Extend(r, sign, bits))
            == if bits == 32 then []
               else if bits == 1 then
                 if sign then Encode(Shl31(r)) + Encode(Sar31(r)) else Encode(And1(r))
               else if bits == 8 then Encode(ExtendByte(sign, r)) else Encode(ExtendHalf(sign, r))
  {
    hide Encode, InsBytes;
    if bits == 32 {
      assert InsBytes([]) == [] by { NoIns(); }
    } else if bits == 1 {
      TwoIns(Shl31(r), Sar31(r));
      OneIns(And1(r));
    } else {
      OneIns(ExtendByte(sign, r));
      OneIns(ExtendHalf(sign, r));
    }
  }

  lemma NoIns()
    ensures InsBytes([]) == []
  {
  }

  /** The thirteen one-word operations behind their operands' loads. */
  lemma OpBytes(op: BinOp, bits: nat)
    requires bits == 1 || bits == 8 || bits == 16 || bits == 32
    ensures AllIns(OpItems(op, bits)) && AllIns(Extend(EAX, false, bits)) && AllIns(Extend(EAX, true, bits))
    ensures AllIns(Extend(ECX, false, bits)) && AllIns(Extend(ECX, true, bits))
    ensures InsBytes(OpItems(op, bits))
            == match op
               case Add => [0x01, 0xc8]
               case Sub => [0x29, 0xc8]
               case And => [0x21, 0xc8]
               case Or => [0x09, 0xc8]
               case Xor => [0x31, 0xc8]
               case Mul => [0xf7, 0xe1]
               case UDiv => InsBytes(Extend(EAX, false, bits)) + InsBytes(Extend(ECX, false, bits)) + [0x31, 0xd2, 0xf7, 0xf1]
               case URem => InsBytes(Extend(EAX, false, bits)) + InsBytes(Extend(ECX, false, bits)) + [0x31, 0xd2, 0xf7, 0xf1]
               case SDiv => InsBytes(Extend(EAX, true, bits)) + InsBytes(Extend(ECX, true, bits)) + [0x99, 0xf7, 0xf9]
               case SRem => InsBytes(Extend(EAX, true, bits)) + InsBytes(Extend(ECX, true, bits)) + [0x99, 0xf7, 0xf9]
               case Shl => [0xd3, 0xe0]
               case LShr => InsBytes(Extend(EAX, false, bits)) + [0xd3, 0xe8]
               case AShr => InsBytes(Extend(EAX, true, bits)) + [0xd3, 0xf8]
    ensures ResultReg(op) == if op.URem? || op.SRem? then 2 else 0
  {
    hide InsBytes, Extend, Encode;
    ExtendBytes(false, bits);
    ExtendBytes(true, bits);
    AluTemplates();
    ShiftTemplates();
    match op {
      case Add => OneIns(Alu(ADD, EAX, ECX));
      case Sub => OneIns(Alu(SUB, EAX, ECX));
      case And => OneIns(Alu(AND, EAX, ECX));
      case Or => OneIns(Alu(OR, EAX, ECX));
      case Xor => OneIns(Alu(XOR, EAX, ECX));
      case Mul => OneIns(MulEcx);
      case UDiv => DivideBytes(false, bits);
      case URem => DivideBytes(false, bits);
      case SDiv => DivideBytes(true, bits);
      case SRem => DivideBytes(true, bits);
      case Shl => OneIns(ShiftCl(SHL));
      case LShr =>
        InsBytesAppend(Extend(EAX, false, bits), [Ins(ShiftCl(SHR))]);
        OneIns(ShiftCl(SHR));
      case AShr =>
        InsBytesAppend(Extend(EAX, true, bits), [Ins(ShiftCl(SAR))]);
        OneIns(ShiftCl(SAR));
    }
  }

  lemma DivideBytes(sign: bool, bits: nat)
    requires bits == 1 || bits == 8 || bits == 16 || bits == 32
    ensures AllIns(Extend(EAX, sign, bits)) && AllIns(Extend(ECX, sign, bits))
    ensures var code := if sign then [Ins(Cdq), Ins(IdivEcx)] else [Ins(Alu(XOR, EDX, EDX)), Ins(DivEcx)];
      InsBytes(Extend(EAX, sign, bits) + Extend(ECX, sign, bits) + code)
      == InsBytes(Extend(EAX, sign, bits)) + InsBytes(Extend(ECX, sign, bits))
         + if sign then [0x99, 0xf7, 0xf9] else [0x31, 0xd2, 0xf7, 0xf1]
  {
    hide InsBytes, Extend, Encode;
    ExtendBytes(sign, bits);
    var a, b := Extend(EAX, sign, bits), Extend(ECX, sign, bits);
    var code := if sign then [Ins(Cdq), Ins(IdivEcx)] else [Ins(Alu(XOR, EDX, EDX)), Ins(DivEcx)];
    InsBytesAppend(a, b);
    InsBytesAppend(a + b, code);
    DivTemplates();
    if sign {
      TwoIns(Cdq, IdivEcx);
    } else {
      TwoIns(Alu(XOR, EDX, EDX), DivEcx);
    }
  }

  /** cmp %eax, %ecx and the setCC that each predicate stands for. */
  lemma CompareBytes(p: Pred, bits: nat)
    requires bits == 1 || bits == 8 || bits == 16 || bits == 32
    ensures AllIns(CompareItems(p, bits)) && AllIns(Extend(EAX, p.Signed(), bits)) && AllIns(Extend(ECX, p.Signed(), bits))
    ensures InsBytes(CompareItems(p, bits))
            == InsBytes(Extend(EAX, p.Signed(), bits)) + InsBytes(Extend(ECX, p.Signed(), bits))
               + [0x39, 0xc1, 0x0f,
                  match p
                  case Eq => 0x94
                  case Ne => 0x95
                  case Ugt => 0x97
                  case Uge => 0x93
                  case Ult => 0x92
                  case Ule => 0x96
                  case Sgt => 0x9f
                  case Sge => 0x9d
                  case Slt => 0x9c
                  case Sle => 0x9e,
                  0xc2]
    ensures p.Signed() <==> p == Sgt || p == Sge || p == Slt || p == Sle
  {
    hide InsBytes, Extend, Encode;
    ExtendBytes(p.Signed(), bits);
    var a, b := Extend(EAX, p.Signed(), bits), Extend(ECX, p.Signed(), bits);
    var c, d := Alu(CMP, ECX, EAX), SetDl(CondFor(p));
    InsBytesAppend(a, b);
    InsBytesAppend(a + b, [Ins(c), Ins(d)]);
    TwoIns(c, d);
    CompareTemplate();
    SetTemplate(p);
  }

  lemma SetTemplate(p: Pred)
    ensures Encode(SetDl(CondFor(p)))
            == [0x0f,
                match p
                case Eq => 0x94
                case Ne => 0x95
                case Ugt => 0x97
                case Uge => 0x93
                case Ult => 0x92
                case Ule => 0x96
                case Sgt => 0x9f
                case Sge => 0x9d
                case Slt => 0x9c
                case Sle => 0x9e,
                0xc2]
  {
  }

  /** The eight-byte copy leaves every register but ecx alone; its bytes are those of codegen.cc. */
  lemma CopyBytes()
    ensures InsBytes(COPY64) == [0x8b, 0x08, 0x89, 0x0a, 0x8b, 0x48, 0x04, 0x89, 0x4a, 0x04]
  {
    hide InsBytes, Encode;
    var a, b := [Ins(LoadAt(ECX, EAX, 0)), Ins(StoreAt(ECX, EDX, 0))], [Ins(LoadAt(ECX, EAX, 4)), Ins(StoreAt(ECX, EDX, 4))];
    CopyTemplates();
    TwoIns(LoadAt(ECX, EAX, 0), StoreAt(ECX, EDX, 0));
    TwoIns(LoadAt(ECX, EAX, 4), StoreAt(ECX, EDX, 4));
    InsBytesAppend(a, b);
    assert COPY64 == a + b;
  }

  /** pushl %ebp; movl %esp, %ebp; subl $size, %esp. */
  lemma PrologBytes(f: Fn)
    ensures AllIns(Prolog(f))
    ensures InsBytes(Prolog(f)) == [0x55, 0x89, 0xe5, 0x81, 0xec] + Le((VarsSize(f, |f.body|) + OutSize(f, |f.body|)) % W32)
  {
    hide InsBytes, Encode, VarsSize, OutSize;
    var size := (VarsSize(f, |f.body|) + OutSize(f, |f.body|)) % W32;
    EdgeTemplates();
    AddressBytes(size);
    TwoIns(PushEbp, MovReg(EBP, ESP));
    OneIns(SubEsp(size));
    InsBytesAppend([Ins(PushEbp), Ins(MovReg(EBP, ESP))], [Ins(SubEsp(size))]);
    assert Prolog(f) == [Ins(PushEbp), Ins(MovReg(EBP, ESP))] + [Ins(SubEsp(size))];
  }

  // ----- Items that name a block, a global or a helper -----

  /** A displacement counts from the end of its field, and a global's address is added to the offset. */
  lemma TargetBytes(w: World, k: nat, b: nat, h: Helper, pos: nat)
    ensures Encode(Resolve(w, k, JumpTo(b), pos)) == [0xe9] + Le((Label(w, k, b) - (pos + 5)) % W32)
    ensures Encode(Resolve(w, k, JumpIf(NE, b), pos)) == [0x0f, 0x85] + Le((Label(w, k, b) - (pos + 6)) % W32)
    ensures Encode(Resolve(w, k, JumpIf(E, b), pos)) == [0x0f, 0x84] + Le((Label(w, k, b) - (pos + 6)) % W32)
    ensures Encode(Resolve(w, k, CallHelper(h), pos)) == [0xe8] + Le((HelperAddr(w, h) - (pos + 5)) % W32)
  {
    hide Le, Label, HelperAddr, Encode;
    JumpTemplates((Label(w, k, b) - (pos + 5)) % W32);
    JumpTemplates((Label(w, k, b) - (pos + 6)) % W32);
    JumpTemplates((HelperAddr(w, h) - (pos + 5)) % W32);
  }

  lemma GlobalBytes(w: World, k: nat, r: Reg, g: GlobalRef, off: word, pos: nat)
    ensures Encode(Resolve(w, k, MovGlobal(r, g, off), pos)) == [0xb8 + r] + Le((off + AddressOf(w.p, g)) % W32)
  {
    hide Le, AddressOf;
  }
}
