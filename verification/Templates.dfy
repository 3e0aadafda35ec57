/** The bytes of the instructions that the generated code consists of, written out apart from the
    encoder's tables: register numbers, opcodes, ModR/M bytes and condition codes as in the Intel 64
    and IA-32 SDM, Volume 2, and the fixed templates of codegen.cc. */
module Templates {
  import opened Words
  import opened Machine
  import opened Encoding

  /** Table 2-2: the register numbers, and immediates least significant byte first. */
  lemma Registers(v: word)
    ensures EAX == 0 && ECX == 1 && EDX == 2 && EBX == 3 && ESP == 4 && EBP == 5 && ESI == 6 && EDI == 7
    ensures var a: nat, b: nat, c: nat, d: nat := Le(v)[0], Le(v)[1], Le(v)[2], Le(v)[3];
      a + 0x100 * b + 0x1_0000 * c + 0x100_0000 * d == v
  {
    LeSum(v);
  }

  lemma MoveBytes(d: word, v: word)
    ensures Encode(MovImm(EAX, v)) == [0xb8] + Le(v) && Encode(MovImm(ECX, v)) == [0xb9] + Le(v)
    ensures Encode(MovImm(EDX, v)) == [0xba] + Le(v)
    ensures Encode(LoadEbp(EAX, d)) == [0x8b, 0x85] + Le(d) && Encode(LoadEbp(ECX, d)) == [0x8b, 0x8d] + Le(d)
    ensures Encode(LoadEbp(EDX, d)) == [0x8b, 0x95] + Le(d)
    ensures Encode(StoreEbp(EAX, d)) == [0x89, 0x85] + Le(d) && Encode(StoreEbp(ECX, d)) == [0x89, 0x8d] + Le(d)
    ensures Encode(StoreEbp(EDX, d)) == [0x89, 0x95] + Le(d) && Encode(StoreEbp(ESP, d)) == [0x89, 0xa5] + Le(d)
    ensures Encode(StoreEbpImm(d, v)) == [0xc7, 0x85] + Le(d) + Le(v)
  {
    hide Le;
  }

  lemma AddressBytes(d: word)
    ensures Encode(LeaEbp(EAX, d)) == [0x8d, 0x85] + Le(d) && Encode(LeaEbp(EDX, d)) == [0x8d, 0x95] + Le(d)
    ensures Encode(LeaEsp(EAX, d)) == [0x8d, 0x84, 0x24] + Le(d)
    ensures Encode(StoreEsp(EAX, d)) == [0x89, 0x84, 0x24] + Le(d) && Encode(StoreEsp(EDX, d)) == [0x89, 0x94, 0x24] + Le(d)
    ensures Encode(SubEsp(d)) == [0x81, 0xec] + Le(d)
  {
    hide Le;
  }

  lemma BitTemplates()
    ensures Encode(Shl31(EAX)) == [0xc1, 0xe0, 0x1f] && Encode(Sar31(EAX)) == [0xc1, 0xf8, 0x1f]
    ensures Encode(Shl31(ECX)) == [0xc1, 0xe1, 0x1f] && Encode(Sar31(ECX)) == [0xc1, 0xf9, 0x1f]
    ensures Encode(And1(EAX)) == [0x83, 0xe0, 0x01] && Encode(And1(ECX)) == [0x83, 0xe1, 0x01]
  {
  }

  lemma ExtendTemplates(sign: bool)
    ensures Encode(ExtendByte(sign, EAX)) == [0x0f, if sign then 0xbe else 0xb6, 0xc0]
    ensures Encode(ExtendByte(sign, ECX)) == [0x0f, if sign then 0xbe else 0xb6, 0xc9]
    ensures Encode(ExtendHalf(sign, EAX)) == [0x0f, if sign then 0xbf else 0xb7, 0xc0]
    ensures Encode(ExtendHalf(sign, ECX)) == [0x0f, if sign then 0xbf else 0xb7, 0xc9]
  {
  }

  lemma DivTemplates()
    ensures Encode(DivEcx) == [0xf7, 0xf1] && Encode(IdivEcx) == [0xf7, 0xf9] && Encode(Cdq) == [0x99]
    ensures Encode(Alu(XOR, EDX, EDX)) == [0x31, 0xd2]
  {
  }

  lemma ShiftTemplates()
    ensures Encode(ShiftCl(SHL)) == [0xd3, 0xe0] && Encode(ShiftCl(SHR)) == [0xd3, 0xe8] && Encode(ShiftCl(SAR)) == [0xd3, 0xf8]
    ensures Encode(MulEcx) == [0xf7, 0xe1]
  {
  }

  lemma CompareTemplate()
    ensures Encode(Alu(CMP, ECX, EAX)) == [0x39, 0xc1]
  {
  }

  lemma AluTemplates()
    ensures Encode(Alu(ADD, EAX, ECX)) == [0x01, 0xc8] && Encode(Alu(SUB, EAX, ECX)) == [0x29, 0xc8]
    ensures Encode(Alu(AND, EAX, ECX)) == [0x21, 0xc8] && Encode(Alu(OR, EAX, ECX)) == [0x09, 0xc8]
    ensures Encode(Alu(XOR, EAX, ECX)) == [0x31, 0xc8]
  {
  }

  lemma CopyTemplates()
    ensures Encode(LoadAt(ECX, EAX, 0)) == [0x8b, 0x08] && Encode(StoreAt(ECX, EDX, 0)) == [0x89, 0x0a]
    ensures Encode(LoadAt(ECX, EAX, 4)) == [0x8b, 0x48, 0x04] && Encode(StoreAt(ECX, EDX, 4)) == [0x89, 0x4a, 0x04]
    ensures Encode(LoadAt(EDX, EAX, 0)) == [0x8b, 0x10] && Encode(LoadAt(EDX, EAX, 4)) == [0x8b, 0x50, 0x04]
  {
  }

  lemma LoadTemplates()
    ensures Encode(LoadByte) == [0x8a, 0x00] && Encode(LoadHalf) == [0x66, 0x8b, 0x00]
    ensures Encode(LoadAt(EAX, EAX, 0)) == [0x8b, 0x00]
  {
  }

  lemma StoreTemplates()
    ensures Encode(StoreByte) == [0x88, 0x02] && Encode(StoreHalf) == [0x66, 0x89, 0x02]
    ensures Encode(StoreAt(EAX, EDX, 0)) == [0x89, 0x02]
  {
  }

  lemma TestTemplates()
    ensures Encode(TestAl) == [0x84, 0xc0] && Encode(TestBit0) == [0xa8, 0x01] && Encode(CallEax) == [0xff, 0xd0]
  {
  }

  lemma LeaveTemplates()
    ensures Encode(Leave) == [0xc9] && Encode(Ret) == [0xc3]
  {
  }

  lemma EdgeTemplates()
    ensures Encode(PushEbp) == [0x55] && Encode(Hlt) == [0xf4] && Encode(MovReg(EBP, ESP)) == [0x89, 0xe5]
  {
  }

  lemma JumpTemplates(rel: word)
    ensures Encode(Jmp(rel)) == [0xe9] + Le(rel) && Encode(CallRel(rel)) == [0xe8] + Le(rel)
    ensures Encode(Jcc(NE, rel)) == [0x0f, 0x85] + Le(rel) && Encode(Jcc(E, rel)) == [0x0f, 0x84] + Le(rel)
  {
    hide Le;
  }
}
