/** The System V calling convention of the i386, stated over bytes and apart from the code
    generator's frame layout: arguments occupy consecutive words from the word above the return
    address, and a 64-bit argument occupies two. */
module Abi {
  import opened Words
  import opened IrOps
  import opened Machine

  /** Four bytes, least significant first. */
  function WordAt(m: Mem, a: int): nat {
    Byte(m, a) + 0x100 * Byte(m, a + 1) + 0x1_0000 * Byte(m, a + 2) + 0x100_0000 * Byte(m, a + 3)
  }

  /** The bytes that arguments of these types occupy. */
  function StackBytes(tys: seq<Type>): nat {
    if tys == [] then 0 else (if tys[0].I64? then 8 else 4) + StackBytes(tys[1..])
  }

  /** The arguments found in the words from address a on. */
  function StackArgs(m: Mem, a: int, tys: seq<Type>): (vals: seq<nat>)
    ensures |vals| == |tys|
    decreases tys
  {
    if tys == [] then []
    else if tys[0].I64? then [WordAt(m, a) + 0x1_0000_0000 * WordAt(m, a + 4)] + StackArgs(m, a + 8, tys[1..])
    else [WordAt(m, a) % Pow2(tys[0].Bits())] + StackArgs(m, a + 4, tys[1..])
  }

  /** From the call at m, with the return address at esp, to the return at t: control is at the return
      address with esp just above it, registers 3, 5, 6 and 7 (ebx, ebp, esi and edi) are as they were
      at the call, and the result is in register 0 (eax), or in registers 2 and 0 (edx:eax) if it has 64 bits. */
  predicate ReturnsTo(m: State, ret: Option<Type>, result: Option<nat>, t: State)
    requires m.State?
  {
    && t.State?
    && var lo: nat, hi: nat := t.regs[0], t.regs[2];
    && t.eip == WordAt(m.mem, m.regs[4]) && t.regs[4] == (m.regs[4] as int + 4) % 0x1_0000_0000
    && t.regs[3] == m.regs[3] && t.regs[5] == m.regs[5] && t.regs[6] == m.regs[6] && t.regs[7] == m.regs[7]
    && match ret
       case None => result.None?
       case Some(I64) => result == Some(lo + 0x1_0000_0000 * hi)
       case Some(ty) => result == Some(lo % Pow2(ty.Bits()))
  }

  /** Argument j lies behind the bytes of the arguments before it. */
  lemma {:induction false} StackArgAt(m: Mem, a: int, tys: seq<Type>, j: nat)
    requires j < |tys|
    ensures tys[j].I64? ==> StackArgs(m, a, tys)[j] == Read64(m, a + StackBytes(tys[..j]))
    ensures !tys[j].I64? ==> StackArgs(m, a, tys)[j] == Read32(m, a + StackBytes(tys[..j])) % tys[j].Modulus()
    decreases tys
  {
    hide Read32;
    if j == 0 {
      ModulusPow2(tys[0]);
      LittleEndian(m, a);
      LittleEndian(m, a + 4);
    } else {
      assert tys[..j][1..] == tys[1..][..j - 1];
      StackArgAt(m, if tys[0].I64? then a + 8 else a + 4, tys[1..], j - 1);
    }
  }

  /** The machine's words are little-endian. */
  lemma LittleEndian(m: Mem, a: int)
    ensures Read32(m, a) == WordAt(m, a)
    ensures Read16(m, a) == Byte(m, a) + 0x100 * Byte(m, a + 1)
    ensures Read64(m, a) == WordAt(m, a) + 0x1_0000_0000 * WordAt(m, a + 4)
  {
  }

  lemma {:induction false} StackBytesAppend(a: seq<Type>, b: seq<Type>)
    ensures StackBytes(a + b) == StackBytes(a) + StackBytes(b)
  {
    if a == [] {
      assert a + b == b;
    } else {
      assert (a + b)[1..] == a[1..] + b;
      StackBytesAppend(a[1..], b);
    }
  }

  /** Arguments of one word each lie four bytes apart. */
  lemma {:induction false} OneWordEach(tys: seq<Type>)
    requires forall j | 0 <= j < |tys| :: !tys[j].I64?
    ensures StackBytes(tys) == 4 * |tys|
  {
    if tys != [] {
      OneWordEach(tys[1..]);
    }
  }
}
