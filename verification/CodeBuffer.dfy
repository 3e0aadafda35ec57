/** CodeBuf: the code and data buffers with their slot, label, global and relocation tables, and
    the small emitters that everything else is written with. */
module CodeBuffer {
  import opened Words
  import opened IrOps
  import opened Machine
  import opened Encoding
  import opened Ir
  import opened Codegen
  import opened Operands
  import opened Emission
  import opened Buffers

  const BUFFER_SIZE := 0x100_0000

  class CodeBuf {
    const code: DataBuffer
    const data: DataBuffer
    const helpers: map<Helper, word>
    var stackslots: map<(nat, Ref), int>
    var labels: map<(nat, nat), word>
    var globals: map<GlobalRef, word>
    var frameVarsSize: nat
    var frameCalleesArgsSize: nat
    var jumpRelocs: seq<JumpReloc>
    var globalRelocs: seq<GlobalReloc>

    /** Since state `start` the items and pool constants of function `fn` listed here were added. */
    ghost var start: Buf
    ghost var fn: nat
    ghost var items: seq<Item>
    ghost var pool: seq<nat>

    constructor (codeBase: nat, dataBase: nat, helpers: map<Helper, word>)
      ensures Valid() && fresh(code) && fresh(code.buf) && fresh(data) && fresh(data.buf)
      ensures Image() == start == Buf([], [], map[], map[], map[], [], []) && items == [] && pool == []
      ensures Place() == Emission.Place(codeBase, dataBase, helpers)
      ensures code.buf.Length == BUFFER_SIZE && data.buf.Length == BUFFER_SIZE
    {
      code := new DataBuffer(codeBase, BUFFER_SIZE);
      data := new DataBuffer(dataBase, BUFFER_SIZE);
      this.helpers := helpers;
      stackslots, labels, globals := map[], map[], map[];
      frameVarsSize, frameCalleesArgsSize := 0, 0;
      jumpRelocs, globalRelocs := [], [];
      start, fn, items, pool := Buf([], [], map[], map[], map[], [], []), 0, [], [];
      new;
      EmitNone(Place(), 0, start);
    }

    ghost predicate Separate()
      reads this, code, code.buf, data, data.buf
    {
      code != data && code.buf != data.buf && code.Valid() && data.Valid()
    }

    ghost function Place(): Place {
      Emission.Place(code.base, data.base, helpers)
    }

    ghost function Image(): Buf
      reads this, code, data
    {
      Buf(code.contents, data.contents, stackslots, labels, globals, jumpRelocs, globalRelocs)
    }

    /** What the buffers and the relocation tables are at all times: what the items say. */
    ghost predicate Valid()
      reads this, code, code.buf, data, data.buf
      ensures Valid() ==> code != data && code.buf != data.buf
    {
      && Separate()
      && Image() == Tables(Emit(Place(), fn, items, pool, start), stackslots, labels, globals)
    }

    /** Exactly these items and constants were added, and no table but the relocations changed. */
    twostate predicate Added(new its: seq<Item>, new more: seq<nat>)
      reads this
    {
      && items == old(items) + its && pool == old(pool) + more && fn == old(fn) && start == old(start)
      && stackslots == old(stackslots) && labels == old(labels) && globals == old(globals)
      && frameVarsSize == old(frameVarsSize) && frameCalleesArgsSize == old(frameCalleesArgsSize)
    }

    /** How much of each buffer the items account for. */
    lemma Sizes()
      requires Valid()
      ensures code.current == |start.code| + Size(items) && data.current == |start.data| + 8 * |pool|
    {
    }

    /** Start accounting for function k. */
    ghost method Begin(k: nat)
      requires Separate()
      modifies `start, `fn, `items, `pool
      ensures Valid() && start == Image() && fn == k && items == [] && pool == []
    {
      start, fn, items, pool := Image(), k, [], [];
      EmitNone(Place(), k, start);
    }

    // ----- Raw bytes -----

    method PutByte(val: byte)
      requires Separate()
      modifies code, code.buf
      ensures Separate() && code.contents == old(code.contents) + [val]
    {
      code.PutBytes([val]);
    }

    method PutUint32(val: word)
      requires Separate()
      modifies code, code.buf
      ensures Separate() && code.contents == old(code.contents) + Le(val)
    {
      code.PutUint32(val);
    }

    /** Account for what has just been appended. */
    ghost method Record(its: seq<Item>, more: seq<nat>, e: Buf)
      requires Separate() && e == Tables(Emit(Place(), fn, items, pool, start), stackslots, labels, globals)
      requires Image() == Emit(Place(), fn, its, more, e)
      modifies `items, `pool
      ensures Valid() && items == old(items) + its && pool == old(pool) + more
    {
      hide Emit, Tables;
      EmitAppend(Place(), fn, items, pool, its, more, start);
      EmitTables(Place(), fn, its, more, Emit(Place(), fn, items, pool, start), stackslots, labels, globals);
      items := items + its;
      pool := pool + more;
    }

    /** A fixed byte template. */
    method PutCode(ghost i: Instr, bytes: seq<byte>)
      requires Valid() && bytes == Encode(i)
      modifies this, code, code.buf
      ensures Valid() && Added([Ins(i)], [])
    {
      ghost var e := Image();
      code.PutBytes(bytes);
      OneIns(Place(), fn, i, e);
      Record([Ins(i)], [], e);
    }

    // ----- Operands -----

    method PutGlobalReloc(dest: GlobalRef, offset: word)
      requires Separate()
      modifies this`globalRelocs, code, code.buf
      ensures Separate() && code.contents == old(code.contents) + Le(offset)
      ensures globalRelocs == old(globalRelocs) + [(InCode(|old(code.contents)|), dest)]
    {
      globalRelocs := globalRelocs + [(InCode(code.current), dest)];
      PutUint32(offset);
    }

    /** movl $imm, %reg */
    method MoveImmToReg(reg: Reg, imm: word)
      requires Valid()
      modifies this, code, code.buf
      ensures Valid() && Added([Ins(MovImm(reg, imm))], [])
    {
      hide Emit, Le, Tables, Encode;
      ghost var e := Image();
      PutByte(0xb8 + reg);
      PutUint32(imm);
      OneMovImm(Place(), fn, reg, imm, e);
      Record([Ins(MovImm(reg, imm))], [], e);
    }

    /** movl $g + off, %reg */
    method MoveGlobalToReg(reg: Reg, g: GlobalRef, off: word)
      requires Valid()
      modifies this, code, code.buf
      ensures Valid() && Added([MovGlobal(reg, g, off)], [])
    {
      hide Emit, Le, Tables, Encode;
      ghost var e := Image();
      PutByte(0xb8 + reg);
      PutGlobalReloc(g, off);
      OneGlobal(Place(), fn, reg, g, off, e);
      Record([MovGlobal(reg, g, off)], [], e);
    }

    /** An opcode with a register and an ebp-relative operand. */
    method PutEbpOperand(opcode: byte, reg: Reg, ebpOffset: int, ghost i: Instr)
      requires Valid() && Encode(i) == [opcode, 0x85 + 8 * reg] + Le(ebpOffset % W32)
      modifies this, code, code.buf
      ensures Valid() && Added([Ins(i)], [])
    {
      hide Emit, Le, Tables, Encode;
      ghost var e := Image();
      PutByte(opcode);
      PutByte(0x85 + 8 * reg);
      PutUint32(ebpOffset % W32);
      OneIns(Place(), fn, i, e);
      assert code.contents == e.code + Encode(i);
      Record([Ins(i)], [], e);
    }

    /** The 32-bit half of a value at byte offset `part` into a register. */
    method MovePartToReg(k: nat, f: Fn, reg: Reg, v: Value, part: nat)
      requires Valid() && Placed(stackslots, k, f, v) && PartOk(TypeOf(f, v), part)
      requires part == 4 ==> !IsAddress(f, v)
      modifies this, code, code.buf
      ensures Valid() && Added([MovePart(f, reg, v, part)], [])
    {
      hide Valid;
      var value := v;
      while IsCast(f, value)
        invariant Root(f, value) == Root(f, v)
        decreases if IsCast(f, value) then f.rank[value.r.i] + 1 else 0
      {
        value := f.body[value.r.i].a;
      }
      match value {
        case Const(_, Num(n)) => MoveImmToReg(reg, if part == 4 then n / W32 % W32 else n % W32);
        case Const(_, Addr(g, off)) => MoveGlobalToReg(reg, g, off % W32);
        case Use(r) =>
          var ebpOffset := stackslots[(k, r)] + part;
          PutEbpOperand(0x8b, reg, ebpOffset, LoadEbp(reg, ebpOffset % W32));
      }
    }

    /** The address of a 64-bit value into a register; a constant goes to the data segment first. */
    method AddrToReg(k: nat, f: Fn, reg: Reg, v: Value)
      requires Valid() && Placed(stackslots, k, f, v) && !IsAddress(f, v)
      modifies this, code, code.buf, data, data.buf
      ensures Valid() && Added([Codegen.AddrToReg(f, reg, v, old(data.CurrentPos()))], PoolOf(f, v))
      ensures data.current == old(data.current) + 8 * |PoolOf(f, v)|
    {
      var value := v;
      while IsCast(f, value)
        invariant Root(f, value) == Root(f, v)
        decreases if IsCast(f, value) then f.rank[value.r.i] + 1 else 0
      {
        value := f.body[value.r.i].a;
      }
      match value {
        case Const(_, konst) =>
          var addr := data.CurrentPos();
          PutConstant(konst.n);
          MoveImmToReg(reg, addr);
        case Use(r) =>
          PutEbpOperand(0x8d, reg, stackslots[(k, r)], LeaEbp(reg, stackslots[(k, r)] % W32));
      }
    }

    /** Eight bytes of the data segment. */
    method PutConstant(x: nat)
      requires Valid()
      modifies this`items, this`pool, data, data.buf
      ensures Valid() && Added([], [x]) && data.current == old(data.current) + 8
    {
      hide Emit, Le, Tables, Encode;
      ghost var e := Image();
      data.PutBytes(Le64(x));
      OneConstant(Place(), fn, x, e);
      Record([], [x], e);
    }

    // ----- Results -----

    method WriteRegToEbpOffset(reg: Reg, stackOffset: int)
      requires Valid()
      modifies this, code, code.buf
      ensures Valid() && Added([Ins(StoreEbp(reg, stackOffset % W32))], [])
    {
      PutEbpOperand(0x89, reg, stackOffset, StoreEbp(reg, stackOffset % W32));
    }

    method WriteRegToEspOffset(reg: Reg, stackOffset: int)
      requires Valid()
      modifies this, code, code.buf
      ensures Valid() && Added([Ins(StoreEsp(reg, stackOffset % W32))], [])
    {
      hide Emit, Le, Tables, Encode;
      ghost var e, i := Image(), StoreEsp(reg, stackOffset % W32);
      PutByte(0x89);
      PutByte(0x84 + 8 * reg);
      PutByte(0x24);
      PutUint32(stackOffset % W32);
      OneStoreEsp(Place(), fn, reg, stackOffset % W32, e);
      Record([Ins(i)], [], e);
    }

    /** The 32-bit half of a result at byte offset `part` into its slot. */
    method SpillPart(k: nat, f: Fn, reg: Reg, i: nat, part: nat)
      requires Valid() && Placed(stackslots, k, f, Use(Res(i))) && !IsCast(f, Use(Res(i))) && PartOk(TypeOf(f, Use(Res(i))), part)
      modifies this, code, code.buf
      ensures Valid() && Added([Spill(f, reg, i, part)], [])
    {
      hide Valid;
      WriteRegToEbpOffset(reg, stackslots[(k, Res(i))] + part);
    }

    // ----- Instruction forms -----

    method PutArithRegReg(op: Arith, dst: Reg, src: Reg)
      requires Valid()
      modifies this, code, code.buf
      ensures Valid() && Added([Ins(Alu(op, dst, src))], [])
    {
      PutCode(Alu(op, dst, src), [8 * AluCode(op) + 1, 64 * 3 + 8 * src + dst]);
    }

    /** The one-bit case of extend_to_i32. */
    method ExtendBit(reg: Reg, sign: bool)
      requires Valid() && reg < 4
      modifies this, code, code.buf
      ensures Valid() && Added(Extend(reg, sign, 1), [])
    {
      hide Valid;
      if sign {
        PutCode(Shl31(reg), [0xc1, 0xe0 + reg, 0x1f]);
        PutCode(Sar31(reg), [0xc1, 0xf8 + reg, 0x1f]);
      } else {
        PutCode(And1(reg), [0x83, 0xe0 + reg, 0x01]);
      }
    }

    /** Clean a register whose low bits hold a value of the given width. */
    method ExtendToI32(reg: Reg, sign: bool, srcSize: nat)
      requires Valid() && reg < 4 && (srcSize == 1 || srcSize == 8 || srcSize == 16 || srcSize == 32)
      modifies this, code, code.buf
      ensures Valid() && Added(Extend(reg, sign, srcSize), [])
    {
      hide Valid;
      if srcSize == 32 {
        return;
      }
      if srcSize == 1 {
        ExtendBit(reg, sign);
        return;
      }
      if srcSize == 8 {
        PutCode(ExtendByte(sign, reg), [0x0f, if sign then 0xbe else 0xb6, 64 * 3 + 8 * reg + reg]);
      } else {
        PutCode(ExtendHalf(sign, reg), [0x0f, if sign then 0xbf else 0xb7, 64 * 3 + 8 * reg + reg]);
      }
    }

    method PutDirectCall(h: Helper)
      requires Valid() && h in helpers
      modifies this, code, code.buf
      ensures Valid() && Added([CallHelper(h)], [])
    {
      hide Emit, Le, Tables, Encode;
      ghost var e := Image();
      PutByte(0xe8);
      var rel := (helpers[h] - (code.CurrentPos() + 4)) % W32;
      PutUint32(rel);
      OneCall(Place(), fn, h, e);
      CallDistance(helpers[h], code.base + |e.code|);
      Record([CallHelper(h)], [], e);
    }

    // ----- Labels and jumps -----

    method MakeLabel(bb: (nat, nat))
      requires Valid() && bb !in labels
      modifies this`labels
      ensures Valid() && labels == old(labels)[bb := code.CurrentPos()]
    {
      labels := labels[bb := code.CurrentPos()];
    }

    method SetCalleesArgsSize(n: nat)
      requires Valid()
      modifies this`frameCalleesArgsSize
      ensures Valid() && frameCalleesArgsSize == n
    {
      frameCalleesArgsSize := n;
    }

    method DefineGlobal(g: GlobalRef, address: word)
      requires Valid()
      modifies this`globals
      ensures Valid() && globals == old(globals)[g := address]
    {
      globals := globals[g := address];
    }

    method DirectJumpOffset32(dest: (nat, nat))
      requires Separate()
      modifies this`jumpRelocs, code, code.buf
      ensures Separate() && code.contents == old(code.contents) + Le(0)
      ensures jumpRelocs == old(jumpRelocs) + [(|old(code.contents)| + 4, dest)]
    {
      PutUint32(0); // placeholder
      jumpRelocs := jumpRelocs + [(code.current, dest)];
    }

    /** jmp to a block of the current function */
    method PutJump(b: nat, k: nat)
      requires Valid() && fn == k
      modifies this, code, code.buf
      ensures Valid() && Added([JumpTo(b)], [])
    {
      hide Emit, Le, Tables, Encode;
      ghost var e := Image();
      PutByte(0xe9);
      DirectJumpOffset32((k, b));
      OneJump(Place(), k, b, e);
      Record([JumpTo(b)], [], e);
    }

    /** jcc to a block of the current function */
    method PutJumpIf(cc: Cond, b: nat, k: nat)
      requires Valid() && fn == k
      modifies this, code, code.buf
      ensures Valid() && Added([JumpIf(cc, b)], [])
    {
      hide Emit, Le, Tables, Encode;
      ghost var e := Image();
      PutByte(0x0f);
      PutByte(0x80 + CondCode(cc));
      DirectJumpOffset32((k, b));
      OneJumpIf(Place(), k, cc, b, e);
      Record([JumpIf(cc, b)], [], e);
    }

    /** jnz with its field still zero; the field's position is returned. */
    method PutLocalJump() returns (jumpDest: nat)
      requires Valid()
      modifies this, code, code.buf
      ensures Valid() && Added([Ins(Jcc(NE, 0))], []) && jumpDest == |start.code| + Size(old(items)) + 2
    {
      hide Emit, Le, Tables, Encode;
      EmitSize(Place(), fn, items, pool, start);
      ghost var e := Image();
      PutByte(0x0f);
      PutByte(0x85);
      TableSize(Emit(Place(), fn, items, pool, start), stackslots, labels, globals);
      jumpDest := code.PutAllocSpace(4);
      OneLocalJump(Place(), fn, 0, e);
      assert Zeros(4) == Le(0) by { ZeroField(); }
      Record([Ins(Jcc(NE, 0))], [], e);
    }

    /** Point a local jump at the current position. */
    method FixLocalJump(jumpDest: nat, ghost pre: seq<Item>, ghost it: Item)
      requires Valid() && items == pre + [Ins(Jcc(NE, 0)), it] && jumpDest == |start.code| + Size(pre) + 2
      modifies `items, code`contents, code.buf
      ensures Valid() && items == pre + [Ins(Jcc(NE, ItemSize(it) % W32)), it]
    {
      hide Emit, Patch, Size;
      var here := code.current;
      var rel := (here - (jumpDest + 4)) % W32;
      LocalJump(Place(), fn, pre, it, pool, start, rel);
      code.WriteUint32(jumpDest, rel);
      items := pre + [Ins(Jcc(NE, ItemSize(it) % W32)), it];
    }

    // ----- Relocation -----

    /** Every recorded jump field is filled with the distance to its target. */
    method ApplyJumpRelocs()
      requires Separate() && !code.full && JumpsIn(code.contents, jumpRelocs)
      requires forall j | 0 <= j < |jumpRelocs| :: jumpRelocs[j].1 in labels
      modifies code`contents, code.buf
      ensures Separate() && code.contents == PatchJumps(code.base, labels, old(code.contents), jumpRelocs)
    {
      hide JumpsIn, PatchJumps, Patch;
      var i := 0;
      assert jumpRelocs[0..] == jumpRelocs;
      while i < |jumpRelocs|
        invariant 0 <= i <= |jumpRelocs| && Separate() && JumpsIn(code.contents, jumpRelocs[i..])
        invariant PatchJumps(code.base, labels, code.contents, jumpRelocs[i..])
                  == PatchJumps(code.base, labels, old(code.contents), jumpRelocs)
      {
        var reloc := jumpRelocs[i];
        JumpStep(code.base, labels, code.contents, jumpRelocs, i);
        code.WriteUint32(reloc.0 - 4, (labels[reloc.1] - (code.base + reloc.0)) % W32);
        i := i + 1;
      }
      NoJumps(code.base, labels, code.contents, jumpRelocs[i..]);
    }

    /** Every recorded global field is increased by its global's address. */
    method ApplyGlobalRelocs()
      requires Separate() && !code.full && !data.full && FixesIn(code.contents, data.contents, globalRelocs)
      requires forall j | 0 <= j < |globalRelocs| :: globalRelocs[j].1 in globals
      modifies code`contents, code.buf, data`contents, data.buf
      ensures Separate()
      ensures (code.contents, data.contents)
              == PatchFixes(globals, old(code.contents), old(data.contents), globalRelocs)
    {
      hide FixesIn, PatchFixes, Patch;
      var i := 0;
      assert globalRelocs[0..] == globalRelocs;
      while i < |globalRelocs|
        invariant 0 <= i <= |globalRelocs| && Separate() && FixesIn(code.contents, data.contents, globalRelocs[i..])
        invariant PatchFixes(globals, code.contents, data.contents, globalRelocs[i..])
                  == PatchFixes(globals, old(code.contents), old(data.contents), globalRelocs)
      {
        var reloc := globalRelocs[i];
        FixStep(globals, code.contents, data.contents, globalRelocs, i);
        match reloc.0 {
          case InCode(at) =>
            var x := code.ReadUint32(at);
            code.WriteUint32(at, (x + globals[reloc.1]) % W32);
          case InData(at) =>
            var x := data.ReadUint32(at);
            data.WriteUint32(at, (x + globals[reloc.1]) % W32);
        }
        i := i + 1;
      }
      NoFixes(globals, code.contents, data.contents, globalRelocs[i..]);
    }
  }

  lemma CallDistance(target: word, pos: nat)
    ensures (target - ((pos + 1) % W32 + 4)) % W32 == (target - (pos + 5)) % W32
  {
    ModSub(target - 4, (pos + 1) % W32, W32);
    ModSub(target - 4, pos + 1, W32);
  }

  /** v resolves to a constant or to a value with a slot. */
  predicate Placed(slots: map<(nat, Ref), int>, k: nat, f: Fn, v: Value) {
    var root := Root(f, v);
    root.Use? ==> (k, root.r) in slots && slots[(k, root.r)] == SlotOf(f, root.r)
  }

  predicate IsAddress(f: Fn, v: Value) {
    var root := Root(f, v);
    root.Const? && root.k.Addr?
  }

  lemma OneGlobal(pl: Place, k: nat, reg: Reg, g: GlobalRef, off: word, e: Buf)
    ensures Emit(pl, k, [MovGlobal(reg, g, off)], [], e)
            == e.(code := e.code + [0xb8 + reg] + Le(off), fixes := e.fixes + [(InCode(|e.code| + 1), g)])
  {
    hide Le, Emit;
    OneItem(pl, k, MovGlobal(reg, g, off), e);
    assert e.code + ([0xb8 + reg] + Le(off)) == e.code + [0xb8 + reg] + Le(off);
  }

  lemma OneMovImm(pl: Place, k: nat, reg: Reg, imm: word, e: Buf)
    ensures Emit(pl, k, [Ins(MovImm(reg, imm))], [], e) == e.(code := e.code + [0xb8 + reg] + Le(imm))
  {
    hide Le, Emit;
    OneItem(pl, k, Ins(MovImm(reg, imm)), e);
    assert e.code + ([0xb8 + reg] + Le(imm)) == e.code + [0xb8 + reg] + Le(imm);
  }

  lemma OneStoreEsp(pl: Place, k: nat, reg: Reg, disp: word, e: Buf)
    ensures Emit(pl, k, [Ins(StoreEsp(reg, disp))], [], e) == e.(code := e.code + [0x89] + [0x84 + 8 * reg] + [0x24] + Le(disp))
  {
    hide Le, Emit;
    OneItem(pl, k, Ins(StoreEsp(reg, disp)), e);
    assert e.code + ([0x89, 0x84 + 8 * reg, 0x24] + Le(disp)) == e.code + [0x89] + [0x84 + 8 * reg] + [0x24] + Le(disp);
  }

  lemma OneJump(pl: Place, k: nat, b: nat, e: Buf)
    ensures Emit(pl, k, [JumpTo(b)], [], e) == e.(code := e.code + [0xe9] + Le(0), jumps := e.jumps + [(|e.code| + 5, (k, b))])
  {
    hide Le, Emit;
    OneItem(pl, k, JumpTo(b), e);
    assert e.code + ([0xe9] + Le(0)) == e.code + [0xe9] + Le(0);
  }

  lemma OneJumpIf(pl: Place, k: nat, cc: Cond, b: nat, e: Buf)
    ensures Emit(pl, k, [JumpIf(cc, b)], [], e)
            == e.(code := e.code + [0x0f] + [0x80 + CondCode(cc)] + Le(0), jumps := e.jumps + [(|e.code| + 6, (k, b))])
  {
    hide Le, Emit, CondCode;
    OneItem(pl, k, JumpIf(cc, b), e);
    assert e.code + ([0x0f, 0x80 + CondCode(cc)] + Le(0)) == e.code + [0x0f] + [0x80 + CondCode(cc)] + Le(0);
  }

  lemma OneCall(pl: Place, k: nat, h: Helper, e: Buf)
    ensures Emit(pl, k, [CallHelper(h)], [], e)
            == e.(code := e.code + [0xe8] + Le((HelperAt(pl, h) - (pl.code + |e.code| + 5)) % W32))
  {
    hide Le, Emit, HelperAt;
    OneItem(pl, k, CallHelper(h), e);
    var rel := (HelperAt(pl, h) - (pl.code + |e.code| + 5)) % W32;
    assert e.code + ([0xe8] + Le(rel)) == e.code + [0xe8] + Le(rel);
  }

  lemma OneLocalJump(pl: Place, k: nat, rel: word, e: Buf)
    ensures Emit(pl, k, [Ins(Jcc(NE, rel))], [], e) == e.(code := e.code + [0x0f] + [0x85] + Le(rel))
  {
    hide Le, Emit;
    OneItem(pl, k, Ins(Jcc(NE, rel)), e);
    assert e.code + ([0x0f, 0x85] + Le(rel)) == e.code + [0x0f] + [0x85] + Le(rel);
  }

  /** Items around a local jump: only the jump's field depends on its distance. */
  lemma LocalJump(pl: Place, k: nat, pre: seq<Item>, it: Item, pool: seq<nat>, e: Buf, rel: word)
    ensures var b := Emit(pl, k, pre + [Ins(Jcc(NE, 0)), it], pool, e);
      && |b.code| == |e.code| + Size(pre) + 6 + ItemSize(it)
      && Emit(pl, k, pre + [Ins(Jcc(NE, rel)), it], pool, e) == b.(code := Patch(b.code, |e.code| + Size(pre) + 2, rel))
  {
    hide Emit, Patch, Size, Le;
    var a := Emit(pl, k, pre, pool, e);
    EmitSize(pl, k, pre, pool, e);
    LocalJumpAt(pl, k, it, a, rel);
    LocalJumpAt(pl, k, it, a, 0);
    EmitAppend(pl, k, pre, pool, [Ins(Jcc(NE, rel)), it], [], e);
    EmitAppend(pl, k, pre, pool, [Ins(Jcc(NE, 0)), it], [], e);
    assert pool + [] == pool;
    PatchField(a.code + [0x0f] + [0x85], 0, rel, Encode(Pending(pl, it, pl.code + |a.code| + 6)));
  }

  lemma EmitSize(pl: Place, k: nat, items: seq<Item>, pool: seq<nat>, e: Buf)
    ensures |Emit(pl, k, items, pool, e).code| == |e.code| + Size(items)
  {
  }

  lemma LocalJumpAt(pl: Place, k: nat, it: Item, a: Buf, rel: word)
    ensures Emit(pl, k, [Ins(Jcc(NE, rel)), it], [], a)
            == a.(code := a.code + [0x0f] + [0x85] + Le(rel) + Encode(Pending(pl, it, pl.code + |a.code| + 6)),
                  jumps := a.jumps + ItemJumps(k, it, |a.code| + 6), fixes := a.fixes + ItemFixes(it, |a.code| + 6))
    ensures |Encode(Pending(pl, it, pl.code + |a.code| + 6))| == ItemSize(it)
  {
    hide Emit, Le, ItemJumps, ItemFixes;
    var j := Ins(Jcc(NE, rel));
    var none: seq<nat> := [];
    assert [j] + [it] == [j, it] && none + none == none;
    OneLocalJump(pl, k, rel, a);
    EmitAppend(pl, k, [j], [], [it], [], a);
    OneItem(pl, k, it, Emit(pl, k, [j], [], a));
  }

  lemma PatchField(a: seq<byte>, x: word, y: word, c: seq<byte>)
    ensures Patch(a + Le(x) + c, |a|, y) == a + Le(y) + c
  {
    hide Le;
  }

  lemma ZeroField()
    ensures Le(0) == [0, 0, 0, 0] == Zeros(4)
  {
  }

  lemma NoJumps(base: nat, labels: map<(nat, nat), word>, code: seq<byte>, jumps: seq<JumpReloc>)
    requires jumps == []
    ensures JumpsIn(code, jumps) && PatchJumps(base, labels, code, jumps) == code
  {
  }

  lemma NoFixes(globals: map<GlobalRef, word>, code: seq<byte>, data: seq<byte>, fixes: seq<GlobalReloc>)
    requires fixes == []
    ensures FixesIn(code, data, fixes) && PatchFixes(globals, code, data, fixes) == (code, data)
  {
  }

  function Tables(e: Buf, slots: map<(nat, Ref), int>, labels: map<(nat, nat), word>, globals: map<GlobalRef, word>): Buf {
    e.(slots := slots, labels := labels, globals := globals)
  }

  lemma TableSize(e: Buf, slots: map<(nat, Ref), int>, labels: map<(nat, nat), word>, globals: map<GlobalRef, word>)
    ensures Tables(e, slots, labels, globals).code == e.code
  {
  }

  lemma EmitTables(pl: Place, k: nat, its: seq<Item>, more: seq<nat>, e: Buf, slots: map<(nat, Ref), int>,
                   labels: map<(nat, nat), word>, globals: map<GlobalRef, word>)
    ensures Emit(pl, k, its, more, Tables(e, slots, labels, globals)) == Tables(Emit(pl, k, its, more, e), slots, labels, globals)
  {
    hide PendingBytes, JumpSites, FixSites, PoolBytes;
  }

  lemma OneItem(pl: Place, k: nat, it: Item, e: Buf)
    ensures Emit(pl, k, [it], [], e)
            == e.(code := e.code + Encode(Pending(pl, it, pl.code + |e.code|)),
                  jumps := e.jumps + ItemJumps(k, it, |e.code|), fixes := e.fixes + ItemFixes(it, |e.code|))
  {
    hide Encode, Pending, ItemJumps, ItemFixes, ItemSize;
    assert [it][1..] == [];
    assert |PoolBytes([])| == 0;
    assert PendingBytes(pl, [it], pl.code + |e.code|) == Encode(Pending(pl, it, pl.code + |e.code|));
    assert JumpSites(k, [it], |e.code|) == ItemJumps(k, it, |e.code|);
    assert FixSites([it], |e.code|) == ItemFixes(it, |e.code|);
  }

  lemma OneIns(pl: Place, k: nat, i: Instr, e: Buf)
    ensures Emit(pl, k, [Ins(i)], [], e) == e.(code := e.code + Encode(i))
  {
    hide Encode, Emit;
    OneItem(pl, k, Ins(i), e);
  }

  lemma OneConstant(pl: Place, k: nat, x: nat, e: Buf)
    ensures Emit(pl, k, [], [x], e) == e.(data := e.data + Le64(x))
  {
    hide Le64;
    assert [x][1..] == [] && |PoolBytes([])| == 0;
    assert PoolBytes([x]) == Le64(x);
  }
}
