/** Lowering getelementptr to integer arithmetic: the emitted instructions compute the typed
    address modulo 2 to the 32, for any nesting and any i32 indices, negative ones included. */
module GetElementPtr {
  import opened Words
  import opened IrOps
  import opened Machine
  import opened Ir
  import opened Layout
  import opened Constants

  /** The type the next index applies to: at first the pointer itself. */
  datatype Cursor = Pointer(pointee: Ty) | Inside(ty: Ty)

  predicate IsStruct(cur: Cursor) {
    cur.Inside? && cur.ty.TStruct?
  }

  function ElementType(cur: Cursor): Ty
    requires cur.Pointer? || cur.ty.TArray?
  {
    if cur.Pointer? then cur.pointee else cur.ty.elem
  }

  /** Indices LLVM accepts: constants into structs, i32 values elsewhere. */
  predicate IndicesOk(cur: Cursor, idx: seq<Value>)
    decreases |idx|
  {
    idx == [] ||
    if IsStruct(cur) then
      idx[0].Const? && idx[0].k.Num? && idx[0].k.n < |cur.ty.fields| && idx[0].k.n < W32
      && IndicesOk(Inside(cur.ty.fields[idx[0].k.n]), idx[1..])
    else
      (cur.Pointer? || cur.ty.TArray?) && (idx[0].Const? ==> idx[0].ty.I32?) && IndicesOk(Inside(ElementType(cur)), idx[1..])
  }

  function Number(n: nat): Value {
    Const(I32, Num(n % W32))
  }

  /** The instructions for the remaining indices, numbered from `first` on, and the conversion back. */
  function LowerFrom(ptr: Value, cur: Cursor, idx: seq<Value>, first: nat): (insts: seq<Inst>)
    requires IndicesOk(cur, idx)
    ensures insts != []
    decreases |idx|
  {
    if idx == [] then [Ir.Cast(I32, Ptr, ptr)]
    else if IsStruct(cur) then
      var field := idx[0].k.n;
      [Bin(Add, I32, ptr, Number(ElementOffset(cur.ty.fields, cur.ty.packed, field)))]
      + LowerFrom(Use(Res(first)), Inside(cur.ty.fields[field]), idx[1..], first + 1)
    else
      [Bin(Mul, I32, idx[0], Number(AllocSize(ElementType(cur)))), Bin(Add, I32, ptr, Use(Res(first)))]
      + LowerFrom(Use(Res(first + 1)), Inside(ElementType(cur)), idx[1..], first + 2)
  }

  function Lowered(ptr: Value, ty: Ty, idx: seq<Value>, first: nat): (insts: seq<Inst>)
    requires IndicesOk(Pointer(ty), idx)
    ensures insts != []
  {
    [Ir.Cast(Ptr, I32, ptr)] + LowerFrom(Use(Res(first)), Pointer(ty), idx, first + 1)
  }

  lemma NextStruct(ptr: Value, cur: Cursor, idx: seq<Value>, j: nat, first: nat)
    requires j < |idx| && IndicesOk(cur, idx[j..]) && IsStruct(cur)
    ensures idx[j].Const? && idx[j].k.Num? && idx[j].k.n < |cur.ty.fields|
    ensures IndicesOk(Inside(cur.ty.fields[idx[j].k.n]), idx[j + 1..])
    ensures LowerFrom(ptr, cur, idx[j..], first)
            == [Bin(Add, I32, ptr, Number(ElementOffset(cur.ty.fields, cur.ty.packed, idx[j].k.n)))]
               + LowerFrom(Use(Res(first)), Inside(cur.ty.fields[idx[j].k.n]), idx[j + 1..], first + 1)
  {
    hide ElementOffset;
    assert idx[j..][0] == idx[j] && idx[j..][1..] == idx[j + 1..];
  }

  lemma NextSequential(ptr: Value, cur: Cursor, idx: seq<Value>, j: nat, first: nat)
    requires j < |idx| && IndicesOk(cur, idx[j..]) && !IsStruct(cur)
    ensures (cur.Pointer? || cur.ty.TArray?) && IndicesOk(Inside(ElementType(cur)), idx[j + 1..])
    ensures LowerFrom(ptr, cur, idx[j..], first)
            == [Bin(Mul, I32, idx[j], Number(AllocSize(ElementType(cur)))), Bin(Add, I32, ptr, Use(Res(first)))]
               + LowerFrom(Use(Res(first + 1)), Inside(ElementType(cur)), idx[j + 1..], first + 2)
  {
    hide AllocSize;
    assert idx[j..][0] == idx[j] && idx[j..][1..] == idx[j + 1..];
  }

  /** runOnBasicBlock, for one getelementptr: instructions are inserted before it, numbered from
      `first`, and the last one replaces it. */
  method LowerGep(pointer: Value, pointee: Ty, idx: seq<Value>, first: nat) returns (insts: seq<Inst>, result: Value)
    requires IndicesOk(Pointer(pointee), idx)
    ensures insts == Lowered(pointer, pointee, idx, first) && result == Use(Res(first + |insts| - 1))
  {
    hide AllocSize, ElementOffset, LowerFrom, IndicesOk;
    insts := [Ir.Cast(Ptr, I32, pointer)];
    var ptr, cur := Use(Res(first)), Pointer(pointee);
    var j := 0;
    assert idx[0..] == idx;
    while j < |idx|
      invariant 0 <= j <= |idx| && IndicesOk(cur, idx[j..])
      invariant insts + LowerFrom(ptr, cur, idx[j..], first + |insts|) == Lowered(pointer, pointee, idx, first)
    {
      if IsStruct(cur) {
        NextStruct(ptr, cur, idx, j, first + |insts|);
        var field := idx[j].k.n;
        var offset := ElementOffset(cur.ty.fields, cur.ty.packed, field);
        insts, ptr := insts + [Bin(Add, I32, ptr, Number(offset))], Use(Res(first + |insts|));
        cur := Inside(cur.ty.fields[field]);
      } else {
        NextSequential(ptr, cur, idx, j, first + |insts|);
        var elementSize := AllocSize(ElementType(cur));
        insts, ptr := insts + [Bin(Mul, I32, idx[j], Number(elementSize)), Bin(Add, I32, ptr, Use(Res(first + |insts|)))],
                      Use(Res(first + |insts| + 1));
        cur := Inside(ElementType(cur));
      }
      j := j + 1;
    }
    LastIndex(ptr, cur, idx[j..], first + |insts|);
    insts := insts + [Ir.Cast(I32, Ptr, ptr)];
    result := Use(Res(first + |insts| - 1));
  }

  lemma LastIndex(ptr: Value, cur: Cursor, idx: seq<Value>, first: nat)
    requires idx == []
    ensures IndicesOk(cur, idx) && LowerFrom(ptr, cur, idx, first) == [Ir.Cast(I32, Ptr, ptr)]
  {
  }

  // ----- What the instructions compute -----

  /** Straight-line arithmetic and casts, result j going to name first + j. */
  function Compute(p: Program, env: Env, first: nat, insts: seq<Inst>): Option<Env>
    decreases |insts|
  {
    if insts == [] then Some(env) else
    match ComputeOne(p, env, insts[0])
    case None => None
    case Some(v) => Compute(p, env[Res(first) := v], first + 1, insts[1..])
  }

  function ComputeOne(p: Program, env: Env, inst: Inst): Option<nat> {
    match inst
    case Bin(op, ty, a, b) =>
      (match (Read(p, env, a), Read(p, env, b))
       case (Some(x), Some(y)) => EvalBin(op, ty, x, y)
       case _ => None)
    case Cast(_, to, a) =>
      (match Read(p, env, a)
       case Some(x) => Some(x % to.Modulus())
       case None => None)
    case _ => None
  }

  /** This is the step semantics of the program. */
  lemma ComputeIsStep(p: Program, f: Fn, i: nat, env: Env, stack: Stack, mem: Mem)
    requires i < |f.body| && (f.body[i].Bin? || f.body[i].Cast?)
    ensures StepLocal(p, false, f, i, env, stack, mem)
            == match ComputeOne(p, env, f.body[i]) case None => None case Some(v) => Some((env[Res(i) := v], mem))
  {
    hide EvalBin, Read;
  }

  /** A name defined before `first`. */
  predicate Older(v: Value, first: nat) {
    v.Use? && v.r.Res? ==> v.r.i < first
  }

  lemma ReadOlder(p: Program, env: Env, v: Value, i: nat, x: nat)
    requires Older(v, i)
    ensures Read(p, env[Res(i) := x], v) == Read(p, env, v)
  {
  }

  predicate IndicesKnown(p: Program, env: Env, idx: seq<Value>, first: nat) {
    forall j | 0 <= j < |idx| :: Older(idx[j], first) && Read(p, env, idx[j]).Some? && Read(p, env, idx[j]).value < W32
  }

  lemma IndicesStill(p: Program, env: Env, idx: seq<Value>, first: nat, x: nat)
    requires IndicesKnown(p, env, idx, first)
    ensures IndicesKnown(p, env[Res(first) := x], idx, first + 1)
    ensures forall j | 0 <= j < |idx| :: Read(p, env[Res(first) := x], idx[j]) == Read(p, env, idx[j])
  {
    forall j | 0 <= j < |idx| ensures Read(p, env[Res(first) := x], idx[j]) == Read(p, env, idx[j]) {
      ReadOlder(p, env, idx[j], first, x);
    }
  }

  /** The typed distance of the remaining indices: i32 values are signed. */
  function Distance(p: Program, env: Env, cur: Cursor, idx: seq<Value>): int
    requires IndicesOk(cur, idx) && forall j | 0 <= j < |idx| :: Read(p, env, idx[j]).Some?
    decreases |idx|
  {
    if idx == [] then 0
    else if IsStruct(cur) then
      ElementOffset(cur.ty.fields, cur.ty.packed, idx[0].k.n) + Distance(p, env, Inside(cur.ty.fields[idx[0].k.n]), idx[1..])
    else
      Signed(W32, Read(p, env, idx[0]).value) * AllocSize(ElementType(cur)) + Distance(p, env, Inside(ElementType(cur)), idx[1..])
  }

  lemma {:induction false} DistanceStill(p: Program, env: Env, env': Env, cur: Cursor, idx: seq<Value>)
    requires IndicesOk(cur, idx)
    requires forall j | 0 <= j < |idx| :: Read(p, env, idx[j]).Some? && Read(p, env', idx[j]) == Read(p, env, idx[j])
    ensures Distance(p, env', cur, idx) == Distance(p, env, cur, idx)
    decreases |idx|
  {
    hide AllocSize, ElementOffset, Read;
    if idx != [] {
      if IsStruct(cur) {
        DistanceStill(p, env, env', Inside(cur.ty.fields[idx[0].k.n]), idx[1..]);
      } else {
        DistanceStill(p, env, env', Inside(ElementType(cur)), idx[1..]);
      }
    }
  }

  /** Multiplying by a signed number and by its 32-bit representation agree modulo 2 to the 32. */
  lemma SignedProduct(x: nat, n: nat)
    requires x < W32
    ensures (x * (n % W32)) % W32 == (Signed(W32, x) * n) % W32
  {
    ModMul(x, n % W32, W32);
    ModMul(x, n, W32);
    DivModUnique(n % W32, W32, 0, n % W32);
    if 2 * x >= W32 {
      assert (x - W32) * n == x * n + W32 * (0 - n);
      AddMultiple(x * n, W32, 0 - n);
    }
  }

  lemma SumOfResidues(a: nat, d: int, rest: int)
    ensures ((a + d % W32) % W32 + rest) % W32 == (a + (d + rest)) % W32
  {
    ModAdd(a, d % W32, W32);
    ModAdd(a, d, W32);
    DivModUnique(d % W32, W32, 0, d % W32);
    ModAdd(a + d, rest, W32);
    ModAdd((a + d % W32) % W32, rest, W32);
    DivModUnique((a + d) % W32, W32, 0, (a + d) % W32);
  }

  /** Whether a run of lowered code leaves the address in its last result and no older name changed. */
  ghost predicate Computes(p: Program, env: Env, first: nat, insts: seq<Inst>, address: nat) {
    && insts != [] && Compute(p, env, first, insts).Some?
    && var env' := Compute(p, env, first, insts).value;
       && Res(first + |insts| - 1) in env' && env'[Res(first + |insts| - 1)] == address
       && forall r: Ref | r.Res? ==> r.i < first :: (r in env' <==> r in env) && (r in env ==> env'[r] == env[r])
  }

  lemma ComputesNext(p: Program, env: Env, first: nat, inst: Inst, x: nat, rest: seq<Inst>, address: nat)
    requires ComputeOne(p, env, inst) == Some(x) && Computes(p, env[Res(first) := x], first + 1, rest, address)
    ensures Computes(p, env, first, [inst] + rest, address)
  {
    hide ComputeOne;
    assert ([inst] + rest)[0] == inst && ([inst] + rest)[1..] == rest;
  }

  /** The last conversion. */
  lemma ComputesLast(p: Program, env: Env, ptr: Value, a: nat, first: nat)
    requires Read(p, env, ptr) == Some(a) && a < W32
    ensures Computes(p, env, first, [Ir.Cast(I32, Ptr, ptr)], a)
  {
    DivModUnique(a, W32, 0, a);
    var insts := [Ir.Cast(I32, Ptr, ptr)];
    assert insts[1..] == [];
    assert Compute(p, env, first, insts) == Some(env[Res(first) := a]);
  }

  lemma {:induction false} LowerFromCorrect(p: Program, env: Env, ptr: Value, a: nat, cur: Cursor, idx: seq<Value>, first: nat)
    requires IndicesOk(cur, idx) && IndicesKnown(p, env, idx, first)
    requires Older(ptr, first) && Read(p, env, ptr) == Some(a) && a < W32
    ensures Computes(p, env, first, LowerFrom(ptr, cur, idx, first), (a + Distance(p, env, cur, idx)) % W32)
    decreases |idx|
  {
    hide AllocSize, ElementOffset, Computes, Compute, IndicesKnown;
    KnownReads(p, env, idx, first);
    if idx == [] {
      DivModUnique(a, W32, 0, a);
      ComputesLast(p, env, ptr, a, first);
    } else if IsStruct(cur) {
      var d := ElementOffset(cur.ty.fields, cur.ty.packed, idx[0].k.n);
      StructStep(p, env, ptr, a, cur, idx, first, d);
    } else {
      SequentialStep(p, env, ptr, a, cur, idx, first);
    }
  }

  lemma KnownReads(p: Program, env: Env, idx: seq<Value>, first: nat)
    requires IndicesKnown(p, env, idx, first)
    ensures forall j | 0 <= j < |idx| :: Read(p, env, idx[j]).Some?
    ensures idx != [] ==> Older(idx[0], first) && Read(p, env, idx[0]).value < W32 && IndicesKnown(p, env, idx[1..], first)
  {
    hide Read;
  }

  /** Adding a number to a pointer, as one instruction. */
  lemma AddNumber(p: Program, env: Env, ptr: Value, a: nat, n: nat)
    requires Read(p, env, ptr) == Some(a)
    ensures ComputeOne(p, env, Bin(Add, I32, ptr, Number(n))) == Some((a + n % W32) % W32)
  {
    DivModUnique(n % W32, W32, 0, n % W32);
  }

  /** Scaling an index, as one instruction. */
  lemma ScaleIndex(p: Program, env: Env, index: Value, x: nat, size: nat)
    requires Read(p, env, index) == Some(x)
    ensures ComputeOne(p, env, Bin(Mul, I32, index, Number(size))) == Some((x * (size % W32)) % W32)
  {
    DivModUnique(size % W32, W32, 0, size % W32);
  }

  /** Adding the result just computed. */
  lemma AddResult(p: Program, env: Env, ptr: Value, a: nat, first: nat, off: nat)
    requires Read(p, env, ptr) == Some(a) && Older(ptr, first)
    ensures ComputeOne(p, env[Res(first) := off], Bin(Add, I32, ptr, Use(Res(first)))) == Some((a + off) % W32)
  {
    ReadOlder(p, env, ptr, first, off);
  }

  /** What is left after a structure's field. */
  lemma FieldDistance(p: Program, env: Env, cur: Cursor, idx: seq<Value>)
    requires IndicesOk(cur, idx) && idx != [] && IsStruct(cur) && forall j | 0 <= j < |idx| :: Read(p, env, idx[j]).Some?
    ensures idx[0].Const? && idx[0].k.Num? && idx[0].k.n < |cur.ty.fields| && IndicesOk(Inside(cur.ty.fields[idx[0].k.n]), idx[1..])
    ensures Distance(p, env, cur, idx)
            == ElementOffset(cur.ty.fields, cur.ty.packed, idx[0].k.n) + Distance(p, env, Inside(cur.ty.fields[idx[0].k.n]), idx[1..])
  {
    hide ElementOffset, AllocSize, Read;
  }

  lemma ElementDistance(p: Program, env: Env, cur: Cursor, idx: seq<Value>)
    requires IndicesOk(cur, idx) && idx != [] && !IsStruct(cur) && forall j | 0 <= j < |idx| :: Read(p, env, idx[j]).Some?
    ensures (cur.Pointer? || cur.ty.TArray?) && IndicesOk(Inside(ElementType(cur)), idx[1..])
    ensures Distance(p, env, cur, idx)
            == Signed(W32, Read(p, env, idx[0]).value) * AllocSize(ElementType(cur)) + Distance(p, env, Inside(ElementType(cur)), idx[1..])
  {
    hide ElementOffset, AllocSize, Read;
  }

  lemma StructStep(p: Program, env: Env, ptr: Value, a: nat, cur: Cursor, idx: seq<Value>, first: nat, d: nat)
    requires IndicesOk(cur, idx) && idx != [] && IsStruct(cur) && IndicesKnown(p, env, idx, first)
    requires Older(ptr, first) && Read(p, env, ptr) == Some(a) && a < W32
    requires d == ElementOffset(cur.ty.fields, cur.ty.packed, idx[0].k.n) && forall j | 0 <= j < |idx| :: Read(p, env, idx[j]).Some?
    ensures Computes(p, env, first, LowerFrom(ptr, cur, idx, first), (a + Distance(p, env, cur, idx)) % W32)
    decreases |idx|, 0
  {
    hide AllocSize, ElementOffset, Computes, IndicesKnown, LowerFrom, Distance, ComputeOne, IndicesOk;
    FieldDistance(p, env, cur, idx);
    assert idx[0..] == idx;
    NextStruct(ptr, cur, idx, 0, first);
    var next, cur' := (a + d % W32) % W32, Inside(cur.ty.fields[idx[0].k.n]);
    KnownReads(p, env, idx, first);
    IndicesStill(p, env, idx[1..], first, next);
    DistanceStill(p, env, env[Res(first) := next], cur', idx[1..]);
    LowerFromCorrect(p, env[Res(first) := next], Use(Res(first)), next, cur', idx[1..], first + 1);
    SumOfResidues(a, d, Distance(p, env, cur', idx[1..]));
    AddNumber(p, env, ptr, a, d);
    ComputesNext(p, env, first, Bin(Add, I32, ptr, Number(d)), next,
                 LowerFrom(Use(Res(first)), cur', idx[1..], first + 1), (a + Distance(p, env, cur, idx)) % W32);
  }

  lemma SequentialStep(p: Program, env: Env, ptr: Value, a: nat, cur: Cursor, idx: seq<Value>, first: nat)
    requires IndicesOk(cur, idx) && idx != [] && !IsStruct(cur) && IndicesKnown(p, env, idx, first)
    requires Older(ptr, first) && Read(p, env, ptr) == Some(a) && a < W32
    requires forall j | 0 <= j < |idx| :: Read(p, env, idx[j]).Some?
    ensures Computes(p, env, first, LowerFrom(ptr, cur, idx, first), (a + Distance(p, env, cur, idx)) % W32)
    decreases |idx|, 0
  {
    hide AllocSize, ElementOffset, Computes, IndicesKnown, LowerFrom, Distance, ComputeOne, IndicesOk;
    ElementDistance(p, env, cur, idx);
    assert idx[0..] == idx;
    NextSequential(ptr, cur, idx, 0, first);
    KnownReads(p, env, idx, first);
    var size, x, cur' := AllocSize(ElementType(cur)), Read(p, env, idx[0]).value, Inside(ElementType(cur));
    var off := (x * (size % W32)) % W32;
    var next, env1 := (a + off) % W32, env[Res(first) := off];
    IndicesStill(p, env, idx[1..], first, off);
    IndicesStill(p, env1, idx[1..], first + 1, next);
    DistanceStill(p, env, env1[Res(first + 1) := next], cur', idx[1..]);
    var rest := LowerFrom(Use(Res(first + 1)), cur', idx[1..], first + 2);
    LowerFromCorrect(p, env1[Res(first + 1) := next], Use(Res(first + 1)), next, cur', idx[1..], first + 2);
    SignedProduct(x, size);
    SumOfResidues(a, Signed(W32, x) * size, Distance(p, env, cur', idx[1..]));
    var address := (a + Distance(p, env, cur, idx)) % W32;
    var mul, add := Bin(Mul, I32, idx[0], Number(size)), Bin(Add, I32, ptr, Use(Res(first)));
    AddResult(p, env, ptr, a, first, off);
    ScaleIndex(p, env, idx[0], x, size);
    ComputesNext(p, env1, first + 1, add, next, rest, address);
    ComputesNext(p, env, first, mul, off, [add] + rest, address);
    assert [mul] + ([add] + rest) == [mul, add] + rest;
  }

  /** The lowered code computes the typed address. */
  lemma LoweredCorrect(p: Program, env: Env, pointer: Value, a: nat, pointee: Ty, idx: seq<Value>, first: nat)
    requires IndicesOk(Pointer(pointee), idx) && IndicesKnown(p, env, idx, first)
    requires Older(pointer, first) && Read(p, env, pointer) == Some(a) && a < W32
    ensures forall j | 0 <= j < |idx| :: Read(p, env, idx[j]).Some?
    ensures Computes(p, env, first, Lowered(pointer, pointee, idx, first),
                     (a + Distance(p, env, Pointer(pointee), idx)) % W32)
  {
    hide AllocSize, ElementOffset, Computes, Compute, IndicesKnown, LowerFrom, IndicesOk, Distance;
    KnownReads(p, env, idx, first);
    DivModUnique(a, W32, 0, a);
    IndicesStill(p, env, idx, first, a);
    DistanceStill(p, env, env[Res(first) := a], Pointer(pointee), idx);
    LowerFromCorrect(p, env[Res(first) := a], Use(Res(first)), a, Pointer(pointee), idx, first + 1);
    ComputesNext(p, env, first, Ir.Cast(Ptr, I32, pointer), a,
                 LowerFrom(Use(Res(first)), Pointer(pointee), idx, first + 1), (a + Distance(p, env, Pointer(pointee), idx)) % W32);
  }

  // ----- Agreement with data layout and with constants -----

  /** Constant i32 operands for a path. */
  function Literals(path: seq<int>): seq<Value> {
    seq(|path|, j requires 0 <= j < |path| => Const(I32, Num(path[j] % W32)))
  }

  predicate Fits(path: seq<int>) {
    forall j | 0 <= j < |path| :: -W32 <= 2 * path[j] < W32
  }

  lemma LiteralTail(path: seq<int>)
    requires path != []
    ensures Literals(path)[1..] == Literals(path[1..]) && Literals(path)[0] == Const(I32, Num(path[0] % W32))
  {
  }

  lemma LiteralValue(p: Program, env: Env, x: int)
    requires -W32 <= 2 * x < W32
    ensures Read(p, env, Const(I32, Num(x % W32))) == Some(x % W32) && Signed(W32, x % W32) == x
    ensures x >= 0 ==> x % W32 == x
  {
    DivModUnique(x % W32, W32, 0, x % W32);
    if x >= 0 {
      DivModUnique(x, W32, 0, x);
    } else {
      DivModUnique(x, W32, -1, x + W32);
    }
  }

  /** For constant indices the lowered distance is the layout's offset of the path. */
  lemma {:induction false} DistanceIsOffset(p: Program, env: Env, ty: Ty, path: seq<int>)
    requires PathOk(ty, path) && Fits(path)
    ensures IndicesOk(Inside(ty), Literals(path)) && forall j | 0 <= j < |path| :: Read(p, env, Literals(path)[j]).Some?
    ensures Distance(p, env, Inside(ty), Literals(path)) == Offset(ty, path)
    decreases ty
  {
    hide AllocSize, ElementOffset;
    if path != [] {
      LiteralTail(path);
      LiteralValue(p, env, path[0]);
      match ty {
        case TArray(_, elem) => DistanceIsOffset(p, env, elem, path[1..]);
        case TStruct(fields, packed) => DistanceIsOffset(p, env, fields[path[0]], path[1..]);
      }
    }
  }

  lemma GepDistance(p: Program, env: Env, ty: Ty, idx: seq<int>)
    requires idx != [] && PathOk(ty, idx[1..]) && Fits(idx)
    ensures IndicesOk(Pointer(ty), Literals(idx)) && forall j | 0 <= j < |idx| :: Read(p, env, Literals(idx)[j]).Some?
    ensures Distance(p, env, Pointer(ty), Literals(idx)) == GepOffset(ty, idx)
  {
    hide AllocSize, Offset;
    LiteralTail(idx);
    LiteralValue(p, env, idx[0]);
    DistanceIsOffset(p, env, ty, idx[1..]);
  }

  /** What a constant becomes as an operand of generated code. */
  function KonstOf(e: Constant): Konst
    requires Wf(e)
  {
    var (g, off) := Expand(e);
    if g.Some? then Addr(g.value, off) else Num(off)
  }

  /** Lowering a getelementptr on a constant pointer computes the same address that expanding the
      constant expression gives. */
  lemma LoweredAgreesWithConstant(p: Program, env: Env, base: Constant, ty: Ty, idx: seq<int>, first: nat)
    requires Wf(Gep(base, ty, idx)) && Fits(idx)
    ensures IndicesOk(Pointer(ty), Literals(idx))
    ensures Computes(p, env, first, Lowered(Const(Ptr, KonstOf(base)), ty, Literals(idx), first),
                     KonstValue(p, KonstOf(Gep(base, ty, idx))) % W32)
  {
    hide Computes, Lowered, Distance, GepOffset, IndicesOk, PathOk, Fits, Literals;
    GepDistance(p, env, ty, idx);
    var a := KonstValue(p, KonstOf(base)) % W32;
    LiteralsKnown(p, env, idx, first);
    LoweredCorrect(p, env, Const(Ptr, KonstOf(base)), a, ty, Literals(idx), first);
    ExpandLowWord(p.address, base);
    ExpandLowWord(p.address, Gep(base, ty, idx));
    KonstIsExpanded(p, base);
    KonstIsExpanded(p, Gep(base, ty, idx));
    ModAdd(Meaning(p.address, base), GepOffset(ty, idx), W32);
    ModAdd(a, GepOffset(ty, idx), W32);
    DivModUnique(a, W32, 0, a);
    DivModUnique(Meaning(p.address, Gep(base, ty, idx)), W32, 0, Meaning(p.address, Gep(base, ty, idx)));
  }

  lemma LiteralsKnown(p: Program, env: Env, idx: seq<int>, first: nat)
    requires Fits(idx)
    ensures IndicesKnown(p, env, Literals(idx), first)
  {
    forall j | 0 <= j < |idx| ensures Read(p, env, Literals(idx)[j]) == Some(idx[j] % W32) {
      LiteralValue(p, env, idx[j]);
    }
  }

  lemma KonstIsExpanded(p: Program, e: Constant)
    requires Wf(e)
    ensures KonstValue(p, KonstOf(e)) % W32 == Expanded(p.address, e) % W32
  {
    hide Expand;
    var x := Expanded(p.address, e);
    DivModUnique(x % W32, W32, 0, x % W32);
  }

  /** An element of an array behind a pointer, at an index that is not known: the address grows by the
      signed index times the element's size. */
  lemma VariableIndex(p: Program, env: Env, n: nat, elem: Ty, r: Ref, x: nat)
    requires r in env && env[r] == x < W32
    ensures var idx := [Number(0), Use(r)];
      && IndicesOk(Pointer(TArray(n, elem)), idx)
      && Distance(p, env, Pointer(TArray(n, elem)), idx) == (if x < 0x8000_0000 then x else x - 0x1_0000_0000) * AllocSize(elem)
  {
    hide AllocSize;
    var idx := [Number(0), Use(r)];
    assert idx[1..] == [Use(r)] && idx[1..][1..] == [];
    assert IndicesOk(Inside(elem), []) && IndicesOk(Inside(TArray(n, elem)), idx[1..]);
    assert Distance(p, env, Inside(elem), []) == 0;
    assert Distance(p, env, Inside(TArray(n, elem)), idx[1..]) == Signed(W32, x) * AllocSize(elem) + 0;
    assert Signed(W32, 0) * AllocSize(TArray(n, elem)) == 0;
  }
}
