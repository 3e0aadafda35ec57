/** Every block and global that generated code refers to exists, and every instruction has an encoding. */
module References {
  import opened Words
  import opened IrOps
  import opened Machine
  import opened Encoding
  import opened Ir
  import opened Codegen
  import opened Relation
  import opened Constants
  import opened Emission
  import opened Layout
  import opened Globals

  function OperandsOf(inst: Inst): seq<Value> {
    match inst
    case Bin(_, _, a, b) => [a, b]
    case ICmp(_, _, a, b) => [a, b]
    case LoadMem(_, at) => [at]
    case StoreMem(_, v, at) => [v, at]
    case Ext(_, _, _, a) => [a]
    case Cast(_, _, a) => [a]
    case Phi(_, incoming) => seq(|incoming|, j requires 0 <= j < |incoming| => incoming[j].1)
    case Select(_, c, a, b) => [c, a, b]
    case Goto(_) => []
    case Branch(c, _, _) => [c]
    case Switch(_, c, _, _) => [c]
    case Return(v) => if v.Some? then [v.value] else []
    case CallFn(_, fn, args) => [fn] + args
    case Alloca(_) => []
    case Unreachable => []
  }

  predicate Exists(g: GlobalRef, vars: nat, fns: nat) {
    match g
    case Var(i) => i < vars
    case Fun(k) => k < fns
  }

  predicate Declared(v: Value, vars: nat, fns: nat) {
    v.Const? && v.k.Addr? ==> Exists(v.k.g, vars, fns)
  }

  /** Every address constant of the function names a variable or function of the module. */
  ghost predicate FnDeclared(f: Fn, vars: nat, fns: nat) {
    forall i, j | 0 <= i < |f.body| && 0 <= j < |OperandsOf(f.body[i])| :: Declared(OperandsOf(f.body[i])[j], vars, fns)
  }

  predicate InitDeclared(init: Init, vars: nat, fns: nat)
    requires WfInit(init)
    decreases init
  {
    match init
    case Elements(_, elems) => forall i | 0 <= i < |elems| :: InitDeclared(elems[i], vars, fns)
    case Fields(fields, _) => forall i | 0 <= i < |fields| :: InitDeclared(fields[i], vars, fns)
    case Leaf(_, e) => Expand(e).0.Some? ==> Exists(Expand(e).0.value, vars, fns)
    case _ => true
  }

  // ----- Items -----

  predicate ItemKnown(f: Fn, vars: nat, fns: nat, it: Item) {
    match it
    case JumpTo(b) => b < |f.starts|
    case JumpIf(_, b) => b < |f.starts|
    case MovGlobal(_, g, _) => Exists(g, vars, fns)
    case Ins(i) => Encodable(i) && !i.CallRel?
    case CallHelper(_) => true
  }

  ghost predicate ItemsKnown(f: Fn, vars: nat, fns: nat, items: seq<Item>) {
    forall j | 0 <= j < |items| :: ItemKnown(f, vars, fns, items[j])
  }

  lemma {:induction false} RootDeclared(f: Fn, v: Value, vars: nat, fns: nat)
    requires FnDeclared(f, vars, fns) && Declared(v, vars, fns)
    ensures Declared(Root(f, v), vars, fns)
    decreases if IsCast(f, v) then f.rank[v.r.i] + 1 else 0
  {
    if IsCast(f, v) {
      var i := v.r.i;
      assert OperandsOf(f.body[i])[0] == f.body[i].a;
      RootDeclared(f, f.body[i].a, vars, fns);
    }
  }

  lemma MoveKnown(f: Fn, reg: Reg, v: Value, part: nat, vars: nat, fns: nat)
    requires FnDeclared(f, vars, fns) && Declared(v, vars, fns)
    ensures ItemKnown(f, vars, fns, MovePart(f, reg, v, part))
  {
    hide FnDeclared;
    RootDeclared(f, v, vars, fns);
  }

  /** Items that only name registers, slots and helpers, in an encodable form. */
  predicate Plain(it: Item) {
    it.CallHelper? || (it.Ins? && Encodable(it.i) && !it.i.CallRel?)
  }

  lemma ExtendPlain(reg: Reg, sign: bool, bits: nat)
    requires reg < 4
    ensures forall j | 0 <= j < |Extend(reg, sign, bits)| :: Plain(Extend(reg, sign, bits)[j])
  {
  }

  lemma OpPlain(op: BinOp, bits: nat)
    ensures forall j | 0 <= j < |OpItems(op, bits)| :: Plain(OpItems(op, bits)[j])
  {
    hide Extend;
    ExtendPlain(EAX, true, bits);
    ExtendPlain(EAX, false, bits);
    ExtendPlain(ECX, true, bits);
    ExtendPlain(ECX, false, bits);
  }

  lemma {:induction false} CopiesKnown(f: Fn, phis: seq<nat>, src: seq<Value>, reg: Reg, vars: nat, fns: nat)
    requires |phis| == |src| && (forall j | 0 <= j < |phis| :: phis[j] < |f.body|)
    requires FnDeclared(f, vars, fns) && forall j | 0 <= j < |src| :: Declared(src[j], vars, fns)
    ensures ItemsKnown(f, vars, fns, CopyAll(f, phis, src, reg))
  {
    hide FnDeclared, MovePart, Spill;
    if phis != [] {
      MoveKnown(f, reg, src[0], 0, vars, fns);
      MoveKnown(f, reg, src[0], 4, vars, fns);
      SpillPlain(f, reg, phis[0]);
      CopiesKnown(f, phis[1..], src[1..], reg, vars, fns);
    }
  }

  lemma SpillPlain(f: Fn, reg: Reg, i: nat)
    ensures forall part :: Plain(Spill(f, reg, i, part))
  {
  }

  lemma PhiKnown(f: Fn, from: nat, to: nat, reg: Reg, vars: nat, fns: nat)
    requires FnDeclared(f, vars, fns)
    ensures ItemsKnown(f, vars, fns, PhiItems(f, from, to, reg))
  {
    hide CopyAll, FnDeclared;
    match EdgeSources(f, Phis(f, to), from) {
      case None =>
      case Some(src) =>
        forall j | 0 <= j < |src| ensures Declared(src[j], vars, fns) {
          IncomingDeclared(f, Phis(f, to)[j], from, vars, fns);
        }
        CopiesKnown(f, Phis(f, to), src, reg, vars, fns);
    }
  }

  lemma IncomingDeclared(f: Fn, i: nat, from: nat, vars: nat, fns: nat)
    requires FnDeclared(f, vars, fns) && i < |f.body| && f.body[i].Phi? && IncomingOf(f, i, from).Some?
    ensures Declared(IncomingOf(f, i, from).value, vars, fns)
  {
    var inc := f.body[i].incoming;
    var j := IncomingIndex(inc, from);
    assert OperandsOf(f.body[i])[j] == inc[j].1;
  }

  lemma {:induction false} IncomingIndex(inc: seq<(nat, Value)>, from: nat) returns (j: nat)
    requires Incoming(inc, from).Some?
    ensures j < |inc| && inc[j].1 == Incoming(inc, from).value
  {
    if inc[0].0 == from {
      j := 0;
    } else {
      j := IncomingIndex(inc[1..], from);
      j := j + 1;
    }
  }

  lemma GotoKnown(f: Fn, from: nat, to: nat, vars: nat, fns: nat)
    requires FnDeclared(f, vars, fns) && to < |f.starts|
    ensures ItemsKnown(f, vars, fns, GotoItems(f, from, to))
  {
    hide PhiItems, FnDeclared;
    PhiKnown(f, from, to, EAX, vars, fns);
  }

  lemma {:induction false} CasesKnown(f: Fn, from: nat, cases: seq<(nat, nat)>, default: nat, vars: nat, fns: nat)
    requires FnDeclared(f, vars, fns) && default < |f.starts| && forall j | 0 <= j < |cases| :: cases[j].1 < |f.starts|
    ensures ItemsKnown(f, vars, fns, CaseItems(f, from, cases, default))
  {
    hide PhiItems, FnDeclared, GotoItems;
    if cases == [] {
      GotoKnown(f, from, default, vars, fns);
    } else {
      PhiKnown(f, from, cases[0].1, EDX, vars, fns);
      CasesKnown(f, from, cases[1..], default, vars, fns);
    }
  }

  lemma {:induction false} PassKnown(f: Fn, args: seq<Value>, off: nat, pool: word, vars: nat, fns: nat)
    requires FnDeclared(f, vars, fns) && forall j | 0 <= j < |args| :: Declared(args[j], vars, fns)
    ensures ItemsKnown(f, vars, fns, PassArgs(f, args, off, pool))
  {
    hide FnDeclared, MovePart, SlotSize, ArgPool;
    if args != [] {
      MoveKnown(f, EAX, args[0], 0, vars, fns);
      PassKnown(f, args[1..], off + SlotSize(TypeOf(f, args[0])), (pool + 8 * |ArgPool(f, args[0])|) % W32, vars, fns);
    }
  }

  predicate Straightforward(inst: Inst) {
    inst.Bin? || inst.ICmp? || inst.LoadMem? || inst.StoreMem? || inst.Ext? || inst.Select?
  }

  lemma StraightKnown(f: Fn, i: nat, pool: word, out: nat, vars: nat, fns: nat)
    requires FnDeclared(f, vars, fns) && i < |f.body| == |f.parent| && Straightforward(f.body[i])
    ensures ItemsKnown(f, vars, fns, InstItems(f, i, pool, out))
  {
    hide FnDeclared, MovePart, Spill, Codegen.AddrToReg, Extend, OpItems;
    OperandsDeclared(f, i, vars, fns);
    SpillPlain(f, EAX, i);
    SpillPlain(f, ECX, i);
    SpillPlain(f, EDX, i);
    forall v, r: Reg, part | v in OperandsOf(f.body[i]) ensures ItemKnown(f, vars, fns, MovePart(f, r, v, part)) {
      MoveKnown(f, r, v, part, vars, fns);
    }
    match f.body[i] {
      case Bin(op, ty, a, b) => BinKnown(f, i, op, ty, a, b, pool, vars, fns);
      case ICmp(p, ty, a, b) => ICmpKnown(f, i, p, ty, a, b, pool, vars, fns);
      case LoadMem(ty, at) =>
      case StoreMem(ty, v, at) => AddrPlain(f, EAX, v, pool);
      case Ext(sign, from, to, a) => ExtendPlain(EAX, sign, from.Bits());
      case Select(ty, c, a, b) =>
    }
  }

  lemma OperandsDeclared(f: Fn, i: nat, vars: nat, fns: nat)
    requires FnDeclared(f, vars, fns) && i < |f.body|
    ensures forall v | v in OperandsOf(f.body[i]) :: Declared(v, vars, fns)
  {
  }

  lemma AddrPlain(f: Fn, reg: Reg, v: Value, pool: word)
    ensures Plain(Codegen.AddrToReg(f, reg, v, pool))
  {
  }

  lemma BinKnown(f: Fn, i: nat, op: BinOp, ty: Type, a: Value, b: Value, pool: word, vars: nat, fns: nat)
    requires FnDeclared(f, vars, fns) && Declared(a, vars, fns) && Declared(b, vars, fns)
    ensures ItemsKnown(f, vars, fns, BinItems(f, i, op, ty, a, b, pool))
  {
    hide FnDeclared, MovePart, Spill, Codegen.AddrToReg, OpItems;
    MoveKnown(f, EAX, a, 0, vars, fns);
    MoveKnown(f, ECX, b, 0, vars, fns);
    SpillPlain(f, ResultReg(op), i);
    OpPlain(op, ty.Bits());
    forall v, q: word ensures Plain(Codegen.AddrToReg(f, EAX, v, q)) {
      AddrPlain(f, EAX, v, q);
    }
  }

  lemma ICmpKnown(f: Fn, i: nat, p: Pred, ty: Type, a: Value, b: Value, pool: word, vars: nat, fns: nat)
    requires FnDeclared(f, vars, fns) && Declared(a, vars, fns) && Declared(b, vars, fns)
    ensures ItemsKnown(f, vars, fns, ICmpItems(f, i, p, ty, a, b, pool))
  {
    hide FnDeclared, MovePart, Spill, Codegen.AddrToReg, Extend;
    MoveKnown(f, ECX, a, 0, vars, fns);
    MoveKnown(f, EAX, b, 0, vars, fns);
    SpillPlain(f, EAX, i);
    SpillPlain(f, EDX, i);
    ExtendPlain(EAX, p.Signed(), ty.Bits());
    ExtendPlain(ECX, p.Signed(), ty.Bits());
    forall v, q: word ensures Plain(Codegen.AddrToReg(f, EAX, v, q)) {
      AddrPlain(f, EAX, v, q);
    }
  }

  /** Everything instruction i refers to exists. */
  lemma InstKnown(f: Fn, i: nat, pool: word, out: nat, vars: nat, fns: nat)
    requires FnDeclared(f, vars, fns) && WfFn(f) && i < |f.body| == |f.parent|
    ensures ItemsKnown(f, vars, fns, InstItems(f, i, pool, out))
  {
    hide FnDeclared, MovePart, Spill, WfFn, WfValue, BranchItems, CaseItems, GotoItems, PassArgs, Extend;
    OperandsDeclared(f, i, vars, fns);
    InstOf(f, i);
    if Straightforward(f.body[i]) {
      StraightKnown(f, i, pool, out, vars, fns);
    } else {
      match f.body[i] {
        case Goto(d) => GotoKnown(f, f.parent[i], d, vars, fns);
        case Branch(c, y, n) => BranchKnown(f, f.parent[i], c, y, n, vars, fns);
        case Switch(ty, c, cases, d) =>
          MoveKnown(f, EAX, c, 0, vars, fns);
          ExtendPlain(EAX, false, ty.Bits());
          CasesKnown(f, f.parent[i], cases, d, vars, fns);
        case Return(v) =>
          if v.Some? {
            MoveKnown(f, EAX, v.value, 0, vars, fns);
            MoveKnown(f, EDX, v.value, 4, vars, fns);
          }
        case CallFn(_, fn, args) => CallKnown(f, i, fn, args, pool, vars, fns);
        case Alloca(n) =>
          SpillPlain(f, EAX, i);
          SpillPlain(f, ESP, i);
        case _ =>
      }
    }
  }

  lemma InstOf(f: Fn, i: nat)
    requires WfFn(f) && i < |f.body|
    ensures |f.parent| == |f.body| && WfInst(f, i)
  {
  }

  lemma BranchKnown(f: Fn, from: nat, c: Value, yes: nat, no: nat, vars: nat, fns: nat)
    requires FnDeclared(f, vars, fns) && Declared(c, vars, fns) && yes < |f.starts| && no < |f.starts|
    ensures ItemsKnown(f, vars, fns, BranchItems(f, from, c, yes, no))
  {
    hide FnDeclared, MovePart, PhiItems, GotoItems;
    PhiKnown(f, from, yes, EAX, vars, fns);
    MoveKnown(f, EAX, c, 0, vars, fns);
    GotoKnown(f, from, no, vars, fns);
  }

  lemma CallKnown(f: Fn, i: nat, fn: Value, args: seq<Value>, pool: word, vars: nat, fns: nat)
    requires FnDeclared(f, vars, fns) && i < |f.body| && f.body[i].CallFn? && f.body[i].fn == fn && f.body[i].args == args
    ensures ItemsKnown(f, vars, fns, CallItems(f, fn, args, pool) + AfterCall(f, i))
  {
    hide FnDeclared, MovePart, PassArgs, Spill;
    OperandsDeclared(f, i, vars, fns);
    forall j | 0 <= j < |args| ensures Declared(args[j], vars, fns) {
      assert args[j] in OperandsOf(f.body[i]);
    }
    assert fn in OperandsOf(f.body[i]);
    PassKnown(f, args, 0, pool, vars, fns);
    MoveKnown(f, EAX, fn, 0, vars, fns);
    SpillPlain(f, EAX, i);
    SpillPlain(f, EDX, i);
  }

  lemma {:induction false} FnItemsKnown(p: Program, pool0: int, k: nat, n: nat, vars: nat)
    requires Shaped(p) && k < |p.fns| && n <= |p.fns[k].body| && WfFn(p.fns[k]) && FnDeclared(p.fns[k], vars, |p.fns|)
    ensures ItemsKnown(p.fns[k], vars, |p.fns|, FnItems(p, pool0, k, n))
  {
    hide InstItems, FnDeclared, WfFn, PoolIndex, OutSize, VarsSize;
    if n > 0 {
      FnItemsKnown(p, pool0, k, n - 1, vars);
      InstKnown(p.fns[k], n - 1, (pool0 + 8 * PoolIndex(p, k, n - 1)) % W32, OutSize(p.fns[k], |p.fns[k].body|), vars, |p.fns|);
    }
  }

  // ----- Sites -----

  /** Jump sites name blocks of their function, global sites known globals. */
  lemma {:induction false} SitesKnown(f: Fn, k: nat, vars: nat, fns: nat, items: seq<Item>, off: nat)
    requires ItemsKnown(f, vars, fns, items)
    ensures forall j | 0 <= j < |JumpSites(k, items, off)| ::
      JumpSites(k, items, off)[j].1.0 == k && JumpSites(k, items, off)[j].1.1 < |f.starts|
    ensures forall j | 0 <= j < |FixSites(items, off)| :: Exists(FixSites(items, off)[j].1, vars, fns)
  {
    hide ItemSize;
    if items != [] {
      SitesKnown(f, k, vars, fns, items[1..], off + ItemSize(items[0]));
    }
  }

  lemma {:induction false} RelocsKnown(init: Init, off: nat, vars: nat, fns: nat)
    requires WfInit(init) && InitDeclared(init, vars, fns)
    ensures forall j | 0 <= j < |Relocs(init, off)| :: Exists(Relocs(init, off)[j].1, vars, fns)
    decreases init
  {
    match init {
      case Elements(elem, elems) => ElementRelocsKnown(elem, elems, off, vars, fns);
      case Fields(fields, packed) => FieldRelocsKnown(fields, packed, 0, off, vars, fns);
      case _ =>
    }
  }

  lemma {:induction false} ElementRelocsKnown(elem: Ty, elems: seq<Init>, off: nat, vars: nat, fns: nat)
    requires forall i | 0 <= i < |elems| :: WfInit(elems[i]) && TyOf(elems[i]) == elem && InitDeclared(elems[i], vars, fns)
    ensures forall j | 0 <= j < |ElementRelocs(elem, elems, off)| :: Exists(ElementRelocs(elem, elems, off)[j].1, vars, fns)
    decreases elems
  {
    hide WfInit, TyOf, InitDeclared, Relocs;
    if elems != [] {
      RelocsKnown(elems[0], off, vars, fns);
      ElementRelocsKnown(elem, elems[1..], off + AllocSize(elem), vars, fns);
    }
  }

  lemma {:induction false} FieldRelocsKnown(fields: seq<Init>, packed: bool, i: nat, off: nat, vars: nat, fns: nat)
    requires i <= |fields| && forall j | 0 <= j < |fields| :: WfInit(fields[j]) && InitDeclared(fields[j], vars, fns)
    ensures forall j | 0 <= j < |FieldRelocs(fields, packed, i, off)| :: Exists(FieldRelocs(fields, packed, i, off)[j].1, vars, fns)
    decreases fields, |fields| - i
  {
    hide WfInit, InitDeclared, Relocs, StartOf;
    if i < |fields| {
      RelocsKnown(fields[i], off + StartOf(fields, packed, i), vars, fns);
      FieldRelocsKnown(fields, packed, i + 1, off, vars, fns);
    }
  }
}
