/** The LLVM subset that reaches the code generator, with a small-step semantics over an
    explicit stack of frames. Blocks are laid out one after another in `body`. */
module Ir {
  import opened Words
  import opened IrOps
  import opened Machine

  // ----- Syntax -----

  datatype Ref = Arg(k: nat) | Res(i: nat)

  datatype GlobalRef = Var(g: nat) | Fun(f: nat)

  /** A constant after expand_constant: a number, or a global plus an offset. */
  datatype Konst = Num(n: nat) | Addr(g: GlobalRef, off: nat)

  datatype Value = Use(r: Ref) | Const(ty: Type, k: Konst)

  datatype Inst =
    | Bin(op: BinOp, ty: Type, a: Value, b: Value)
    | ICmp(pred: Pred, ty: Type, a: Value, b: Value)
    | LoadMem(ty: Type, at: Value)
    | StoreMem(ty: Type, v: Value, at: Value)
    | Ext(sign: bool, from: Type, to: Type, a: Value)
    | Cast(from: Type, to: Type, a: Value)          // trunc, bitcast, ptrtoint, inttoptr
    | Phi(ty: Type, incoming: seq<(nat, Value)>)
    | Select(ty: Type, c: Value, a: Value, b: Value)
    | Goto(dest: nat)
    | Branch(c: Value, yes: nat, no: nat)
    | Switch(ty: Type, c: Value, cases: seq<(nat, nat)>, default: nat)
    | Return(result: Option<Value>)
    | CallFn(ret: Option<Type>, fn: Value, args: seq<Value>)
    | Alloca(size: nat)
    | Unreachable
  {
    predicate Terminator() {
      Goto? || Branch? || Switch? || Return? || Unreachable?
    }

    predicate HasResult() {
      !Terminator() && !StoreMem? && (CallFn? ==> ret.Some?)
    }

    /** The type of the result; instructions without one still get a 4-byte slot. */
    function ResultType(): Type {
      match this
      case Bin(_, ty, _, _) => ty
      case ICmp(_, _, _, _) => I1
      case LoadMem(ty, _) => ty
      case Ext(_, _, to, _) => to
      case Cast(_, to, _) => to
      case Phi(ty, _) => ty
      case Select(ty, _, _, _) => ty
      case CallFn(Some(ty), _, _) => ty
      case Alloca(_) => Ptr
      case _ => I32
    }
  }

  /** `rank` orders definitions before uses (a dominator-tree preorder); `bools` names i1
      results whose slots are claimed to hold exactly 0 or 1 in their low byte. */
  datatype Function = Function(params: seq<Type>, ret: Option<Type>, body: seq<Inst>, parent: seq<nat>,
                               starts: seq<nat>, rank: seq<nat>, bools: set<nat>)

  predicate AliasesOrdered(f: Function) {
    |f.rank| == |f.body| &&
    forall i | 0 <= i < |f.body| && f.body[i].Cast? && f.body[i].a.Use? && f.body[i].a.r.Res? ::
      f.body[i].a.r.i < |f.body| && f.rank[f.body[i].a.r.i] < f.rank[i]
  }

  type Fn = f: Function | AliasesOrdered(f) witness Function([], None, [], [], [], [], {})

  predicate IsCast(f: Fn, v: Value) {
    v.Use? && v.r.Res? && v.r.i < |f.body| && f.body[v.r.i].Cast?
  }

  /** Following casts to the value that owns storage (get_aliased_value in a loop). */
  function Root(f: Fn, v: Value): (r: Value)
    ensures !IsCast(f, r)
    decreases if IsCast(f, v) then f.rank[v.r.i] + 1 else 0
  {
    if IsCast(f, v) then Root(f, f.body[v.r.i].a) else v
  }

  function TypeOf(f: Fn, v: Value): Type {
    match v
    case Const(ty, _) => ty
    case Use(Arg(k)) => if k < |f.params| then f.params[k] else I32
    case Use(Res(i)) => if i < |f.body| then f.body[i].ResultType() else I32
  }

  function PhisFrom(f: Fn, i: nat): (p: seq<nat>)
    ensures forall j | 0 <= j < |p| :: p[j] == i + j && i + j < |f.body| && f.body[p[j]].Phi?
    decreases |f.body| - i
  {
    if i < |f.body| && f.body[i].Phi? then [i] + PhisFrom(f, i + 1) else []
  }

  /** The phis at the head of block b. */
  function Phis(f: Fn, b: nat): (p: seq<nat>)
    ensures forall j | 0 <= j < |p| :: p[j] < |f.body| && f.body[p[j]].Phi?
    ensures forall j, k | 0 <= j < k < |p| :: p[j] < p[k]
  {
    if b < |f.starts| then PhisFrom(f, f.starts[b]) else []
  }

  function Incoming(inc: seq<(nat, Value)>, from: nat): Option<Value> {
    if inc == [] then None else if inc[0].0 == from then Some(inc[0].1) else Incoming(inc[1..], from)
  }

  /** A phi takes the value of the first entry that names the block control arrives from, and has none
      exactly when no entry names it. */
  lemma {:induction false} IncomingIs(inc: seq<(nat, Value)>, from: nat, v: Value)
    ensures Incoming(inc, from) == Some(v)
            <==> exists j :: 0 <= j < |inc| && inc[j] == (from, v) && forall i | 0 <= i < j :: inc[i].0 != from
    ensures Incoming(inc, from).None? <==> forall j | 0 <= j < |inc| :: inc[j].0 != from
  {
    if inc != [] && inc[0].0 != from {
      var tail := inc[1..];
      IncomingIs(tail, from, v);
      assert forall i | 0 < i < |inc| :: inc[i] == tail[i - 1];
      if j :| 0 <= j < |tail| && tail[j] == (from, v) && forall i | 0 <= i < j :: tail[i].0 != from {
        assert inc[j + 1] == (from, v);
      }
      if j :| 0 <= j < |inc| && inc[j] == (from, v) && forall i | 0 <= i < j :: inc[i].0 != from {
        assert tail[j - 1] == (from, v) && forall i | 0 <= i < j - 1 :: tail[i] == inc[i + 1];
      }
    } else if inc != [] {
      assert inc[0] == (from, inc[0].1);
    }
  }

  /** The phis of a block are all the phis from its start up to its first other instruction. */
  lemma PhisAre(f: Fn, b: nat, i: nat)
    requires b < |f.starts|
    ensures i in Phis(f, b) <==> f.starts[b] <= i < |f.body| && forall j | f.starts[b] <= j <= i :: f.body[j].Phi?
  {
    PhisFromAre(f, f.starts[b], i);
  }

  lemma {:induction false} PhisFromAre(f: Fn, s: nat, i: nat)
    ensures i in PhisFrom(f, s) <==> s <= i < |f.body| && forall j | s <= j <= i :: f.body[j].Phi?
    decreases |f.body| - s
  {
    if s < |f.body| && f.body[s].Phi? {
      PhisFromAre(f, s + 1, i);
    }
  }

  /** The value phi i takes when control arrives from block `from`. */
  function IncomingOf(f: Fn, i: nat, from: nat): Option<Value>
    requires i < |f.body| && f.body[i].Phi?
  {
    Incoming(f.body[i].incoming, from)
  }

  // ----- Well-formedness: what LLVM's verifier and the generator's assertions demand -----

  predicate WfRef(f: Fn, r: Ref) {
    match r
    case Arg(k) => k < |f.params|
    case Res(i) => i < |f.body| && f.body[i].HasResult()
  }

  predicate WfValue(f: Fn, v: Value, ty: Type) {
    && TypeOf(f, v) == ty
    && match v
       case Use(r) => WfRef(f, r)
       case Const(_, Num(n)) => n < ty.Modulus()
       case Const(_, Addr(_, _)) => ty.Bits() == 32
  }

  predicate IsNumber(ty: Type) {
    ty.I8? || ty.I16? || ty.I32? || ty.I64?
  }

  predicate WfTarget(f: Fn, from: nat, to: nat) {
    && to < |f.starts| && f.starts[to] < |f.body|
    && forall j | 0 <= j < |Phis(f, to)| ::
         IncomingOf(f, Phis(f, to)[j], from).Some?
         && WfValue(f, IncomingOf(f, Phis(f, to)[j], from).value, f.body[Phis(f, to)[j]].ResultType())
  }

  /** A value that is certainly 0 or 1 in all of its low byte. */
  predicate IsBool(f: Fn, v: Value) {
    match Root(f, v)
    case Const(ty, k) => ty.I1? && k.Num? && k.n < 2
    case Use(Arg(_)) => false
    case Use(Res(i)) => i in f.bools
  }

  /** Membership in `bools` is closed: comparisons, and logic, phis and selects of members. */
  predicate WfBool(f: Fn, i: nat) {
    i < |f.body| &&
    match f.body[i]
    case ICmp(_, _, _, _) => true
    case Bin(op, ty, a, b) => ty.I1? && (op.And? || op.Or? || op.Xor?) && IsBool(f, a) && IsBool(f, b)
    case Select(ty, _, a, b) => ty.I1? && IsBool(f, a) && IsBool(f, b)
    case Phi(ty, inc) => ty.I1? && forall j | 0 <= j < |inc| :: IsBool(f, inc[j].1)
    case _ => false
  }

  predicate WfInst(f: Fn, i: nat)
    requires i < |f.body| && |f.parent| == |f.body|
  {
    && (!f.body[i].Terminator() ==> i + 1 < |f.body|)
    && match f.body[i]
       case Bin(op, ty, a, b) =>
         (IsNumber(ty) || (ty.I1? && (op.And? || op.Or? || op.Xor?))) && WfValue(f, a, ty) && WfValue(f, b, ty)
       case ICmp(_, ty, a, b) => (IsNumber(ty) || ty.Ptr?) && WfValue(f, a, ty) && WfValue(f, b, ty)
       case LoadMem(ty, p) => !ty.I1? && WfValue(f, p, Ptr)
       case StoreMem(ty, v, p) => !ty.I1? && WfValue(f, v, ty) && WfValue(f, p, Ptr)
       case Ext(_, from, to, a) => !from.I64? && !from.Ptr? && IsNumber(to) && from.Bits() < to.Bits() && WfValue(f, a, from)
       case Cast(from, to, a) => to.Bits() <= from.Bits() && WfValue(f, a, from)
       case Phi(_, _) => true
       case Select(ty, c, a, b) =>
         !ty.I64? && WfValue(f, c, I1) && WfValue(f, a, ty) && WfValue(f, b, ty)
       case Goto(d) => WfTarget(f, f.parent[i], d)
       case Branch(c, y, n) => WfValue(f, c, I1) && WfTarget(f, f.parent[i], y) && WfTarget(f, f.parent[i], n)
       case Switch(ty, c, cases, d) =>
         && IsNumber(ty) && !ty.I64? && WfValue(f, c, ty) && WfTarget(f, f.parent[i], d)
         && forall j | 0 <= j < |cases| :: cases[j].0 < ty.Modulus() && WfTarget(f, f.parent[i], cases[j].1)
       case Return(v) => (v.Some? <==> f.ret.Some?) && (v.Some? ==> WfValue(f, v.value, f.ret.value))
       case CallFn(_, fn, args) =>
         WfValue(f, fn, Ptr) && forall j | 0 <= j < |args| :: WfValue(f, args[j], TypeOf(f, args[j]))
       case Alloca(_) => true
       case Unreachable => true
  }

  predicate WfFn(f: Fn) {
    && |f.parent| == |f.body| && |f.starts| > 0 && f.starts[0] == 0 && |f.body| > 0
    && (forall i | 0 <= i < |f.body| :: WfInst(f, i))
    && (forall i | i in f.bools :: WfBool(f, i))
  }

  // ----- Program and states -----

  /** Bytes the implementation sets aside for each call besides its allocas. */
  datatype Plan = Plan(vars: nat, out: nat)

  /** Where LLVM leaves addresses to the implementation they are parameters here: globals and
      functions sit at `address`, and allocas are carved downward from the stack, each call's
      region below its caller's. `globals` is the set of bytes of global variables. */
  datatype Program = Program(fns: seq<Fn>, address: map<GlobalRef, word>, globals: set<int>,
                             limit: int, plan: seq<Plan>)

  type Env = map<Ref, nat>

  /** `lo`..`hi` holds the live allocas of one call. */
  datatype Frame = Frame(fn: nat, pc: nat, env: Env, lo: int, hi: int)

  datatype Stack = Nil | Cons(top: Frame, rest: Stack)

  /** `mem` holds the initialised program bytes. */
  datatype IrState = Running(stack: Stack, mem: Mem) | Done(ret: Option<nat>, mem: Mem)

  predicate InAllocas(stack: Stack, a: int) {
    stack.Cons? && (stack.top.lo <= a < stack.top.hi || InAllocas(stack.rest, a))
  }

  predicate ValidByte(p: Program, stack: Stack, a: int) {
    a in p.globals || InAllocas(stack, a)
  }

  function AddressOf(p: Program, g: GlobalRef): word {
    if g in p.address then p.address[g] else 0
  }

  function KonstValue(p: Program, k: Konst): nat {
    match k
    case Num(n) => n
    case Addr(g, off) => (AddressOf(p, g) + off) % W32
  }

  function Read(p: Program, env: Env, v: Value): Option<nat> {
    match v
    case Const(ty, k) => Some(KonstValue(p, k) % ty.Modulus())
    case Use(r) => if r in env then Some(env[r]) else None
  }

  predicate RootIn(f: Fn, r: Ref, ids: set<nat>) {
    var root := Root(f, Use(r));
    root.Use? && root.r.Res? && root.r.i in ids
  }

  /** Forget every name whose storage belongs to one of ids. */
  function Kill(f: Fn, env: Env, ids: set<nat>): (e: Env)
    ensures forall r :: r in e <==> r in env && !RootIn(f, r, ids)
    ensures forall r | r in e :: e[r] == env[r]
  {
    map r | r in env && !RootIn(f, r, ids) :: env[r]
  }

  /** The checked semantics forgets names whose machine storage has been overwritten; it also stops
      at unsafe phi copies and at a select on a condition outside the boolean class. */
  function KillIf(checked: bool, f: Fn, env: Env, ids: set<nat>): Env {
    if checked then Kill(f, env, ids) else env
  }

  function Define(checked: bool, f: Fn, env: Env, i: nat, v: nat): Env {
    KillIf(checked, f, env, {i})[Res(i) := v]
  }

  function ReadAll(p: Program, env: Env, vs: seq<Value>): (r: Option<seq<nat>>)
    ensures r.Some? ==> |r.value| == |vs|
    ensures r.Some? ==> forall j | 0 <= j < |vs| :: Read(p, env, vs[j]) == Some(r.value[j])
  {
    if vs == [] then Some([]) else
    match (Read(p, env, vs[0]), ReadAll(p, env, vs[1..]))
    case (Some(x), Some(xs)) => Some([x] + xs)
    case _ => None
  }

  /** Phi i receives its own value when control arrives from block `from`. */
  predicate KeepsItself(f: Fn, i: nat, from: nat)
    requires i < |f.body| && f.body[i].Phi?
  {
    IncomingOf(f, i, from).Some? && Root(f, IncomingOf(f, i, from).value) == Use(Res(i))
  }

  /** The phis whose storage the copies for an edge overwrite with something else. */
  function Overwritten(f: Fn, from: nat, to: nat): set<nat> {
    set i | i in Phis(f, to) && !KeepsItself(f, i, from)
  }

  /** All phis of an edge are assigned at once. */
  function Assign(env: Env, ids: seq<nat>, vals: seq<nat>): Env
    requires |ids| == |vals|
  {
    if ids == [] then env else Assign(env, ids[1..], vals[1..])[Res(ids[0]) := vals[0]]
  }

  /** The incoming values of an edge. */
  function EdgeSources(f: Fn, phis: seq<nat>, from: nat): (r: Option<seq<Value>>)
    requires forall j | 0 <= j < |phis| :: phis[j] < |f.body| && f.body[phis[j]].Phi?
    ensures r.Some? ==> |r.value| == |phis|
    ensures r.Some? ==> forall j | 0 <= j < |phis| :: IncomingOf(f, phis[j], from) == Some(r.value[j])
    ensures r.None? ==> exists j | 0 <= j < |phis| :: IncomingOf(f, phis[j], from).None?
  {
    if phis == [] then Some([]) else
    match (IncomingOf(f, phis[0], from), EdgeSources(f, phis[1..], from))
    case (Some(x), Some(xs)) => Some([x] + xs)
    case _ => None
  }

  /** Sequential copying is safe: an incoming value that resolves to an earlier phi of the list
      finds that phi unchanged. */
  predicate PhiSafe(f: Fn, phis: seq<nat>, src: seq<Value>)
    requires |phis| == |src|
  {
    forall k, j | 0 <= k < j < |phis| ::
      Root(f, src[j]) == Use(Res(phis[k])) ==> Root(f, src[k]) == Use(Res(phis[k]))
  }

  function Edge(p: Program, checked: bool, f: Fn, env: Env, from: nat, to: nat): Option<Env> {
    var phis := Phis(f, to);
    match EdgeSources(f, phis, from)
    case None => None
    case Some(src) =>
      if checked && !PhiSafe(f, phis, src) then None else
      match ReadAll(p, env, src)
      case None => None
      case Some(vals) => Some(Assign(KillIf(checked, f, env, Overwritten(f, from, to)), phis, vals))
  }

  /** The first matching case wins; the copies made for cases passed over clobber their phis. */
  function SwitchEdge(p: Program, checked: bool, f: Fn, env: Env, from: nat, c: nat, cases: seq<(nat, nat)>,
                      default: nat): Option<(Env, nat)>
  {
    if cases == [] then
      match Edge(p, checked, f, env, from, default)
      case None => None
      case Some(e) => Some((e, default))
    else if cases[0].0 == c then
      match Edge(p, checked, f, env, from, cases[0].1)
      case None => None
      case Some(e) => Some((e, cases[0].1))
    else
      SwitchEdge(p, checked, f, KillIf(checked, f, env, Overwritten(f, from, cases[0].1)), from, c, cases[1..], default)
  }

  function BranchEdge(p: Program, checked: bool, f: Fn, env: Env, from: nat, c: Value, yes: nat, no: nat): Option<(Env, nat)> {
    var clobbered := KillIf(checked, f, env, Overwritten(f, from, yes));
    match Read(p, clobbered, c)
    case None => None
    case Some(b) =>
      var to := if b == 1 then yes else no;
      match Edge(p, checked, f, if b == 1 then env else clobbered, from, to)
      case None => None
      case Some(e) => Some((e, to))
  }

  function SizeOf(ty: Type): (n: nat)
    ensures 1 <= n <= 8
  {
    match ty
    case I1 => 1
    case I8 => 1
    case I16 => 2
    case I32 => 4
    case Ptr => 4
    case I64 => 8
  }

  function ReadMem(m: Mem, a: int, ty: Type): nat {
    match SizeOf(ty)
    case 1 => Byte(m, a)
    case 2 => Read16(m, a)
    case 4 => Read32(m, a)
    case _ => Read64(m, a)
  }

  function WriteMem(m: Mem, a: int, ty: Type, v: nat): Mem {
    match SizeOf(ty)
    case 1 => Write8(m, a, v)
    case 2 => Write16(m, a, v)
    case 4 => Write32(m, a, v)
    case _ => Write64(m, a, v)
  }

  predicate Initialised(m: Mem, a: int, n: nat) {
    forall x | a <= x < a + n :: x in m
  }

  predicate Writable(p: Program, stack: Stack, a: int, n: nat) {
    forall x | a <= x < a + n :: ValidByte(p, stack, x)
  }

  /** Bytes of released or fresh allocas are not initialised. */
  function Drop(m: Mem, lo: int, hi: int): Mem {
    map a | a in m && !(lo <= a < hi) :: m[a]
  }

  function FindFn(p: Program, a: nat, k: nat): Option<nat>
    requires k <= |p.fns|
    decreases |p.fns| - k
  {
    if k == |p.fns| then None
    else if AddressOf(p, Fun(k)) == a then Some(k) else FindFn(p, a, k + 1)
  }

  function TypesOf(f: Fn, vs: seq<Value>): seq<Type> {
    seq(|vs|, j requires 0 <= j < |vs| => TypeOf(f, vs[j]))
  }

  function ArgEnv(vals: seq<nat>): (e: Env)
    ensures forall r :: r in e <==> r.Arg? && r.k < |vals|
    ensures forall r | r in e :: e[r] == vals[r.k]
  {
    map k | 0 <= k < |vals| :: Arg(k) := vals[k]
  }

  // ----- One step -----

  /** The effect of an instruction that neither branches nor changes the stack. */
  function StepLocal(p: Program, checked: bool, f: Fn, i: nat, env: Env, stack: Stack, mem: Mem): Option<(Env, Mem)>
    requires i < |f.body|
  {
    match f.body[i]
    case Bin(op, ty, a, b) =>
      (match (Read(p, env, a), Read(p, env, b))
       case (Some(x), Some(y)) =>
         (match EvalBin(op, ty, x, y)
          case Some(v) => Some((Define(checked, f, env, i, v), mem))
          case None => None)
       case _ => None)
    case ICmp(pr, ty, a, b) =>
      (match (Read(p, env, a), Read(p, env, b))
       case (Some(x), Some(y)) => Some((Define(checked, f, env, i, if EvalCmp(pr, ty, x, y) then 1 else 0), mem))
       case _ => None)
    case LoadMem(ty, ptr) =>
      (match Read(p, env, ptr)
       case Some(a) =>
         if Initialised(mem, a, SizeOf(ty)) then Some((Define(checked, f, env, i, ReadMem(mem, a, ty)), mem)) else None
       case None => None)
    case StoreMem(ty, v, ptr) =>
      (match (Read(p, env, v), Read(p, env, ptr))
       case (Some(x), Some(a)) =>
         if Writable(p, stack, a, SizeOf(ty)) then Some((env, WriteMem(mem, a, ty, x))) else None
       case _ => None)
    case Ext(sign, from, to, a) =>
      (match Read(p, env, a)
       case Some(x) => Some((Define(checked, f, env, i, EvalExt(sign, from, to, x)), mem))
       case None => None)
    case Cast(_, to, a) =>
      (match Read(p, env, a)
       case Some(x) => Some((env[Res(i) := x % to.Modulus()], mem))
       case None => None)
    case Phi(_, _) => Some((env, mem))
    case Select(_, c, a, b) =>
      if checked && !IsBool(f, c) then None else
      (match (Read(p, env, c), Read(p, env, a), Read(p, env, b))
       case (Some(t), Some(x), Some(y)) => Some((Define(checked, f, env, i, if t == 1 then x else y), mem))
       case _ => None)
    case _ => None
  }

  /** Where a terminator that stays in the function goes. */
  function StepBranch(p: Program, checked: bool, f: Fn, i: nat, env: Env): Option<(Env, nat)>
    requires i < |f.body| && i < |f.parent|
  {
    match f.body[i]
    case Goto(d) =>
      (match Edge(p, checked, f, env, f.parent[i], d)
       case Some(e) => Some((e, d))
       case None => None)
    case Branch(c, y, n) => BranchEdge(p, checked, f, env, f.parent[i], c, y, n)
    case Switch(_, c, cases, d) =>
      (match Read(p, env, c)
       case Some(x) => SwitchEdge(p, checked, f, env, f.parent[i], x, cases, d)
       case None => None)
    case _ => None
  }

  predicate Room(p: Program, fn: nat, lo: int)
    requires fn < |p.plan|
  {
    p.limit <= lo - p.plan[fn].out - 8
  }

  function StepCall(p: Program, fr: Frame, rest: Stack, mem: Mem, f: Fn, inst: Inst): Option<IrState>
    requires inst.CallFn? && fr.fn < |p.fns| == |p.plan|
  {
    match (Read(p, fr.env, inst.fn), ReadAll(p, fr.env, inst.args))
    case (Some(a), Some(vals)) =>
      (match FindFn(p, a, 0)
       case None => None
       case Some(g) =>
         if g >= |p.fns| then None else
         var hi := fr.lo - p.plan[fr.fn].out - 8 - p.plan[g].vars;
         if TypesOf(f, inst.args) == p.fns[g].params && inst.ret == p.fns[g].ret && Room(p, g, hi)
         then Some(Running(Cons(Frame(g, 0, ArgEnv(vals), hi, hi), Cons(fr, rest)), mem))
         else None)
    case _ => None
  }

  function StepReturn(p: Program, checked: bool, fr: Frame, rest: Stack, mem: Mem, v: Option<Value>): Option<IrState> {
    var mem' := Drop(mem, fr.lo, fr.hi);
    var result := if v.Some? then Read(p, fr.env, v.value) else None;
    if v.Some? && result.None? then None else
    match rest
    case Nil => Some(Done(result, mem'))
    case Cons(c, r) =>
      if c.fn >= |p.fns| then None else
      var f := p.fns[c.fn];
      var env := KillIf(checked, f, c.env, {c.pc});
      Some(Running(Cons(c.(pc := c.pc + 1, env := if v.Some? then env[Res(c.pc) := result.value] else env), r), mem'))
  }

  /** One step of the program; None when its behaviour is undefined. */
  function Step(p: Program, checked: bool, s: IrState): Option<IrState> {
    if s.Done? || s.stack.Nil? then None else
    var fr := s.stack.top;
    if fr.fn >= |p.fns| || |p.plan| != |p.fns| then None else
    var f := p.fns[fr.fn];
    if fr.pc >= |f.body| || |f.parent| != |f.body| then None else
    match f.body[fr.pc]
    case Return(v) => StepReturn(p, checked, fr, s.stack.rest, s.mem, v)
    case CallFn(_, _, _) => StepCall(p, fr, s.stack.rest, s.mem, f, f.body[fr.pc])
    case Alloca(n) =>
      var lo := fr.lo - n;
      if lo < 0 || !Room(p, fr.fn, lo) then None else
      var fr' := fr.(pc := fr.pc + 1, env := Define(checked, f, fr.env, fr.pc, lo), lo := lo);
      Some(Running(Cons(fr', s.stack.rest), Drop(s.mem, lo, fr.lo)))
    case _ =>
      if f.body[fr.pc].Terminator() then
        match StepBranch(p, checked, f, fr.pc, fr.env)
        case None => None
        case Some((env, b)) =>
          if b >= |f.starts| then None
          else Some(Running(Cons(fr.(pc := f.starts[b], env := env), s.stack.rest), s.mem))
      else
        match StepLocal(p, checked, f, fr.pc, fr.env, s.stack, s.mem)
        case None => None
        case Some((env, mem)) => Some(Running(Cons(fr.(pc := fr.pc + 1, env := env), s.stack.rest), mem))
  }
}
