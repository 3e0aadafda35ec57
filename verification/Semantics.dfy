/** What the program's semantics says of phis, branches, switches and selects, without the recursion
    that defines it. */
module Semantics {
  import opened Words
  import opened IrOps
  import opened Machine
  import opened Ir

  // ----- Phis -----

  lemma {:induction false} AssignGives(env: Env, ids: seq<nat>, vals: seq<nat>)
    requires |ids| == |vals| && forall j, k | 0 <= j < k < |ids| :: ids[j] != ids[k]
    ensures var e := Assign(env, ids, vals);
      && (forall j | 0 <= j < |ids| :: Res(ids[j]) in e && e[Res(ids[j])] == vals[j])
      && (forall r | r in e && (forall j | 0 <= j < |ids| :: r != Res(ids[j])) :: r in env && e[r] == env[r])
  {
    if ids != [] {
      AssignGives(env, ids[1..], vals[1..]);
      var t := Assign(env, ids[1..], vals[1..]);
      forall j | 0 < j < |ids| ensures Res(ids[j]) in t && t[Res(ids[j])] == vals[j] {
        assert ids[1..][j - 1] == ids[j] && vals[1..][j - 1] == vals[j];
      }
      forall r | r in t && (forall j | 0 <= j < |ids| :: r != Res(ids[j])) ensures r in env && t[r] == env[r] {
        forall j | 0 <= j < |ids[1..]| ensures r != Res(ids[1..][j]) {
          assert ids[1..][j] == ids[j + 1];
        }
      }
    }
  }

  lemma {:induction false} AssignNames(env: Env, ids: seq<nat>, vals: seq<nat>, r: Ref)
    requires |ids| == |vals|
    ensures r in Assign(env, ids, vals) <==> r in env || (r.Res? && r.i in ids)
  {
    if ids != [] {
      AssignNames(env, ids[1..], vals[1..], r);
      assert forall i :: i in ids <==> i == ids[0] || i in ids[1..];
    }
  }

  /** Along an edge every phi takes the value that its entry for the edge had before, and no other
      name changes. */
  lemma EdgeMeans(p: Program, f: Fn, env: Env, from: nat, to: nat)
    requires Edge(p, false, f, env, from, to).Some?
    ensures var e := Edge(p, false, f, env, from, to).value;
      && (forall i | i in Phis(f, to) ::
            IncomingOf(f, i, from).Some? && Res(i) in e && Read(p, env, IncomingOf(f, i, from).value) == Some(e[Res(i)]))
      && (forall r: Ref | !(r.Res? && r.i in Phis(f, to)) :: (r in e <==> r in env) && (r in e ==> e[r] == env[r]))
  {
    hide Phis, Read, IncomingOf;
    var phis := Phis(f, to);
    var src := EdgeSources(f, phis, from).value;
    var vals := ReadAll(p, env, src).value;
    AssignGives(env, phis, vals);
    forall i | i in phis
      ensures IncomingOf(f, i, from).Some? && Res(i) in Assign(env, phis, vals)
              && Read(p, env, IncomingOf(f, i, from).value) == Some(Assign(env, phis, vals)[Res(i)]) {
      var j :| 0 <= j < |phis| && phis[j] == i;
      assert IncomingOf(f, phis[j], from) == Some(src[j]) && Read(p, env, src[j]) == Some(vals[j]);
    }
    forall r: Ref | !(r.Res? && r.i in phis)
      ensures r in Assign(env, phis, vals) <==> r in env
      ensures r in env ==> Assign(env, phis, vals)[r] == env[r] {
      AssignNames(env, phis, vals, r);
    }
  }

  /** An edge can be taken exactly when every phi has an entry for it with a known value. */
  lemma EdgeDefined(p: Program, f: Fn, env: Env, from: nat, to: nat)
    ensures Edge(p, false, f, env, from, to).Some?
            <==> forall i | i in Phis(f, to) :: IncomingOf(f, i, from).Some? && Read(p, env, IncomingOf(f, i, from).value).Some?
  {
    hide Phis, Read, IncomingOf;
    var phis := Phis(f, to);
    if Edge(p, false, f, env, from, to).Some? {
      EdgeMeans(p, f, env, from, to);
    } else if forall i | i in phis :: IncomingOf(f, i, from).Some? && Read(p, env, IncomingOf(f, i, from).value).Some? {
      assert forall j | 0 <= j < |phis| :: phis[j] in phis;
      SourcesDefined(p, f, env, phis, from);
    }
  }

  lemma {:induction false} SourcesDefined(p: Program, f: Fn, env: Env, phis: seq<nat>, from: nat)
    requires forall j | 0 <= j < |phis| :: phis[j] < |f.body| && f.body[phis[j]].Phi?
    requires forall j | 0 <= j < |phis| :: IncomingOf(f, phis[j], from).Some? && Read(p, env, IncomingOf(f, phis[j], from).value).Some?
    ensures EdgeSources(f, phis, from).Some? && ReadAll(p, env, EdgeSources(f, phis, from).value).Some?
  {
    hide Read, IncomingOf;
    if phis != [] {
      var tail := phis[1..];
      assert forall j | 0 <= j < |tail| :: tail[j] == phis[j + 1];
      SourcesDefined(p, f, env, tail, from);
      var src := EdgeSources(f, phis, from).value;
      assert src[1..] == EdgeSources(f, tail, from).value;
    }
  }

  // ----- Branches -----

  /** A conditional branch goes to the first block on 1 and to the second on 0. */
  lemma BranchMeans(p: Program, f: Fn, env: Env, from: nat, c: Value, yes: nat, no: nat)
    requires Read(p, env, c) == Some(0) || Read(p, env, c) == Some(1)
    ensures var to := if Read(p, env, c) == Some(1) then yes else no;
      && (BranchEdge(p, false, f, env, from, c, yes, no).Some? <==> Edge(p, false, f, env, from, to).Some?)
      && (Edge(p, false, f, env, from, to).Some? ==>
            BranchEdge(p, false, f, env, from, c, yes, no) == Some((Edge(p, false, f, env, from, to).value, to)))
  {
    hide Edge;
  }

  /** A switch goes to the block of the first case with the condition's value, and to the default if
      there is none. */
  lemma {:induction false} SwitchMeans(p: Program, f: Fn, env: Env, from: nat, x: nat, cases: seq<(nat, nat)>, default: nat)
    returns (to: nat)
    ensures match Edge(p, false, f, env, from, to)
            case None => SwitchEdge(p, false, f, env, from, x, cases, default) == None
            case Some(e) => SwitchEdge(p, false, f, env, from, x, cases, default) == Some((e, to))
    ensures (exists j :: 0 <= j < |cases| && cases[j] == (x, to) && forall i | 0 <= i < j :: cases[i].0 != x)
            || (to == default && forall j | 0 <= j < |cases| :: cases[j].0 != x)
  {
    hide Edge;
    if cases == [] {
      to := default;
    } else if cases[0].0 == x {
      to := cases[0].1;
      assert cases[0] == (x, to);
    } else {
      var tail := cases[1..];
      to := SwitchMeans(p, f, env, from, x, tail, default);
      assert forall i | 0 < i < |cases| :: cases[i] == tail[i - 1];
      if j :| 0 <= j < |tail| && tail[j] == (x, to) && forall i | 0 <= i < j :: tail[i].0 != x {
        assert cases[j + 1] == (x, to);
      }
    }
  }

  // ----- Memory and calls -----

  /** A write reads back and changes its own bytes only. */
  lemma ReadWriteMem(m: Mem, a: int, t: Type, x: nat)
    requires x < t.Modulus()
    ensures ReadMem(WriteMem(m, a, t, x), a, t) == x
    ensures forall y | y < a || a + SizeOf(t) <= y :: Byte(WriteMem(m, a, t, x), y) == Byte(m, y)
    ensures forall y | y in m :: y in WriteMem(m, a, t, x)
    ensures Initialised(m, a, SizeOf(t)) ==> forall y | y in WriteMem(m, a, t, x) :: y in m
  {
    match SizeOf(t) {
      case 1 => DivModUnique(x, W8, 0, x);
      case 2 => ReadWrite16(m, a, x);
      case 4 =>
        ReadWrite32(m, a, x);
      case _ =>
        ReadWrite64(m, a, x);
    }
  }

  lemma Written(m: Mem, a: int, t: Type, x: nat, y: int)
    requires a <= y < a + SizeOf(t)
    ensures y in WriteMem(m, a, t, x)
  {
  }

  /** Bytes of global variables and of live allocas can be stored to, and what was stored is loaded back. */
  lemma StoreThenLoad(p: Program, f: Fn, i: nat, j: nat, env: Env, stack: Stack, mem: Mem, ty: Type, v: Value, at: Value,
                      x: nat, a: nat)
    requires i < |f.body| && j < |f.body| && f.body[i] == StoreMem(ty, v, at) && f.body[j] == LoadMem(ty, at)
    requires Read(p, env, v) == Some(x) && x < ty.Modulus() && Read(p, env, at) == Some(a)
    requires forall y | a <= y < a + SizeOf(ty) ::
      y in p.globals || (stack.Cons? && stack.top.lo <= y < stack.top.hi)
      || (stack.Cons? && stack.rest.Cons? && stack.rest.top.lo <= y < stack.rest.top.hi)
    ensures var mem' := WriteMem(mem, a, ty, x);
      && StepLocal(p, false, f, i, env, stack, mem) == Some((env, mem'))
      && StepLocal(p, false, f, j, env, stack, mem') == Some((env[Res(j) := x], mem'))
      && forall y | y < a || a + SizeOf(ty) <= y :: Byte(mem', y) == Byte(mem, y)
  {
    hide Read, ReadMem, WriteMem;
    ReadWriteMem(mem, a, ty, x);
    forall y | a <= y < a + SizeOf(ty) ensures ValidByte(p, stack, y) && y in WriteMem(mem, a, ty, x) {
      Written(mem, a, ty, x, y);
      assert stack.Cons? && stack.rest.Cons? && stack.rest.top.lo <= y < stack.rest.top.hi ==> InAllocas(stack.rest, y);
    }
    assert Initialised(WriteMem(mem, a, ty, x), a, SizeOf(ty));
  }

  /** A call goes to the first function with the address that is called. */
  lemma {:induction false} FindFnIs(p: Program, a: nat, k: nat)
    requires k <= |p.fns|
    ensures match FindFn(p, a, k)
            case None => forall i | k <= i < |p.fns| :: AddressOf(p, Fun(i)) != a
            case Some(g) => k <= g < |p.fns| && AddressOf(p, Fun(g)) == a && forall i | k <= i < g :: AddressOf(p, Fun(i)) != a
    decreases |p.fns| - k
  {
    hide AddressOf;
    if k < |p.fns| && AddressOf(p, Fun(k)) != a {
      FindFnIs(p, a, k + 1);
    }
  }

  // ----- What is accepted -----

  /** All operations on all the types that the code generator handles are part of the subset. */
  lemma Accepted(f: Fn, i: nat)
    requires i + 1 < |f.body| == |f.parent|
    ensures match f.body[i]
            case Bin(op, ty, a, b) =>
              (ty == I8 || ty == I16 || ty == I32 || ty == I64 || (ty == I1 && (op == And || op == Or || op == Xor))) ==>
                WfValue(f, a, ty) && WfValue(f, b, ty) ==> WfInst(f, i)
            case ICmp(_, ty, a, b) => ty != I1 && WfValue(f, a, ty) && WfValue(f, b, ty) ==> WfInst(f, i)
            case LoadMem(ty, at) => ty != I1 && WfValue(f, at, Ptr) ==> WfInst(f, i)
            case StoreMem(ty, v, at) => ty != I1 && WfValue(f, v, ty) && WfValue(f, at, Ptr) ==> WfInst(f, i)
            case Ext(_, from, to, a) =>
              (from == I1 || from == I8 || from == I16 || from == I32) && to != I1 && to != Ptr && from.Bits() < to.Bits() ==>
                WfValue(f, a, from) ==> WfInst(f, i)
            case Cast(from, to, a) => to.Bits() <= from.Bits() && WfValue(f, a, from) ==> WfInst(f, i)
            case Select(ty, c, a, b) => ty != I64 && WfValue(f, c, I1) && WfValue(f, a, ty) && WfValue(f, b, ty) ==> WfInst(f, i)
            case Phi(_, _) => WfInst(f, i)
            case Alloca(_) => WfInst(f, i)
            case _ => true
    ensures match f.body[i]
            case Bin(_, ty, _, _) => f.body[i].HasResult() && TypeOf(f, Use(Res(i))) == ty
            case ICmp(_, _, _, _) => f.body[i].HasResult() && TypeOf(f, Use(Res(i))) == I1
            case LoadMem(ty, _) => f.body[i].HasResult() && TypeOf(f, Use(Res(i))) == ty
            case Ext(_, _, to, _) => f.body[i].HasResult() && TypeOf(f, Use(Res(i))) == to
            case Cast(_, to, _) => f.body[i].HasResult() && TypeOf(f, Use(Res(i))) == to
            case Select(ty, _, _, _) => f.body[i].HasResult() && TypeOf(f, Use(Res(i))) == ty
            case Phi(ty, _) => f.body[i].HasResult() && TypeOf(f, Use(Res(i))) == ty
            case Alloca(_) => f.body[i].HasResult() && TypeOf(f, Use(Res(i))) == Ptr
            case CallFn(ret, _, _) => (f.body[i].HasResult() <==> ret.Some?) && (ret.Some? ==> TypeOf(f, Use(Res(i))) == ret.value)
            case _ => true
  {
    hide WfValue;
  }

  // ----- Frames -----

  /** An alloca's buffer lies just below the earlier ones of its call, and its bytes hold nothing yet. */
  lemma AllocaMeans(p: Program, fr: Frame, rest: Stack, mem: Mem, n: nat)
    requires fr.fn < |p.fns| == |p.plan| && fr.pc < |p.fns[fr.fn].body| == |p.fns[fr.fn].parent|
    requires p.fns[fr.fn].body[fr.pc] == Alloca(n)
    ensures match Step(p, false, Running(Cons(fr, rest), mem))
            case None => fr.lo < n || fr.lo - n < p.limit + p.plan[fr.fn].out + 8
            case Some(s) =>
              && s.Running? && s.stack == Cons(Frame(fr.fn, fr.pc + 1, fr.env[Res(fr.pc) := fr.lo - n], fr.lo - n, fr.hi), rest)
              && (forall a :: a in s.mem <==> a in mem && !(fr.lo - n <= a < fr.lo))
              && forall a | a in s.mem :: s.mem[a] == mem[a]
  {
  }

  /** A call starts the callee's first instruction with the arguments' values, no allocas, and the
      memory and the caller's frame as they are. */
  lemma CallMeans(p: Program, fr: Frame, rest: Stack, mem: Mem, f: Fn, inst: Inst, g: nat, vals: seq<nat>)
    requires inst.CallFn? && fr.fn < |p.fns| == |p.plan| && g < |p.fns|
    requires Read(p, fr.env, inst.fn) == Some(AddressOf(p, Fun(g))) && FindFn(p, AddressOf(p, Fun(g)), 0) == Some(g)
    requires ReadAll(p, fr.env, inst.args) == Some(vals) && TypesOf(f, inst.args) == p.fns[g].params && inst.ret == p.fns[g].ret
    ensures match StepCall(p, fr, rest, mem, f, inst)
            case None => fr.lo < p.limit + p.plan[fr.fn].out + 8 + p.plan[g].vars + p.plan[g].out + 8
            case Some(s) =>
              && s.Running? && s.mem == mem && s.stack.Cons? && s.stack.rest == Cons(fr, rest)
              && s.stack.top.fn == g && s.stack.top.pc == 0 && s.stack.top.lo == s.stack.top.hi
              && (forall r :: r in s.stack.top.env <==> r.Arg? && r.k < |vals|)
              && forall j | 0 <= j < |vals| :: s.stack.top.env[Arg(j)] == vals[j]
  {
    hide Read, FindFn, ReadAll, TypesOf;
  }

  /** A return hands the result to the caller's call instruction, and of memory only the bytes of the
      returning call's allocas are gone. */
  lemma ReturnMeans(p: Program, fr: Frame, c: Frame, rest: Stack, mem: Mem, v: Value, x: nat)
    requires Read(p, fr.env, v) == Some(x) && c.fn < |p.fns|
    ensures StepReturn(p, false, fr, Cons(c, rest), mem, Some(v)).Some? && StepReturn(p, false, fr, Nil, mem, Some(v)).Some?
    ensures var s := StepReturn(p, false, fr, Cons(c, rest), mem, Some(v)).value;
      && s.Running? && s.stack == Cons(Frame(c.fn, c.pc + 1, c.env[Res(c.pc) := x], c.lo, c.hi), rest)
      && (forall a :: a in s.mem <==> a in mem && !(fr.lo <= a < fr.hi)) && forall a | a in s.mem :: s.mem[a] == mem[a]
    ensures var s := StepReturn(p, false, fr, Nil, mem, Some(v)).value;
      && s.Done? && s.ret == Some(x)
      && (forall a :: a in s.mem <==> a in mem && !(fr.lo <= a < fr.hi)) && forall a | a in s.mem :: s.mem[a] == mem[a]
  {
    hide Read;
  }
}
