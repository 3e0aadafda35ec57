/** A static condition under which no run ever reads an overwritten name: then the checked
    semantics runs as far as LLVM's. */
module Freshness {
  import opened Words
  import opened IrOps
  import opened Machine
  import opened Ir
  import opened Semantics
  import opened Agreement

  // ----- The condition -----

  /** For every instruction, the names whose storage may have been overwritten when control is there. */
  type Certificate = seq<set<Ref>>

  /** A value that is neither stale nor stored in one of ids. */
  predicate Fresh(f: Fn, stale: set<Ref>, ids: set<nat>, v: Value) {
    v.Use? ==> v.r !in stale && !RootIn(f, v.r, ids)
  }

  /** Overwriting the storage of ids makes every name read through it stale, except those just defined. */
  ghost predicate Flows(f: Fn, ids: set<nat>, before: set<Ref>, after: set<Ref>, defined: set<Ref>) {
    forall r | (r in before || RootIn(f, r, ids)) && r !in defined :: r in after
  }

  function PhiNames(f: Fn, b: nat): set<Ref> {
    set i | i in Phis(f, b) :: Res(i)
  }

  /** An edge reads fresh sources, copies safely, and hands its stale names on. `ids` are the phis
      that copies for other edges have overwritten. */
  ghost predicate FreshEdge(f: Fn, cert: Certificate, stale: set<Ref>, ids: set<nat>, from: nat, to: nat) {
    && to < |f.starts| && f.starts[to] < |cert|
    && match EdgeSources(f, Phis(f, to), from)
       case None => false
       case Some(src) =>
         && PhiSafe(f, Phis(f, to), src) && (forall j | 0 <= j < |src| :: Fresh(f, stale, ids, src[j]))
         && Flows(f, ids + Overwritten(f, from, to), stale, cert[f.starts[to]], PhiNames(f, to))
  }

  ghost predicate FreshCases(f: Fn, cert: Certificate, stale: set<Ref>, ids: set<nat>, from: nat, cases: seq<(nat, nat)>, default: nat)
    decreases cases
  {
    if cases == [] then FreshEdge(f, cert, stale, ids, from, default)
    else FreshEdge(f, cert, stale, ids, from, cases[0].1)
         && FreshCases(f, cert, stale, ids + Overwritten(f, from, cases[0].1), from, cases[1..], default)
  }

  /** The values an instruction reads at its own position. */
  function ReadsOf(inst: Inst): seq<Value> {
    match inst
    case Bin(_, _, a, b) => [a, b]
    case ICmp(_, _, a, b) => [a, b]
    case LoadMem(_, at) => [at]
    case StoreMem(_, v, at) => [v, at]
    case Ext(_, _, _, a) => [a]
    case Cast(_, _, a) => [a]
    case Select(_, c, a, b) => [c, a, b]
    case Switch(_, c, _, _) => [c]
    case Return(Some(v)) => [v]
    case CallFn(_, fn, args) => [fn] + args
    case _ => []
  }

  /** Where instruction i puts a result, and with that which storage it overwrites. */
  ghost predicate FreshInst(f: Fn, cert: Certificate, i: nat)
    requires i < |f.body| == |f.parent| == |cert|
  {
    && (forall j | 0 <= j < |ReadsOf(f.body[i])| :: Fresh(f, cert[i], {}, ReadsOf(f.body[i])[j]))
    && (!f.body[i].Terminator() ==> i + 1 < |cert|)
    && match f.body[i]
       case Goto(d) => FreshEdge(f, cert, cert[i], {}, f.parent[i], d)
       case Branch(c, y, n) =>
         && Fresh(f, cert[i], Overwritten(f, f.parent[i], y), c)
         && FreshEdge(f, cert, cert[i], {}, f.parent[i], y)
         && FreshEdge(f, cert, cert[i], Overwritten(f, f.parent[i], y), f.parent[i], n)
       case Switch(_, _, cases, d) => FreshCases(f, cert, cert[i], {}, f.parent[i], cases, d)
       case Return(_) => true
       case Unreachable => true
       case StoreMem(_, _, _) => Flows(f, {}, cert[i], cert[i + 1], {})
       case Phi(_, _) => Flows(f, {}, cert[i], cert[i + 1], {})
       case Cast(_, _, _) => Flows(f, {}, cert[i], cert[i + 1], {Res(i)})
       case CallFn(ret, _, _) => Flows(f, {i}, cert[i], cert[i + 1], if ret.Some? then {Res(i)} else {})
       case Select(_, c, _, _) => IsBool(f, c) && Flows(f, {i}, cert[i], cert[i + 1], {Res(i)})
       case _ => Flows(f, {i}, cert[i], cert[i + 1], {Res(i)})
  }

  ghost predicate FreshFn(f: Fn, cert: Certificate) {
    |f.body| == |f.parent| == |cert| > 0 && forall i | 0 <= i < |f.body| :: FreshInst(f, cert, i)
  }

  ghost predicate FreshProgram(p: Program, certs: seq<Certificate>) {
    |certs| == |p.fns| && forall k | 0 <= k < |p.fns| :: WfFn(p.fns[k]) && FreshFn(p.fns[k], certs[k])
  }

  // ----- Names the checked semantics has forgotten -----

  /** Every name the checked environment a lacks is stale. */
  ghost predicate Lag(f: Fn, stale: set<Ref>, ids: set<nat>, a: Env, b: Env) {
    forall r | r in b && r !in a :: r in stale || RootIn(f, r, ids)
  }

  lemma ReadFresh(p: Program, f: Fn, stale: set<Ref>, ids: set<nat>, a: Env, b: Env, v: Value)
    requires Below(a, b) && Lag(f, stale, ids, a, b) && Fresh(f, stale, ids, v) && Read(p, b, v).Some?
    ensures Read(p, a, v) == Read(p, b, v)
  {
    hide RootIn;
  }

  lemma {:induction false} ReadAllFresh(p: Program, f: Fn, stale: set<Ref>, ids: set<nat>, a: Env, b: Env, vs: seq<Value>)
    requires Below(a, b) && Lag(f, stale, ids, a, b) && ReadAll(p, b, vs).Some?
    requires forall j | 0 <= j < |vs| :: Fresh(f, stale, ids, vs[j])
    ensures ReadAll(p, a, vs) == ReadAll(p, b, vs)
  {
    hide Below, Lag, Fresh;
    if vs != [] {
      ReadFresh(p, f, stale, ids, a, b, vs[0]);
      ReadAllFresh(p, f, stale, ids, a, b, vs[1..]);
    }
  }

  lemma LagKilled(f: Fn, stale: set<Ref>, ids: set<nat>, a: Env, b: Env, more: set<nat>)
    requires Lag(f, stale, ids, a, b)
    ensures Lag(f, stale, ids + more, Kill(f, a, more), b)
  {
    forall r | r in b && r !in Kill(f, a, more) ensures r in stale || RootIn(f, r, ids + more) {
    }
  }

  lemma LagDefined(f: Fn, stale: set<Ref>, after: set<Ref>, a: Env, b: Env, i: nat, v: nat)
    requires Lag(f, stale, {}, a, b) && Flows(f, {i}, stale, after, {Res(i)})
    ensures Lag(f, after, {}, Define(true, f, a, i, v), Define(false, f, b, i, v))
  {
    forall r | r in b && r !in Kill(f, a, {i}) && r != Res(i) ensures r in after {
      assert r in stale || RootIn(f, r, {i});
    }
  }

  lemma LagFlows(f: Fn, stale: set<Ref>, after: set<Ref>, a: Env, b: Env, defined: set<Ref>, r: Ref, v: nat)
    requires Lag(f, stale, {}, a, b) && Flows(f, {}, stale, after, defined)
    ensures defined == {} ==> Lag(f, after, {}, a, b)
    ensures defined == {r} ==> Lag(f, after, {}, a[r := v], b[r := v])
  {
    assert forall q :: !RootIn(f, q, {});
  }

  // ----- Edges -----

  lemma EdgeFresh(p: Program, f: Fn, cert: Certificate, stale: set<Ref>, ids: set<nat>, a: Env, b: Env, from: nat, to: nat)
    requires FreshEdge(f, cert, stale, ids, from, to) && Below(a, b) && Lag(f, stale, ids, a, b)
    requires Edge(p, false, f, b, from, to).Some?
    ensures Edge(p, true, f, a, from, to).Some?
    ensures Lag(f, cert[f.starts[to]], {}, Edge(p, true, f, a, from, to).value, Edge(p, false, f, b, from, to).value)
  {
    hide Below, Fresh, Root, Kill, Overwritten, Phis, PhiSafe;
    var phis := Phis(f, to);
    var src := EdgeSources(f, phis, from).value;
    ReadAllFresh(p, f, stale, ids, a, b, src);
    var vals, gone := ReadAll(p, b, src).value, Overwritten(f, from, to);
    LagKilled(f, stale, ids, a, b, gone);
    forall r | r in Assign(b, phis, vals) && r !in Assign(Kill(f, a, gone), phis, vals) ensures r in cert[f.starts[to]] {
      AssignNames(b, phis, vals, r);
      AssignNames(Kill(f, a, gone), phis, vals, r);
      assert r !in PhiNames(f, to);
    }
  }

  lemma {:induction false} CasesFresh(p: Program, f: Fn, cert: Certificate, stale: set<Ref>, ids: set<nat>, a: Env, b: Env, from: nat,
                                      c: nat, cases: seq<(nat, nat)>, default: nat)
    requires FreshCases(f, cert, stale, ids, from, cases, default) && Below(a, b) && Lag(f, stale, ids, a, b)
    requires SwitchEdge(p, false, f, b, from, c, cases, default).Some?
    ensures SwitchEdge(p, true, f, a, from, c, cases, default).Some?
    ensures var (e, to) := SwitchEdge(p, false, f, b, from, c, cases, default).value;
      && to < |f.starts| && f.starts[to] < |cert|
      && Lag(f, cert[f.starts[to]], {}, SwitchEdge(p, true, f, a, from, c, cases, default).value.0, e)
    decreases cases
  {
    hide Below, Lag, Kill, Edge, Overwritten;
    if cases == [] {
      EdgeFresh(p, f, cert, stale, ids, a, b, from, default);
    } else if cases[0].0 == c {
      EdgeFresh(p, f, cert, stale, ids, a, b, from, cases[0].1);
    } else {
      var gone := Overwritten(f, from, cases[0].1);
      KillBelow(f, a, b, gone);
      LagKilled(f, stale, ids, a, b, gone);
      CasesFresh(p, f, cert, stale, ids + gone, Kill(f, a, gone), b, from, c, cases[1..], default);
    }
  }

  lemma BranchFresh(p: Program, f: Fn, cert: Certificate, i: nat, a: Env, b: Env)
    requires FreshFn(f, cert) && i < |f.body| && Below(a, b) && Lag(f, cert[i], {}, a, b) && StepBranch(p, false, f, i, b).Some?
    ensures StepBranch(p, true, f, i, a).Some?
    ensures var (e, to) := StepBranch(p, false, f, i, b).value;
      && to < |f.starts| && f.starts[to] < |cert| && Lag(f, cert[f.starts[to]], {}, StepBranch(p, true, f, i, a).value.0, e)
  {
    hide Below, Lag, Kill, Edge, Overwritten, Read, SwitchEdge, Fresh, FreshCases;
    assert FreshInst(f, cert, i);
    match f.body[i] {
      case Goto(d) => EdgeFresh(p, f, cert, cert[i], {}, a, b, f.parent[i], d);
      case Branch(c, y, n) =>
        var gone := Overwritten(f, f.parent[i], y);
        var k := Kill(f, a, gone);
        KillBelow(f, a, b, gone);
        LagKilled(f, cert[i], {}, a, b, gone);
        assert {} + gone == gone;
        ReadFresh(p, f, cert[i], gone, k, b, c);
        if Read(p, b, c).value == 1 {
          EdgeFresh(p, f, cert, cert[i], {}, a, b, f.parent[i], y);
        } else {
          EdgeFresh(p, f, cert, cert[i], gone, k, b, f.parent[i], n);
        }
      case Switch(_, c, cases, d) =>
        assert ReadsOf(f.body[i])[0] == c;
        ReadFresh(p, f, cert[i], {}, a, b, c);
        CasesFresh(p, f, cert, cert[i], {}, a, b, f.parent[i], Read(p, b, c).value, cases, d);
    }
  }

  // ----- Other instructions -----

  /** Instructions that compute one result. */
  predicate Computing(inst: Inst) {
    inst.Bin? || inst.ICmp? || inst.LoadMem? || inst.Ext? || inst.Select?
  }

  ghost predicate ReadsAgree(p: Program, inst: Inst, a: Env, b: Env) {
    forall v | v in ReadsOf(inst) && Read(p, b, v).Some? :: Read(p, a, v) == Read(p, b, v)
  }

  lemma ReadsFresh(p: Program, f: Fn, cert: Certificate, i: nat, a: Env, b: Env)
    requires FreshFn(f, cert) && i < |f.body| && Below(a, b) && Lag(f, cert[i], {}, a, b)
    ensures ReadsAgree(p, f.body[i], a, b)
  {
    hide Below, Lag, Flows, Read, Fresh, IsBool, ReadsOf;
    assert FreshInst(f, cert, i);
    forall v | v in ReadsOf(f.body[i]) && Read(p, b, v).Some? ensures Read(p, a, v) == Read(p, b, v) {
      ReadFresh(p, f, cert[i], {}, a, b, v);
    }
  }

  /** A computing instruction does the same in both semantics. */
  lemma ComputingAgrees(p: Program, f: Fn, i: nat, a: Env, b: Env, sa: Stack, sb: Stack, mem: Mem) returns (v: nat)
    requires i < |f.body| && Computing(f.body[i]) && ReadsAgree(p, f.body[i], a, b) && (f.body[i].Select? ==> IsBool(f, f.body[i].c))
    requires StepLocal(p, false, f, i, b, sb, mem).Some?
    ensures StepLocal(p, false, f, i, b, sb, mem) == Some((Define(false, f, b, i, v), mem))
    ensures StepLocal(p, true, f, i, a, sa, mem) == Some((Define(true, f, a, i, v), mem))
  {
    hide Define, Read, Initialised, EvalBin, EvalCmp, EvalExt, ReadMem, IsBool;
    match f.body[i] {
      case Bin(op, ty, x, y) =>
        assert x in ReadsOf(f.body[i]) && y in ReadsOf(f.body[i]);
        v := EvalBin(op, ty, Read(p, b, x).value, Read(p, b, y).value).value;
      case ICmp(pr, ty, x, y) =>
        assert x in ReadsOf(f.body[i]) && y in ReadsOf(f.body[i]);
        v := if EvalCmp(pr, ty, Read(p, b, x).value, Read(p, b, y).value) then 1 else 0;
      case LoadMem(ty, at) =>
        assert at in ReadsOf(f.body[i]);
        v := ReadMem(mem, Read(p, b, at).value, ty);
      case Ext(sign, from, to, x) =>
        assert x in ReadsOf(f.body[i]);
        v := EvalExt(sign, from, to, Read(p, b, x).value);
      case Select(_, c, x, y) =>
        assert c in ReadsOf(f.body[i]) && x in ReadsOf(f.body[i]) && y in ReadsOf(f.body[i]);
        v := if Read(p, b, c).value == 1 then Read(p, b, x).value else Read(p, b, y).value;
    }
  }

  /** So do stores, phis and casts. */
  lemma OthersAgree(p: Program, f: Fn, i: nat, a: Env, b: Env, sa: Stack, sb: Stack, mem: Mem)
    requires i < |f.body| && ReadsAgree(p, f.body[i], a, b) && StackBelow(sa, sb)
    requires f.body[i].StoreMem? || f.body[i].Phi? || f.body[i].Cast?
    requires StepLocal(p, false, f, i, b, sb, mem).Some?
    ensures StepLocal(p, true, f, i, a, sa, mem).Some?
    ensures !f.body[i].Cast? ==> StepLocal(p, false, f, i, b, sb, mem).value.0 == b && StepLocal(p, true, f, i, a, sa, mem).value.0 == a
    ensures f.body[i].Cast? ==> Read(p, b, f.body[i].a).Some?
    ensures f.body[i].Cast? ==>
      && StepLocal(p, false, f, i, b, sb, mem).value.0 == b[Res(i) := Read(p, b, f.body[i].a).value % f.body[i].to.Modulus()]
      && StepLocal(p, true, f, i, a, sa, mem).value.0 == a[Res(i) := Read(p, b, f.body[i].a).value % f.body[i].to.Modulus()]
  {
    hide Read, Writable, WriteMem, StackBelow;
    match f.body[i] {
      case StoreMem(ty, v, at) =>
        assert v in ReadsOf(f.body[i]) && at in ReadsOf(f.body[i]);
        WritableSame(p, sa, sb, Read(p, b, at).value, SizeOf(ty));
      case Cast(_, _, v) => assert v in ReadsOf(f.body[i]);
      case _ =>
    }
  }

  lemma LocalFresh(p: Program, f: Fn, cert: Certificate, i: nat, a: Env, b: Env, sa: Stack, sb: Stack, mem: Mem)
    requires FreshFn(f, cert) && i < |f.body| && Below(a, b) && Lag(f, cert[i], {}, a, b) && StackBelow(sa, sb)
    requires Computing(f.body[i]) || f.body[i].StoreMem? || f.body[i].Phi? || f.body[i].Cast?
    requires StepLocal(p, false, f, i, b, sb, mem).Some?
    ensures StepLocal(p, true, f, i, a, sa, mem).Some? && i + 1 < |cert|
    ensures Lag(f, cert[i + 1], {}, StepLocal(p, true, f, i, a, sa, mem).value.0, StepLocal(p, false, f, i, b, sb, mem).value.0)
  {
    hide Below, Lag, Flows, Define, Read, StackBelow, Fresh, IsBool, StepLocal, ReadsAgree, ReadsOf;
    assert FreshInst(f, cert, i);
    ReadsFresh(p, f, cert, i, a, b);
    if Computing(f.body[i]) {
      var v := ComputingAgrees(p, f, i, a, b, sa, sb, mem);
      LagDefined(f, cert[i], cert[i + 1], a, b, i, v);
    } else {
      OthersAgree(p, f, i, a, b, sa, sb, mem);
      if f.body[i].Cast? {
        LagFlows(f, cert[i], cert[i + 1], a, b, {Res(i)}, Res(i), Read(p, b, f.body[i].a).value % f.body[i].to.Modulus());
      } else {
        LagFlows(f, cert[i], cert[i + 1], a, b, {}, Res(i), 0);
      }
    }
  }

  // ----- Whole states -----

  /** A caller waits at a call of a function with this result. */
  predicate Waits(p: Program, c: Frame, ret: Option<Type>) {
    c.fn < |p.fns| && c.pc < |p.fns[c.fn].body| && p.fns[c.fn].body[c.pc].CallFn? && p.fns[c.fn].body[c.pc].ret == ret
  }

  ghost predicate StackLag(p: Program, certs: seq<Certificate>, a: Stack, b: Stack)
    requires |certs| == |p.fns|
  {
    match (a, b)
    case (Nil, Nil) => true
    case (Cons(x, r), Cons(y, q)) =>
      && x.fn < |certs| && x.pc < |certs[x.fn]| && Lag(p.fns[x.fn], certs[x.fn][x.pc], {}, x.env, y.env)
      && StackLag(p, certs, r, q) && (r.Cons? ==> Waits(p, r.top, p.fns[x.fn].ret))
    case _ => false
  }

  ghost predicate StateLag(p: Program, certs: seq<Certificate>, s: IrState, t: IrState)
    requires |certs| == |p.fns|
  {
    StateBelow(s, t) && (s.Running? ==> StackLag(p, certs, s.stack, t.stack))
  }

  /** The suspended callers. */
  lemma RestFresh(p: Program, certs: seq<Certificate>, s: IrState, t: IrState)
    requires |certs| == |p.fns| && StateLag(p, certs, s, t) && t.Running? && t.stack.Cons?
    ensures s.Running? && s.stack.Cons? && s.mem == t.mem && s.stack.top == t.stack.top.(env := s.stack.top.env)
    ensures s.stack.rest.Cons? <==> t.stack.rest.Cons?
    ensures s.stack.top.fn < |p.fns| && StackLag(p, certs, s.stack.rest, t.stack.rest)
    ensures t.stack.rest.Cons? ==>
      var c, d := s.stack.rest.top, t.stack.rest.top;
      && Waits(p, c, p.fns[s.stack.top.fn].ret) && d == c.(env := d.env) && c.pc < |certs[c.fn]|
      && Lag(p.fns[c.fn], certs[c.fn][c.pc], {}, c.env, d.env) && StackLag(p, certs, s.stack.rest.rest, t.stack.rest.rest)
      && (s.stack.rest.rest.Cons? ==> Waits(p, s.stack.rest.rest.top, p.fns[c.fn].ret))
  {
    hide Below, Lag;
    assert StackLag(p, certs, s.stack.rest, t.stack.rest) && StackBelow(s.stack.rest, t.stack.rest);
  }

  lemma ReturnFresh(p: Program, certs: seq<Certificate>, s: IrState, t: IrState)
    requires FreshProgram(p, certs) && StateLag(p, certs, s, t) && t.Running? && t.stack.Cons?
    requires var fr := t.stack.top; fr.fn < |p.fns| && fr.pc < |p.fns[fr.fn].body| && p.fns[fr.fn].body[fr.pc].Return?
    requires Step(p, false, t).Some?
    ensures Step(p, true, s).Some? && (Step(p, true, s).value.Running? <==> Step(p, false, t).value.Running?)
    ensures Step(p, false, t).value.Running? ==> StackLag(p, certs, Step(p, true, s).value.stack, Step(p, false, t).value.stack)
  {
    hide Read, Kill, Drop, Below, Lag, WfInst, WfFn, Fresh, FreshFn, StateLag;
    TopFresh(p, certs, s, t);
    RestFresh(p, certs, s, t);
    var a, b := s.stack.top, t.stack.top;
    var f, v := p.fns[a.fn], p.fns[a.fn].body[a.pc].result;
    if v.Some? {
      ResultFresh(p, f, certs[a.fn], a.pc, a.env, b.env);
    }
    if s.stack.rest.Cons? {
      ReturnsResult(p, a.fn, a.pc);
      ResumeFresh(p, certs, s.stack.rest.top, t.stack.rest.top, f.ret, if v.Some? then Read(p, b.env, v.value) else None);
    }
  }

  lemma ResultFresh(p: Program, f: Fn, cert: Certificate, i: nat, a: Env, b: Env)
    requires FreshFn(f, cert) && i < |f.body| && f.body[i].Return? && f.body[i].result.Some?
    requires Below(a, b) && Lag(f, cert[i], {}, a, b) && Read(p, b, f.body[i].result.value).Some?
    ensures Read(p, a, f.body[i].result.value) == Read(p, b, f.body[i].result.value)
  {
    hide Read, Below, Lag, Fresh;
    assert FreshInst(f, cert, i);
    assert ReadsOf(f.body[i])[0] == f.body[i].result.value;
    ReadFresh(p, f, cert[i], {}, a, b, f.body[i].result.value);
  }

  lemma ReturnsResult(p: Program, k: nat, i: nat)
    requires k < |p.fns| && WfFn(p.fns[k]) && i < |p.fns[k].body| && p.fns[k].body[i].Return?
    ensures p.fns[k].body[i].result.Some? <==> p.fns[k].ret.Some?
  {
    assert WfInst(p.fns[k], i);
  }

  /** The caller continues with the result defined. */
  lemma ResumeFresh(p: Program, certs: seq<Certificate>, c: Frame, d: Frame, ret: Option<Type>, result: Option<nat>)
    requires FreshProgram(p, certs) && Waits(p, c, ret) && (result.Some? <==> ret.Some?) && c.pc < |certs[c.fn]|
    requires Lag(p.fns[c.fn], certs[c.fn][c.pc], {}, c.env, d.env)
    ensures c.pc + 1 < |certs[c.fn]|
    ensures var k := Kill(p.fns[c.fn], c.env, {c.pc});
      Lag(p.fns[c.fn], certs[c.fn][c.pc + 1], {}, if result.Some? then k[Res(c.pc) := result.value] else k,
          if result.Some? then d.env[Res(c.pc) := result.value] else d.env)
  {
    hide WfFn;
    var f, cert, i := p.fns[c.fn], certs[c.fn], c.pc;
    assert FreshFn(f, cert) && FreshInst(f, cert, i);
    forall r | r in d.env && r !in Kill(f, c.env, {i}) && (result.Some? ==> r != Res(i)) ensures r in cert[i + 1] {
      assert r in cert[i] || RootIn(f, r, {i});
    }
  }

  lemma CallFresh(p: Program, certs: seq<Certificate>, s: IrState, t: IrState)
    requires FreshProgram(p, certs) && StateLag(p, certs, s, t) && t.Running? && t.stack.Cons?
    requires var fr := t.stack.top; fr.fn < |p.fns| && fr.pc < |p.fns[fr.fn].body| && p.fns[fr.fn].body[fr.pc].CallFn?
    requires Step(p, false, t).Some?
    ensures Step(p, true, s).Some? && Step(p, true, s).value.Running? && Step(p, false, t).value.Running?
    ensures StackLag(p, certs, Step(p, true, s).value.stack, Step(p, false, t).value.stack)
  {
    hide Read, ReadAll, Below, Lag, WfInst, Fresh, RootIn, FindFn, Room, TypesOf, ArgEnv;
    var a, b := s.stack.top, t.stack.top;
    var f := p.fns[a.fn];
    var inst := f.body[a.pc];
    assert FreshFn(f, certs[a.fn]) && FreshInst(f, certs[a.fn], a.pc);
    var vs := ReadsOf(inst);
    assert vs[0] == inst.fn && vs[1..] == inst.args;
    ReadFresh(p, f, certs[a.fn][a.pc], {}, a.env, b.env, inst.fn);
    forall j | 0 <= j < |inst.args| ensures Fresh(f, certs[a.fn][a.pc], {}, inst.args[j]) {
      assert vs[j + 1] == inst.args[j];
    }
    ReadAllFresh(p, f, certs[a.fn][a.pc], {}, a.env, b.env, inst.args);
    var u, v := Step(p, true, s).value, Step(p, false, t).value;
    LagSame(p.fns[v.stack.top.fn], certs[v.stack.top.fn][0], v.stack.top.env);
  }

  lemma LagSame(f: Fn, stale: set<Ref>, a: Env)
    ensures Lag(f, stale, {}, a, a)
  {
  }

  /** A step of LLVM's semantics that is possible is possible in the checked one. */
  lemma StepFresh(p: Program, certs: seq<Certificate>, s: IrState, t: IrState)
    requires FreshProgram(p, certs) && StateLag(p, certs, s, t) && Step(p, false, t).Some?
    ensures Step(p, true, s).Some? && StateLag(p, certs, Step(p, true, s).value, Step(p, false, t).value)
  {
    hide StepLocal, StepBranch, StepReturn, StepCall, Read, Kill, Define, Drop, Room, Below, Lag, WfFn, StateBelow;
    TopFresh(p, certs, s, t);
    var a, b := s.stack.top, t.stack.top;
    var f := p.fns[a.fn];
    match f.body[a.pc] {
      case Return(_) => ReturnFresh(p, certs, s, t);
      case CallFn(_, _, _) => CallFresh(p, certs, s, t);
      case Alloca(_) => AllocaFresh(p, certs, s, t);
      case _ => InsideFresh(p, certs, s, t);
    }
    StepAgrees(p, s, t);
  }

  lemma TopFresh(p: Program, certs: seq<Certificate>, s: IrState, t: IrState)
    requires FreshProgram(p, certs) && StateLag(p, certs, s, t) && Step(p, false, t).Some?
    ensures s.Running? && t.Running? && s.stack.Cons? && t.stack.Cons? && s.mem == t.mem && |p.plan| == |p.fns|
    ensures var fr, b := s.stack.top, t.stack.top;
      && b == fr.(env := b.env) && Below(fr.env, b.env) && fr.fn < |p.fns| && fr.pc < |p.fns[fr.fn].body|
      && StackBelow(s.stack, t.stack)
      && FreshFn(p.fns[fr.fn], certs[fr.fn]) && Lag(p.fns[fr.fn], certs[fr.fn][fr.pc], {}, fr.env, b.env)
  {
    hide StepLocal, StepBranch, StepReturn, StepCall, Kill, Define, Drop, Room, Below, Lag, WfFn, FreshFn;
  }

  lemma AllocaFresh(p: Program, certs: seq<Certificate>, s: IrState, t: IrState)
    requires FreshProgram(p, certs) && StateLag(p, certs, s, t) && t.Running? && t.stack.Cons?
    requires var fr := t.stack.top; fr.fn < |p.fns| && fr.pc < |p.fns[fr.fn].body| && p.fns[fr.fn].body[fr.pc].Alloca?
    requires Step(p, false, t).Some?
    ensures Step(p, true, s).Some? && Step(p, true, s).value.Running? && Step(p, false, t).value.Running?
    ensures StackLag(p, certs, Step(p, true, s).value.stack, Step(p, false, t).value.stack)
  {
    hide Define, Drop, Room, Below, Lag, WfFn, Flows, Fresh;
    TopFresh(p, certs, s, t);
    var a, b := s.stack.top, t.stack.top;
    var f, cert := p.fns[a.fn], certs[a.fn];
    assert FreshInst(f, cert, a.pc);
    LagDefined(f, cert[a.pc], cert[a.pc + 1], a.env, b.env, a.pc, a.lo - f.body[a.pc].size);
  }

  /** Instructions that stay in the frame. */
  predicate Inside(inst: Inst) {
    !inst.Alloca? && !inst.CallFn? && !inst.Return?
  }

  lemma InsideFresh(p: Program, certs: seq<Certificate>, s: IrState, t: IrState)
    requires FreshProgram(p, certs) && StateLag(p, certs, s, t) && t.Running? && t.stack.Cons?
    requires var fr := t.stack.top; fr.fn < |p.fns| && fr.pc < |p.fns[fr.fn].body| && Inside(p.fns[fr.fn].body[fr.pc])
    requires Step(p, false, t).Some?
    ensures Step(p, true, s).Some? && Step(p, true, s).value.Running? && Step(p, false, t).value.Running?
    ensures StackLag(p, certs, Step(p, true, s).value.stack, Step(p, false, t).value.stack)
  {
    hide StepLocal, StepBranch, Below, Lag, WfFn, FreshFn, StackBelow;
    TopFresh(p, certs, s, t);
    var a, b := s.stack.top, t.stack.top;
    var f := p.fns[a.fn];
    if f.body[a.pc].Terminator() {
      BranchFresh(p, f, certs[a.fn], a.pc, a.env, b.env);
      BranchBelow(p, f, a.pc, a.env, b.env);
    } else {
      LocalFresh(p, f, certs[a.fn], a.pc, a.env, b.env, s.stack, t.stack, s.mem);
      LocalBelow(p, f, a.pc, a.env, b.env, s.stack, t.stack, s.mem);
    }
  }

  // ----- Functions without phis and casts -----

  /** No phi and no cast, and every select is on a condition of the boolean class. */
  ghost predicate Direct(f: Fn) {
    forall i | 0 <= i < |f.body| :: !f.body[i].Phi? && !f.body[i].Cast? && (f.body[i].Select? ==> IsBool(f, f.body[i].c))
  }

  lemma DirectRoot(f: Fn, r: Ref, ids: set<nat>)
    requires Direct(f)
    ensures RootIn(f, r, ids) <==> r.Res? && r.i in ids
  {
    hide IsBool;
  }

  /** Calls without a result still have a slot, which nothing reads. */
  function Voids(f: Fn): set<Ref> {
    set i | 0 <= i < |f.body| && f.body[i].CallFn? && f.body[i].ret.None? :: Res(i)
  }

  lemma NotVoid(f: Fn, v: Value, ty: Type)
    requires WfValue(f, v, ty)
    ensures v.Use? ==> v.r !in Voids(f)
  {
  }

  lemma DirectFresh(f: Fn, v: Value, ty: Type)
    requires Direct(f) && WfValue(f, v, ty)
    ensures Fresh(f, Voids(f), {}, v)
  {
    hide WfValue, Direct, Voids, RootIn;
    NotVoid(f, v, ty);
    if v.Use? {
      DirectRoot(f, v.r, {});
    }
  }

  lemma DirectEdge(f: Fn, cert: Certificate, from: nat, to: nat)
    requires Direct(f) && WfTarget(f, from, to) && |cert| == |f.body| && forall i | 0 <= i < |cert| :: cert[i] == Voids(f)
    ensures FreshEdge(f, cert, Voids(f), {}, from, to) && Overwritten(f, from, to) == {}
  {
    hide IsBool, Root, WfValue, Voids;
    assert Phis(f, to) == [];
    assert {} + Overwritten(f, from, to) == {};
    forall r | RootIn(f, r, {}) ensures false {
      DirectRoot(f, r, {});
    }
  }

  lemma {:induction false} DirectCases(f: Fn, cert: Certificate, from: nat, cases: seq<(nat, nat)>, default: nat)
    requires Direct(f) && |cert| == |f.body| && forall i | 0 <= i < |cert| :: cert[i] == Voids(f)
    requires WfTarget(f, from, default) && forall j | 0 <= j < |cases| :: WfTarget(f, from, cases[j].1)
    ensures FreshCases(f, cert, Voids(f), {}, from, cases, default)
    decreases cases
  {
    hide FreshEdge, Overwritten, WfTarget, Direct, Voids;
    if cases == [] {
      DirectEdge(f, cert, from, default);
    } else {
      DirectEdge(f, cert, from, cases[0].1);
      DirectCases(f, cert, from, cases[1..], default);
      assert {} + Overwritten(f, from, cases[0].1) == {};
    }
  }

  lemma DirectReads(f: Fn, i: nat)
    requires WfFn(f) && Direct(f) && i < |f.body|
    ensures forall j | 0 <= j < |ReadsOf(f.body[i])| :: Fresh(f, Voids(f), {}, ReadsOf(f.body[i])[j])
  {
    hide WfValue, WfTarget, Direct, Voids, Fresh, TypeOf;
    assert WfInst(f, i);
    forall j | 0 <= j < |ReadsOf(f.body[i])| ensures Fresh(f, Voids(f), {}, ReadsOf(f.body[i])[j]) {
      var v := ReadsOf(f.body[i])[j];
      var ty := ReadsWf(f, i, j);
      DirectFresh(f, v, ty);
    }
  }

  lemma ReadsWf(f: Fn, i: nat, j: nat) returns (ty: Type)
    requires WfFn(f) && i < |f.body| && j < |ReadsOf(f.body[i])|
    ensures WfValue(f, ReadsOf(f.body[i])[j], ty)
  {
    hide WfValue, WfTarget, TypeOf;
    assert WfInst(f, i);
    match f.body[i] {
      case Bin(_, t, _, _) => ty := t;
      case ICmp(_, t, _, _) => ty := t;
      case LoadMem(_, _) => ty := Ptr;
      case StoreMem(t, _, _) => ty := if j == 0 then t else Ptr;
      case Ext(_, from, _, _) => ty := from;
      case Cast(from, _, _) => ty := from;
      case Select(t, _, _, _) => ty := if j == 0 then I1 else t;
      case Switch(t, _, _, _) => ty := t;
      case Return(_) => ty := f.ret.value;
      case CallFn(_, fn, args) =>
        ty := Ptr;
        if j > 0 {
          ty := TypeOf(f, args[j - 1]);
          assert ReadsOf(f.body[i])[j] == args[j - 1];
        }
    }
  }

  lemma DirectFlows(f: Fn, ids: set<nat>, defined: set<Ref>)
    requires Direct(f) && forall i | i in ids :: Res(i) in defined || Res(i) in Voids(f)
    ensures Flows(f, ids, Voids(f), Voids(f), defined)
  {
    hide Direct, Voids, RootIn;
    forall r | RootIn(f, r, ids) && r !in defined ensures r in Voids(f) {
      DirectRoot(f, r, ids);
    }
  }

  lemma DirectInst(f: Fn, cert: Certificate, i: nat)
    requires WfFn(f) && Direct(f) && |cert| == |f.body| && i < |f.body| && forall j | 0 <= j < |cert| :: cert[j] == Voids(f)
    ensures FreshInst(f, cert, i)
  {
    hide FreshEdge, FreshCases, Overwritten, WfTarget, WfValue, IsBool, RootIn, Fresh, Flows, TypeOf;
    assert WfInst(f, i);
    DirectReads(f, i);
    match f.body[i] {
      case Goto(d) => DirectEdge(f, cert, f.parent[i], d);
      case Branch(c, y, n) =>
        DirectFresh(f, c, I1);
        DirectEdge(f, cert, f.parent[i], y);
        DirectEdge(f, cert, f.parent[i], n);
      case Switch(_, _, cases, d) => DirectCases(f, cert, f.parent[i], cases, d);
      case CallFn(ret, _, _) => DirectFlows(f, {i}, if ret.Some? then {Res(i)} else {});
      case _ =>
        DirectFlows(f, {}, {});
        DirectFlows(f, {i}, {Res(i)});
    }
  }

  /** Such a function never reads an overwritten name. */
  lemma DirectIsFresh(f: Fn)
    requires WfFn(f) && Direct(f)
    ensures FreshFn(f, seq(|f.body|, _ => Voids(f)))
  {
    hide FreshInst, WfInst, Direct, WfBool, Voids;
    var cert: Certificate := seq(|f.body|, _ => Voids(f));
    forall i | 0 <= i < |f.body| ensures FreshInst(f, cert, i) {
      DirectInst(f, cert, i);
    }
  }

  lemma DirectProgram(p: Program) returns (certs: seq<Certificate>)
    requires forall k | 0 <= k < |p.fns| :: WfFn(p.fns[k]) && Direct(p.fns[k])
    ensures FreshProgram(p, certs)
  {
    hide WfFn, Direct, FreshFn, Voids;
    certs := seq(|p.fns|, k requires 0 <= k < |p.fns| => seq(|p.fns[k].body|, _ => Voids(p.fns[k])));
    forall k | 0 <= k < |p.fns| ensures FreshFn(p.fns[k], certs[k]) {
      DirectIsFresh(p.fns[k]);
    }
  }

  // ----- An example -----

  /** A loop whose phi receives itself on the back edge and is returned after the loop: the branch
      runs the copies for the back edge also when it leaves. */
  function Loop(): Fn {
    Function([I1], Some(I32),
             [Goto(1), Phi(I32, [(0, Const(I32, Num(5))), (1, Use(Res(1)))]), Branch(Use(Arg(0)), 1, 2), Return(Some(Use(Res(1))))],
             [0, 1, 1, 2], [0, 1, 3], [0, 1, 2, 3], {})
  }

  function NothingStale(): Certificate {
    [{}, {}, {}, {}]
  }

  lemma LoopRoots(r: Ref, ids: set<nat>)
    ensures RootIn(Loop(), r, ids) <==> r.Res? && r.i in ids
  {
  }

  lemma LoopPhis()
    ensures Phis(Loop(), 0) == [] && Phis(Loop(), 1) == [1] && Phis(Loop(), 2) == []
    ensures PhiNames(Loop(), 1) == {Res(1)}
  {
    var f := Loop();
    assert PhisFrom(f, 2) == [] && PhisFrom(f, 1) == [1];
    assert PhisFrom(f, 0) == [] && PhisFrom(f, 3) == [];
    assert Res(1) in PhiNames(f, 1);
  }

  /** Copies for the back edge overwrite nothing. */
  lemma LoopKeeps()
    ensures Overwritten(Loop(), 1, 1) == {} && Overwritten(Loop(), 0, 1) == {1} && Overwritten(Loop(), 1, 2) == {}
  {
    LoopPhis();
    LoopSources();
    var f := Loop();
    assert Root(f, Use(Res(1))) == Use(Res(1));
    assert KeepsItself(f, 1, 1) && !KeepsItself(f, 1, 0);
  }

  lemma LoopSources()
    ensures IncomingOf(Loop(), 1, 0) == Some(Const(I32, Num(5))) && IncomingOf(Loop(), 1, 1) == Some(Use(Res(1)))
    ensures EdgeSources(Loop(), Phis(Loop(), 1), 0) == Some([Const(I32, Num(5))])
    ensures EdgeSources(Loop(), Phis(Loop(), 1), 1) == Some([Use(Res(1))]) && EdgeSources(Loop(), Phis(Loop(), 2), 1) == Some([])
  {
    LoopPhis();
    var inc := Loop().body[1].incoming;
    assert inc[1..] == [(1, Use(Res(1)))];
    assert Incoming(inc, 0) == Some(Const(I32, Num(5)));
    assert Incoming(inc[1..], 1) == Some(Use(Res(1)));
    EdgeOne(Loop(), 1, 0, Const(I32, Num(5)));
    EdgeOne(Loop(), 1, 1, Use(Res(1)));
  }

  lemma EdgeOne(f: Fn, phi: nat, from: nat, v: Value)
    requires phi < |f.body| && f.body[phi].Phi? && IncomingOf(f, phi, from) == Some(v)
    ensures EdgeSources(f, [phi], from) == Some([v])
  {
    assert [phi][1..] == [];
    var none: seq<Value> := [];
    assert EdgeSources(f, [phi][1..], from) == Some(none);
    assert [v] + none == [v];
  }

  lemma NothingIn(f: Fn, v: Value, defined: set<Ref>)
    ensures Fresh(f, {}, {}, v) && Flows(f, {}, {}, {}, defined)
  {
  }

  lemma LoopEdge(from: nat, to: nat)
    requires (from == 0 && to == 1) || (from == 1 && (to == 1 || to == 2))
    ensures FreshEdge(Loop(), NothingStale(), {}, {}, from, to)
  {
    hide Root, Overwritten, Phis, IncomingOf, EdgeSources, RootIn, PhiNames, Fresh;
    LoopPhis();
    LoopKeeps();
    LoopSources();
    var f, gone := Loop(), Overwritten(Loop(), from, to);
    assert {} + gone == gone;
    forall r | RootIn(f, r, gone) ensures r in PhiNames(f, to) {
      LoopRoots(r, gone);
    }
    NothingIn(f, Use(Res(1)), {});
    NothingIn(f, Const(I32, Num(5)), {});
  }

  /** Nothing is ever stale in it, so every run of it is compiled correctly. */
  lemma LoopIsFresh()
    ensures FreshFn(Loop(), NothingStale())
  {
    LoopInst(0);
    LoopInst(1);
    LoopInst(2);
    LoopInst(3);
  }

  lemma LoopInst(i: nat)
    requires i < 4
    ensures FreshInst(Loop(), NothingStale(), i)
  {
    hide FreshEdge, Overwritten, Flows, Fresh, Root;
    LoopEdge(0, 1);
    LoopEdge(1, 1);
    LoopEdge(1, 2);
    LoopKeeps();
    NothingIn(Loop(), Use(Res(1)), {});
    NothingIn(Loop(), Use(Arg(0)), {});
  }

  lemma LoopTarget(from: nat, to: nat)
    requires (from == 0 && to == 1) || (from == 1 && (to == 1 || to == 2))
    ensures WfTarget(Loop(), from, to)
  {
    hide Phis, IncomingOf;
    LoopPhis();
    LoopSources();
  }

  lemma LoopBranchWf()
    ensures WfInst(Loop(), 0) && WfInst(Loop(), 2)
  {
    hide WfTarget, IsBool;
    LoopTarget(0, 1);
    LoopTarget(1, 1);
    LoopTarget(1, 2);
  }

  lemma LoopReturnWf()
    ensures WfInst(Loop(), 1) && WfInst(Loop(), 3)
  {
    hide WfTarget, IsBool;
  }

  lemma LoopWf()
    ensures WfFn(Loop())
  {
    hide WfInst;
    LoopBranchWf();
    LoopReturnWf();
  }

  /** From the entry to the loop, and out of it when the argument is 0. */
  lemma LoopEdges(p: Program)
    ensures Edge(p, false, Loop(), map[Arg(0) := 0], 0, 1) == Some(map[Arg(0) := 0, Res(1) := 5])
    ensures Edge(p, false, Loop(), map[Arg(0) := 0, Res(1) := 5], 1, 2) == Some(map[Arg(0) := 0, Res(1) := 5])
  {
    hide Phis, IncomingOf, Overwritten, EdgeSources;
    LoopPhis();
    LoopSources();
    var f, e, e1: Env := Loop(), map[Arg(0) := 0], map[Arg(0) := 0, Res(1) := 5];
    var five := [Const(I32, Num(5))];
    var none: seq<nat> := [];
    assert five[1..] == [] && ReadAll(p, e, five[1..]) == Some(none);
    assert [5] + none == [5] && ReadAll(p, e, five) == Some([5]);
    assert [1][1..] == [] && [5][1..] == [];
    assert Assign(e, [1], [5]) == e[Res(1) := 5] == e1;
  }
}
