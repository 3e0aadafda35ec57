/** The checked semantics, which forgets every name whose machine storage has been overwritten,
    only ever stops early: as long as it runs, the plain semantics does the same. */
module Agreement {
  import opened Words
  import opened IrOps
  import opened Machine
  import opened Ir

  /** Every name known on the left has the same value on the right. */
  ghost predicate Below(a: Env, b: Env) {
    forall r | r in a :: r in b && a[r] == b[r]
  }

  ghost predicate StackBelow(a: Stack, b: Stack) {
    match (a, b)
    case (Nil, Nil) => true
    case (Cons(x, r), Cons(y, q)) => y == x.(env := y.env) && Below(x.env, y.env) && StackBelow(r, q)
    case _ => false
  }

  ghost predicate StateBelow(a: IrState, b: IrState) {
    match (a, b)
    case (Running(s, m), Running(t, n)) => StackBelow(s, t) && m == n
    case (Done(_, _), Done(_, _)) => a == b
    case _ => false
  }

  lemma {:induction false} AllocasSame(a: Stack, b: Stack, x: int)
    requires StackBelow(a, b)
    ensures InAllocas(a, x) <==> InAllocas(b, x)
  {
    if a.Cons? {
      AllocasSame(a.rest, b.rest, x);
    }
  }

  lemma WritableSame(p: Program, a: Stack, b: Stack, x: int, n: nat)
    requires StackBelow(a, b)
    ensures Writable(p, a, x, n) <==> Writable(p, b, x, n)
  {
    hide StackBelow, InAllocas;
    forall y ensures ValidByte(p, a, y) <==> ValidByte(p, b, y) {
      AllocasSame(a, b, y);
    }
  }

  lemma {:induction false} ReadAllBelow(p: Program, a: Env, b: Env, vs: seq<Value>)
    requires Below(a, b) && ReadAll(p, a, vs).Some?
    ensures ReadAll(p, b, vs) == ReadAll(p, a, vs)
  {
    if vs != [] {
      ReadAllBelow(p, a, b, vs[1..]);
    }
  }

  lemma KillBelow(f: Fn, a: Env, b: Env, ids: set<nat>)
    requires Below(a, b)
    ensures Below(Kill(f, a, ids), b)
  {
  }

  lemma DefineBelow(f: Fn, a: Env, b: Env, i: nat, v: nat)
    requires Below(a, b)
    ensures Below(Define(true, f, a, i, v), Define(false, f, b, i, v))
  {
    KillBelow(f, a, b, {i});
  }

  lemma {:induction false} AssignBelow(a: Env, b: Env, ids: seq<nat>, vals: seq<nat>)
    requires Below(a, b) && |ids| == |vals|
    ensures Below(Assign(a, ids, vals), Assign(b, ids, vals))
  {
    if ids != [] {
      AssignBelow(a, b, ids[1..], vals[1..]);
    }
  }

  lemma EdgeBelow(p: Program, f: Fn, a: Env, b: Env, from: nat, to: nat)
    requires Below(a, b) && Edge(p, true, f, a, from, to).Some?
    ensures Edge(p, false, f, b, from, to).Some?
    ensures Below(Edge(p, true, f, a, from, to).value, Edge(p, false, f, b, from, to).value)
  {
    hide Below, Kill;
    var phis := Phis(f, to);
    var src := EdgeSources(f, phis, from).value;
    ReadAllBelow(p, a, b, src);
    KillBelow(f, a, b, Overwritten(f, from, to));
    AssignBelow(Kill(f, a, Overwritten(f, from, to)), b, phis, ReadAll(p, a, src).value);
  }

  lemma {:induction false} SwitchBelow(p: Program, f: Fn, a: Env, b: Env, from: nat, c: nat, cases: seq<(nat, nat)>, default: nat)
    requires Below(a, b) && SwitchEdge(p, true, f, a, from, c, cases, default).Some?
    ensures SwitchEdge(p, false, f, b, from, c, cases, default).Some?
    ensures SwitchEdge(p, false, f, b, from, c, cases, default).value.1 == SwitchEdge(p, true, f, a, from, c, cases, default).value.1
    ensures Below(SwitchEdge(p, true, f, a, from, c, cases, default).value.0,
                  SwitchEdge(p, false, f, b, from, c, cases, default).value.0)
  {
    hide Below, Kill, Edge;
    if cases == [] {
      EdgeBelow(p, f, a, b, from, default);
    } else if cases[0].0 == c {
      EdgeBelow(p, f, a, b, from, cases[0].1);
    } else {
      KillBelow(f, a, b, Overwritten(f, from, cases[0].1));
      SwitchBelow(p, f, Kill(f, a, Overwritten(f, from, cases[0].1)), b, from, c, cases[1..], default);
    }
  }

  lemma ReadBelow(p: Program, a: Env, b: Env, v: Value)
    requires Below(a, b) && Read(p, a, v).Some?
    ensures Read(p, b, v) == Read(p, a, v)
  {
  }

  lemma BranchBelow(p: Program, f: Fn, i: nat, a: Env, b: Env)
    requires Below(a, b) && i < |f.body| && i < |f.parent| && StepBranch(p, true, f, i, a).Some?
    ensures StepBranch(p, false, f, i, b).Some?
    ensures StepBranch(p, false, f, i, b).value.1 == StepBranch(p, true, f, i, a).value.1
    ensures Below(StepBranch(p, true, f, i, a).value.0, StepBranch(p, false, f, i, b).value.0)
  {
    hide Below, Kill, Edge, Read, SwitchEdge;
    match f.body[i] {
      case Goto(d) => EdgeBelow(p, f, a, b, f.parent[i], d);
      case Branch(c, y, n) =>
        var k := Kill(f, a, Overwritten(f, f.parent[i], y));
        KillBelow(f, a, b, Overwritten(f, f.parent[i], y));
        ReadBelow(p, k, b, c);
        if Read(p, k, c).value == 1 {
          EdgeBelow(p, f, a, b, f.parent[i], y);
        } else {
          EdgeBelow(p, f, k, b, f.parent[i], n);
        }
      case Switch(_, c, cases, d) =>
        ReadBelow(p, a, b, c);
        SwitchBelow(p, f, a, b, f.parent[i], Read(p, a, c).value, cases, d);
    }
  }

  lemma LocalBelow(p: Program, f: Fn, i: nat, a: Env, b: Env, sa: Stack, sb: Stack, mem: Mem)
    requires Below(a, b) && StackBelow(sa, sb) && i < |f.body| && StepLocal(p, true, f, i, a, sa, mem).Some?
    ensures StepLocal(p, false, f, i, b, sb, mem).Some?
    ensures StepLocal(p, false, f, i, b, sb, mem).value.1 == StepLocal(p, true, f, i, a, sa, mem).value.1
    ensures Below(StepLocal(p, true, f, i, a, sa, mem).value.0, StepLocal(p, false, f, i, b, sb, mem).value.0)
  {
    hide Kill, Define, Read, StackBelow, Writable, Initialised, EvalBin, EvalCmp, EvalExt, ReadMem, WriteMem;
    forall v | Read(p, a, v).Some? ensures Read(p, b, v) == Read(p, a, v) {
      ReadBelow(p, a, b, v);
    }
    forall v ensures Below(Define(true, f, a, i, v), Define(false, f, b, i, v)) {
      DefineBelow(f, a, b, i, v);
    }
    match f.body[i] {
      case StoreMem(ty, _, at) => WritableSame(p, sa, sb, Read(p, a, at).value, SizeOf(ty));
      case _ =>
    }
  }

  lemma ReturnAgrees(p: Program, a: Frame, b: Frame, ra: Stack, rb: Stack, mem: Mem, v: Option<Value>)
    requires b == a.(env := b.env) && Below(a.env, b.env) && StackBelow(ra, rb)
    requires StepReturn(p, true, a, ra, mem, v).Some?
    ensures StepReturn(p, false, b, rb, mem, v).Some?
    ensures StateBelow(StepReturn(p, true, a, ra, mem, v).value, StepReturn(p, false, b, rb, mem, v).value)
  {
    hide Read, Kill, Drop, Below;
    if v.Some? {
      ReadBelow(p, a.env, b.env, v.value);
    }
    if ra.Cons? {
      ReturnBelow(p, ra.top, rb.top, if v.Some? then Read(p, a.env, v.value) else None);
    }
  }

  /** One step. */
  lemma StepAgrees(p: Program, s: IrState, t: IrState)
    requires StateBelow(s, t) && Step(p, true, s).Some?
    ensures Step(p, false, t).Some? && StateBelow(Step(p, true, s).value, Step(p, false, t).value)
  {
    hide StepLocal, StepBranch, StepReturn, Read, ReadAll, Kill, Define, Drop, FindFn, Room, Below;
    var sa, sb, mem := s.stack, t.stack, s.mem;
    var a, b := sa.top, sb.top;
    var f := p.fns[a.fn];
    match f.body[a.pc] {
      case Return(v) => ReturnAgrees(p, a, b, sa.rest, sb.rest, mem, v);
      case CallFn(_, fn, args) =>
        ReadBelow(p, a.env, b.env, fn);
        ReadAllBelow(p, a.env, b.env, args);
        EnvBelowItself(ArgEnv(ReadAll(p, a.env, args).value));
      case Alloca(n) => DefineBelow(f, a.env, b.env, a.pc, a.lo - n);
      case inst =>
        if inst.Terminator() {
          BranchBelow(p, f, a.pc, a.env, b.env);
        } else {
          LocalBelow(p, f, a.pc, a.env, b.env, sa, sb, mem);
        }
    }
  }

  lemma EnvBelowItself(a: Env)
    ensures Below(a, a)
  {
  }

  lemma ReturnBelow(p: Program, c: Frame, d: Frame, result: Option<nat>)
    requires c.fn < |p.fns| && d == c.(env := d.env) && Below(c.env, d.env)
    ensures var k := Kill(p.fns[c.fn], c.env, {c.pc});
      Below(if result.Some? then k[Res(c.pc) := result.value] else k,
            if result.Some? then d.env[Res(c.pc) := result.value] else d.env)
  {
    KillBelow(p.fns[c.fn], c.env, d.env, {c.pc});
  }
}
