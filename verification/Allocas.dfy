/** Every alloca buffer that is live at the same time, over whole runs: pairwise disjoint and above
    the area for outgoing arguments. */
module Allocas {
  import opened Words
  import opened IrOps
  import opened Machine
  import opened Ir
  import opened Execution
  import opened Relation
  import opened Simulation
  import opened Correctness

  /** Start and size. */
  type Buffer = (int, nat)

  predicate Disjoint(x: Buffer, y: Buffer) {
    x.0 + x.1 <= y.0 || y.0 + y.1 <= x.0
  }

  /** The live buffers, one list per active call, innermost call and newest buffer first, after the
      step from s. */
  function Track(p: Program, s: IrState, live: seq<seq<Buffer>>): seq<seq<Buffer>> {
    if s.Done? || s.stack.Nil? || s.stack.top.fn >= |p.fns| || live == [] then live else
    var fr, f := s.stack.top, p.fns[s.stack.top.fn];
    if fr.pc >= |f.body| then live else
    match f.body[fr.pc]
    case Return(_) => live[1..]
    case CallFn(_, _, _) => [[]] + live
    case Alloca(n) => [[(fr.lo - n, n)] + live[0]] + live[1..]
    case _ => live
  }

  /** n steps, with the buffers that are live at their end. */
  function TrackRun(p: Program, checked: bool, n: nat, s: IrState, live: seq<seq<Buffer>>): (r: Option<(IrState, seq<seq<Buffer>>)>)
    ensures IrRun(p, checked, n, s) == if r.Some? then Some(r.value.0) else None
    decreases n
  {
    if n == 0 then Some((s, live)) else
    match Step(p, checked, s)
    case None => None
    case Some(s') => TrackRun(p, checked, n - 1, s', Track(p, s, live))
  }

  /** One call's buffers lie one after another from lo to hi. */
  predicate Chain(bufs: seq<Buffer>, lo: int, hi: int) {
    if bufs == [] then lo == hi else bufs[0].0 == lo && Chain(bufs[1..], lo + bufs[0].1, hi)
  }

  /** Every call's buffers fill its region, which lies below its caller's outgoing area. */
  ghost predicate Tracked(p: Program, stack: Stack, live: seq<seq<Buffer>>) {
    match stack
    case Nil => live == []
    case Cons(fr, rest) =>
      && live != [] && fr.fn < |p.plan| && Chain(live[0], fr.lo, fr.hi) && Tracked(p, rest, live[1..])
      && (rest.Cons? ==> rest.top.fn < |p.plan| && fr.hi <= rest.top.lo - p.plan[rest.top.fn].out)
  }

  lemma {:induction false} ChainOrder(bufs: seq<Buffer>, lo: int, hi: int)
    requires Chain(bufs, lo, hi)
    ensures lo <= hi && forall j | 0 <= j < |bufs| :: lo <= bufs[j].0 && bufs[j].0 + bufs[j].1 <= hi
    ensures forall i, j | 0 <= i < j < |bufs| :: Disjoint(bufs[i], bufs[j])
  {
    if bufs != [] {
      ChainOrder(bufs[1..], lo + bufs[0].1, hi);
      assert forall j | 1 <= j < |bufs| :: bufs[j] == bufs[1..][j - 1];
    }
  }

  /** No buffer overlaps another, in the same call or in different ones. */
  ghost predicate AllDisjoint(live: seq<seq<Buffer>>) {
    && (forall k, i, j | 0 <= k < |live| && 0 <= i < j < |live[k]| :: Disjoint(live[k][i], live[k][j]))
    && forall k, l, i, j | 0 <= k < l < |live| && 0 <= i < |live[k]| && 0 <= j < |live[l]| :: Disjoint(live[k][i], live[l][j])
  }

  ghost predicate InBuffers(live: seq<seq<Buffer>>, a: int) {
    exists k, i | 0 <= k < |live| && 0 <= i < |live[k]| :: live[k][i].0 <= a < live[k][i].0 + live[k][i].1
  }

  lemma {:induction false} ChainCovers(bufs: seq<Buffer>, lo: int, hi: int, a: int) returns (i: nat)
    requires Chain(bufs, lo, hi) && lo <= a < hi
    ensures i < |bufs| && bufs[i].0 <= a < bufs[i].0 + bufs[i].1
  {
    if a < lo + bufs[0].1 {
      i := 0;
    } else {
      i := ChainCovers(bufs[1..], lo + bufs[0].1, hi, a);
      i := i + 1;
    }
  }

  /** Every byte of a live alloca is in a buffer of the list. */
  lemma {:induction false} TrackedCovers(p: Program, stack: Stack, live: seq<seq<Buffer>>, a: int)
    requires Tracked(p, stack, live) && InAllocas(stack, a)
    ensures InBuffers(live, a)
  {
    hide Chain;
    if stack.top.lo <= a < stack.top.hi {
      var i := ChainCovers(live[0], stack.top.lo, stack.top.hi, a);
    } else {
      TrackedCovers(p, stack.rest, live[1..], a);
      var k, i :| 0 <= k < |live[1..]| && 0 <= i < |live[1..][k]| && live[1..][k][i].0 <= a < live[1..][k][i].0 + live[1..][k][i].1;
      assert live[k + 1] == live[1..][k];
    }
  }

  ghost predicate AllAbove(live: seq<seq<Buffer>>, a: int) {
    forall k, i | 0 <= k < |live| && 0 <= i < |live[k]| :: a <= live[k][i].0
  }

  /** The outgoing areas of all active calls, innermost first. */
  function Outgoing(p: Program, stack: Stack): seq<Buffer> {
    match stack
    case Nil => []
    case Cons(fr, rest) =>
      var out := if fr.fn < |p.plan| then p.plan[fr.fn].out else 0;
      [(fr.lo - out, out)] + Outgoing(p, rest)
  }

  ghost predicate OffOutgoing(areas: seq<Buffer>, live: seq<seq<Buffer>>) {
    forall a, k, i | 0 <= a < |areas| && 0 <= k < |live| && 0 <= i < |live[k]| :: Disjoint(areas[a], live[k][i])
  }

  lemma {:induction false} OutgoingAbove(p: Program, stack: Stack, live: seq<seq<Buffer>>)
    requires Tracked(p, stack, live) && stack.Cons?
    ensures forall a | 0 <= a < |Outgoing(p, stack)| :: stack.top.lo - p.plan[stack.top.fn].out <= Outgoing(p, stack)[a].0
  {
    hide Chain;
    if stack.rest.Cons? {
      OutgoingAbove(p, stack.rest, live[1..]);
      ChainOrder(live[0], stack.top.lo, stack.top.hi);
      var all, others := Outgoing(p, stack), Outgoing(p, stack.rest);
      assert forall a | 1 <= a < |all| :: all[a] == others[a - 1];
    } else {
      assert Outgoing(p, stack.rest) == [];
    }
  }

  lemma {:induction false} OutgoingApart(p: Program, stack: Stack, live: seq<seq<Buffer>>)
    requires Tracked(p, stack, live)
    ensures OffOutgoing(Outgoing(p, stack), live)
  {
    hide Chain;
    if stack.Cons? {
      var fr, rest := stack.top, stack.rest;
      var all, others := Outgoing(p, stack), Outgoing(p, rest);
      TrackedApart(p, stack, live);
      ChainOrder(live[0], fr.lo, fr.hi);
      OutgoingApart(p, rest, live[1..]);
      assert forall k | 1 <= k < |live| :: live[k] == live[1..][k - 1];
      assert forall a | 1 <= a < |all| :: all[a] == others[a - 1];
      if rest.Cons? {
        OutgoingAbove(p, rest, live[1..]);
      }
      forall a, k, i | 0 <= a < |all| && 0 <= k < |live| && 0 <= i < |live[k]| ensures Disjoint(all[a], live[k][i]) {
        if a == 0 {
          assert fr.lo <= live[k][i].0;
        } else if k == 0 {
          assert live[0][i].0 + live[0][i].1 <= fr.hi <= all[a].0;
        } else {
          assert Disjoint(others[a - 1], live[1..][k - 1][i]);
        }
      }
    }
  }

  lemma {:induction false} TrackedApart(p: Program, stack: Stack, live: seq<seq<Buffer>>)
    requires Tracked(p, stack, live)
    ensures AllDisjoint(live) && (stack.Cons? ==> AllAbove(live, stack.top.lo))
  {
    hide Chain;
    if stack.Cons? {
      var fr, rest := stack.top, stack.rest;
      ChainOrder(live[0], fr.lo, fr.hi);
      TrackedApart(p, rest, live[1..]);
      assert forall k | 1 <= k < |live| :: live[k] == live[1..][k - 1];
      if rest.Cons? {
        forall k, i | 1 <= k < |live| && 0 <= i < |live[k]| ensures fr.hi <= live[k][i].0 {
          assert rest.top.lo <= live[1..][k - 1][i].0;
        }
      }
    }
  }

  /** What a step does to the top frame's region. */
  lemma StepRegions(p: Program, checked: bool, s: IrState, s': IrState)
    requires Step(p, checked, s) == Some(s') && s'.Running?
    ensures s.Running? && s.stack.Cons? && s.stack.top.fn < |p.fns| == |p.plan| && s.stack.top.pc < |p.fns[s.stack.top.fn].body|
    ensures var fr, rest, inst := s.stack.top, s.stack.rest, p.fns[s.stack.top.fn].body[s.stack.top.pc];
      match inst
      case Return(_) =>
        rest.Cons? && s'.stack.Cons? && s'.stack.rest == rest.rest && s'.stack.top.fn == rest.top.fn
        && s'.stack.top.lo == rest.top.lo && s'.stack.top.hi == rest.top.hi
      case CallFn(_, _, _) =>
        s'.stack.Cons? && s'.stack.rest == s.stack && s'.stack.top.fn < |p.fns| && s'.stack.top.lo == s'.stack.top.hi
        && s'.stack.top.hi <= fr.lo - p.plan[fr.fn].out
      case Alloca(n) =>
        s'.stack.Cons? && s'.stack.rest == rest && s'.stack.top.fn == fr.fn && s'.stack.top.lo == fr.lo - n && s'.stack.top.hi == fr.hi
      case _ =>
        s'.stack.Cons? && s'.stack.rest == rest && s'.stack.top.fn == fr.fn && s'.stack.top.lo == fr.lo && s'.stack.top.hi == fr.hi
  {
    hide StepLocal, StepBranch, Read, ReadAll, Kill, Define, Drop, FindFn, Room, TypesOf;
  }

  lemma StepTracked(p: Program, checked: bool, s: IrState, s': IrState, live: seq<seq<Buffer>>)
    requires s.Running? && Tracked(p, s.stack, live) && Step(p, checked, s) == Some(s') && s'.Running?
    ensures Tracked(p, s'.stack, Track(p, s, live))
  {
    hide Step;
    StepRegions(p, checked, s, s');
    var fr, inst, after := s.stack.top, p.fns[s.stack.top.fn].body[s.stack.top.pc], Track(p, s, live);
    match inst {
      case Return(_) =>
      case CallFn(_, _, _) => assert after[0] == [] && after[1..] == live;
      case Alloca(n) =>
        assert after[0][1..] == live[0] && after[1..] == live[1..];
      case _ =>
    }
  }

  lemma {:induction false} RunTracked(p: Program, checked: bool, n: nat, s: IrState, live: seq<seq<Buffer>>, s': IrState, live': seq<seq<Buffer>>)
    requires s.Running? && Tracked(p, s.stack, live) && TrackRun(p, checked, n, s, live) == Some((s', live')) && s'.Running?
    ensures Tracked(p, s'.stack, live')
    decreases n
  {
    hide Step, Track, Tracked;
    if n > 0 {
      var t := Step(p, checked, s).value;
      if t.Running? {
        StepTracked(p, checked, s, t, live);
        RunTracked(p, checked, n - 1, t, Track(p, s, live), s', live');
      } else {
        DoneStays(p, checked, n - 1, t, Track(p, s, live));
      }
    }
  }

  lemma DoneStays(p: Program, checked: bool, n: nat, s: IrState, live: seq<seq<Buffer>>)
    requires s.Done?
    ensures TrackRun(p, checked, n, s, live).Some? ==> TrackRun(p, checked, n, s, live).value.0 == s
  {
  }

  /** After any number of steps of any call from the host, with allocas in loops and in nested and
      recursive calls: the machine is in the corresponding state, no two live buffers overlap, none
      overlaps any call's outgoing area, all of them lie above esp plus the running function's, and
      every byte the program may use of its allocas is in one of them. */
  lemma AllocasApart(w: World, k: nat, vals: seq<nat>, prog: Mem, m: State, n: nat, s': IrState, live: seq<seq<Buffer>>)
    returns (steps: nat, t: State)
    requires Linked(w) && k < |w.p.fns| && Entered(w, k, vals, prog, m)
    requires TrackRun(w.p, true, n, Start(w.p, k, vals, m.regs[ESP] as int - 4 - Vars(w.p.fns[k]), prog), [[]]) == Some((s', live))
    requires s'.Running?
    ensures Steps(w, steps, m) == t && Related(w, s', t)
    ensures AllDisjoint(live) && OffOutgoing(Outgoing(w.p, s'.stack), live)
    ensures AllAbove(live, t.regs[ESP] as int + Out(TopFn(w, s'))) && forall a | InAllocas(s'.stack, a) :: InBuffers(live, a)
  {
    hide Linked, Entered, Related, Step, Steps, Vars, Out, Track, TrackRun, AllDisjoint, AllAbove, OffOutgoing,
      Tracked, Outgoing, InBuffers, InAllocas;
    EntryFacts(w, k, vals, prog, m);
    steps, t := HostRun(w, k, vals, prog, m, n, s');
    LiveApart(w, k, vals, m.regs[ESP] as int - 4 - Vars(w.p.fns[k]), prog, n, s', live);
    RelatedStack(w, s', t);
  }

  lemma LiveApart(w: World, k: nat, vals: seq<nat>, hi: int, prog: Mem, n: nat, s': IrState, live: seq<seq<Buffer>>)
    requires Linked(w) && k < |w.p.fns| && TrackRun(w.p, true, n, Start(w.p, k, vals, hi, prog), [[]]) == Some((s', live)) && s'.Running?
    ensures AllDisjoint(live) && OffOutgoing(Outgoing(w.p, s'.stack), live) && (s'.stack.Cons? ==> AllAbove(live, s'.stack.top.lo))
    ensures forall a | InAllocas(s'.stack, a) :: InBuffers(live, a)
  {
    hide Linked, Step, Track, TrackRun, AllDisjoint, AllAbove, OffOutgoing, Tracked, Outgoing, InBuffers, InAllocas;
    StartTracked(w, Start(w.p, k, vals, hi, prog));
    RunTracked(w.p, true, n, Start(w.p, k, vals, hi, prog), [[]], s', live);
    TrackedApart(w.p, s'.stack, live);
    OutgoingApart(w.p, s'.stack, live);
    forall a | InAllocas(s'.stack, a) ensures InBuffers(live, a) {
      TrackedCovers(w.p, s'.stack, live, a);
    }
  }

  lemma StartTracked(w: World, s: IrState)
    requires Linked(w) && s.Running? && s.stack.Cons? && s.stack.rest.Nil? && s.stack.top.fn < |w.p.fns| && s.stack.top.lo == s.stack.top.hi
    ensures Tracked(w.p, s.stack, [[]])
  {
    hide LabelsOk, CodeOk, DataOk, WorldOk, WfFn;
    var live: seq<seq<Buffer>> := [[]];
    assert live[1..] == [];
  }
}
