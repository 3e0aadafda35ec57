/** The constant-expression pass over a whole function, and what it does to every run. */
module ConstantPass {
  import opened Words
  import opened IrOps
  import opened ConstantExprs

  // ----- What is left to do -----

  predicate PlainPhi(p: Phi) {
    forall k | 0 <= k < |p.incoming| :: !p.incoming[k].1.Expr?
  }

  /** Whether an operand position no longer holds an expression. */
  predicate PlainBlock(x: Block) {
    (forall i | 0 <= i < |x.phis| :: PlainPhi(x.phis[i])) && PlainCode(x.body) && Plain(x.term.args)
  }

  predicate PlainFunction(blocks: seq<Block>) {
    forall b | 0 <= b < |blocks| :: PlainBlock(blocks[b])
  }

  lemma PlainKept(blocks: seq<Block>, e: Edit, next: nat)
    requires EditOk(blocks, e)
    ensures forall b | 0 <= b < |blocks| && PlainBlock(blocks[b]) :: PlainBlock(Apply(blocks, e, next)[b])
    ensures !PlainBlock(blocks[e.b])
  {
    ExpandPlain(Edited(blocks, e), next);
    hide Expand;
    match e {
      case InInst(b, i, k) => assert !Plain(blocks[b].body[i].args);
      case InTerm(b, k) => assert !Plain(blocks[b].term.args);
      case InPhi(b, i, k) => assert !PlainPhi(blocks[b].phis[i]);
    }
  }

  /** What a stretch of the pass achieves: from A, with names from `next` on unused, to B. */
  ghost predicate Progress(answer: Trace -> nat, A: seq<Block>, next: nat, B: seq<Block>, next': nat) {
    && Wf(B, next') && next <= next' && SameRuns(answer, A, B, next)
    && (forall b | 0 <= b < |A| && PlainBlock(A[b]) :: PlainBlock(B[b]))
    && (PlainFunction(A) ==> B == A)
  }

  lemma ProgressNone(answer: Trace -> nat, A: seq<Block>, next: nat)
    requires Wf(A, next)
    ensures Progress(answer, A, next, A, next)
  {
    hide Run;
  }

  lemma ProgressChain(answer: Trace -> nat, A: seq<Block>, n0: nat, B: seq<Block>, n1: nat, C: seq<Block>, n2: nat)
    requires Progress(answer, A, n0, B, n1) && Progress(answer, B, n1, C, n2)
    ensures Progress(answer, A, n0, C, n2)
  {
    hide Run, Wf, PlainBlock;
    SameLength(answer, A, B, n0);
    SameChain(answer, A, B, C, n0, n1);
    if PlainFunction(A) {
      assert B == A;
    }
  }

  lemma SameLength(answer: Trace -> nat, A: seq<Block>, B: seq<Block>, next: nat)
    requires SameRuns(answer, A, B, next)
    ensures |A| == |B|
  {
  }

  lemma ProgressEdit(answer: Trace -> nat, blocks: seq<Block>, e: Edit, next: nat)
    requires Wf(blocks, next) && EditOk(blocks, e)
    ensures Progress(answer, blocks, next, Apply(blocks, e, next), Expand(Edited(blocks, e), next).2)
  {
    hide Run, Wf, PlainBlock, Apply, Expand, SameRuns;
    WfAfter(blocks, e, next);
    EditSame(answer, blocks, e, next);
    PlainKept(blocks, e, next);
  }

  // ----- The pass -----

  /** A stretch of the pass, and whether it reports a change. */
  ghost predicate Phase(answer: Trace -> nat, A: seq<Block>, next: nat, B: seq<Block>, next': nat, modified: bool) {
    Progress(answer, A, next, B, next') && |A| == |B| && (if modified then !PlainFunction(A) else B == A && next' == next)
  }

  lemma PhaseNone(answer: Trace -> nat, A: seq<Block>, next: nat)
    requires Wf(A, next)
    ensures Phase(answer, A, next, A, next, false)
  {
    hide Progress, Wf;
    ProgressNone(answer, A, next);
  }

  lemma PhaseChain(answer: Trace -> nat, A: seq<Block>, n0: nat, B: seq<Block>, n1: nat, C: seq<Block>, n2: nat, m1: bool, m2: bool)
    requires Phase(answer, A, n0, B, n1, m1) && Phase(answer, B, n1, C, n2, m2)
    ensures Phase(answer, A, n0, C, n2, m1 || m2)
  {
    hide Wf, SameRuns, PlainFunction, PlainBlock;
    ProgressChain(answer, A, n0, B, n1, C, n2);
  }

  lemma PhaseEdit(answer: Trace -> nat, A: seq<Block>, n0: nat, B: seq<Block>, n1: nat, modified: bool, e: Edit)
    requires Phase(answer, A, n0, B, n1, modified) && EditOk(B, e)
    ensures Phase(answer, A, n0, Apply(B, e, n1), Expand(Edited(B, e), n1).2, true)
  {
    hide Wf, SameRuns, PlainBlock, Apply, Expand;
    ProgressEdit(answer, B, e, n1);
    PlainKept(B, e, n1);
    assert !PlainFunction(B);
    PhaseChain(answer, A, n0, B, n1, Apply(B, e, n1), Expand(Edited(B, e), n1).2, modified, true);
  }

  lemma PhaseWf(answer: Trace -> nat, A: seq<Block>, n0: nat, B: seq<Block>, n1: nat, modified: bool)
    requires Phase(answer, A, n0, B, n1, modified)
    ensures Wf(B, n1) && |A| == |B|
  {
    hide Wf, SameRuns, PlainFunction, PlainBlock;
  }

  lemma PhaseKeepsPlain(answer: Trace -> nat, A: seq<Block>, n0: nat, B: seq<Block>, n1: nat, modified: bool)
    requires Phase(answer, A, n0, B, n1, modified)
    ensures |A| == |B| && forall b | 0 <= b < |A| && PlainBlock(A[b]) :: PlainBlock(B[b])
  {
    hide Wf, SameRuns, PlainFunction, PlainBlock;
  }

  /** expandConstantExpr and getConstantExprAsInstruction: operands first, then the operation. */
  method ExpandConstantExpr(val: Operand, next: nat) returns (code: seq<Inst>, op: Operand, next': nat)
    ensures (code, op, next') == Expand(val, next)
    decreases val
  {
    if !val.Expr? {
      return [], val, next;
    }
    code, next' := [], next;
    var ops: seq<Operand> := [];
    assert val.args[0..] == val.args;
    var (all, vals, _) := ExpandArgs(val.args, next);
    assert code + all == all && ops + vals == vals;
    for i := 0 to |val.args|
      invariant var (codes, rest, n) := ExpandArgs(val.args[i..], next'); ExpandArgs(val.args, next) == (code + codes, ops + rest, n)
    {
      var c, o, n := ExpandConstantExpr(val.args[i], next');
      ArgsStep(val.args[i..], next', code, ops);
      assert val.args[i..][1..] == val.args[i + 1..];
      code, ops, next' := code + c, ops + [o], n;
    }
    assert val.args[|val.args|..] == [];
    assert code + [] == code && ops + [] == ops;
    code, op, next' := code + [Inst(next', Pure(val.p), ops)], Name(next'), next' + 1;
  }

  lemma ArgsStep(args: seq<Operand>, next: nat, code: seq<Inst>, ops: seq<Operand>)
    requires args != []
    ensures var (c, o, n) := Expand(args[0], next); var (cs, os, n') := ExpandArgs(args[1..], n);
      var (all, vals, last) := ExpandArgs(args, next);
      code + all == code + c + cs && ops + vals == ops + [o] + os && last == n'
  {
    hide Expand;
    var (c, o, n) := Expand(args[0], next);
    var (cs, os, n') := ExpandArgs(args[1..], n);
    assert code + (c + cs) == code + c + cs && ops + ([o] + os) == ops + [o] + os;
  }

  /** setOperand, with the new instructions placed where the operand is evaluated. */
  method Replace(blocks: seq<Block>, e: Edit, next: nat) returns (out: seq<Block>, next': nat)
    requires EditOk(blocks, e)
    ensures out == Apply(blocks, e, next) && next' == Expand(Edited(blocks, e), next).2
  {
    var code, o, n := ExpandConstantExpr(Edited(blocks, e), next);
    next' := n;
    match e
    case InInst(b, i, k) => out := blocks[b := SetInst(blocks[b], i, k, code, o)];
    case InTerm(b, k) => out := blocks[b := SetTerm(blocks[b], k, code, o)];
    case InPhi(b, i, k) =>
      out := blocks[Holder(blocks, e) := Append(blocks[Holder(blocks, e)], code)];
      out := out[b := SetPhi(out[b], i, k, o)];
  }

  /** expandInstruction on a phi: each expression goes to the end of its incoming block. */
  method ExpandPhi(ghost answer: Trace -> nat, blocks: seq<Block>, b: nat, i: nat, next: nat)
    returns (out: seq<Block>, next': nat, modified: bool)
    requires Wf(blocks, next) && b < |blocks| && i < |blocks[b].phis|
    ensures Phase(answer, blocks, next, out, next', modified) && |out| == |blocks|
    ensures |out[b].phis| == |blocks[b].phis| && PlainPhi(out[b].phis[i])
    ensures forall j | 0 <= j < |out[b].phis| && j != i :: out[b].phis[j] == blocks[b].phis[j]
  {
    hide Wf, Phase, Expand;
    PhaseNone(answer, blocks, next);
    out, next', modified := blocks, next, false;
    for k := 0 to |blocks[b].phis[i].incoming|
      invariant Phase(answer, blocks, next, out, next', modified) && |out| == |blocks|
      invariant |out[b].phis| == |blocks[b].phis| && |out[b].phis[i].incoming| == |blocks[b].phis[i].incoming|
      invariant forall j | 0 <= j < k :: !out[b].phis[i].incoming[j].1.Expr?
      invariant forall j | 0 <= j < |out[b].phis| && j != i :: out[b].phis[j] == blocks[b].phis[j]
    {
      if out[b].phis[i].incoming[k].1.Expr? {
        PhaseWf(answer, blocks, next, out, next', modified);
        assert out[b].phis[i].incoming[k].0 < |out| by { IncomingInside(out, next', b, i, k); }
        PhaseEdit(answer, blocks, next, out, next', modified, InPhi(b, i, k));
        out, next' := Replace(out, InPhi(b, i, k), next');
        modified := true;
      }
    }
  }

  lemma IncomingInside(blocks: seq<Block>, next: nat, b: nat, i: nat, k: nat)
    requires Wf(blocks, next) && b < |blocks| && i < |blocks[b].phis| && k < |blocks[b].phis[i].incoming|
    ensures blocks[b].phis[i].incoming[k].0 < |blocks|
  {
    hide WfBlock;
  }

  method ExpandPhis(ghost answer: Trace -> nat, blocks: seq<Block>, b: nat, next: nat)
    returns (out: seq<Block>, next': nat, modified: bool)
    requires Wf(blocks, next) && b < |blocks|
    ensures Phase(answer, blocks, next, out, next', modified) && |out| == |blocks|
    ensures forall i | 0 <= i < |out[b].phis| :: PlainPhi(out[b].phis[i])
  {
    hide Wf, Phase, PlainPhi;
    PhaseNone(answer, blocks, next);
    out, next', modified := blocks, next, false;
    for i := 0 to |blocks[b].phis|
      invariant Phase(answer, blocks, next, out, next', modified) && |out| == |blocks| && |out[b].phis| == |blocks[b].phis|
      invariant forall j | 0 <= j < i :: PlainPhi(out[b].phis[j])
    {
      PhaseWf(answer, blocks, next, out, next', modified);
      var o, n, m := ExpandPhi(answer, out, b, i, next');
      PhaseChain(answer, blocks, next, out, next', o, n, modified, m);
      out, next', modified := o, n, modified || m;
    }
  }

  /** expandInstruction on instruction i, which ends up at i': the new instructions come before it. */
  method ExpandInstruction(ghost answer: Trace -> nat, blocks: seq<Block>, b: nat, i: nat, next: nat)
    returns (out: seq<Block>, next': nat, modified: bool, i': nat)
    requires Wf(blocks, next) && b < |blocks| && i < |blocks[b].body| && PlainCode(blocks[b].body[..i])
    ensures Phase(answer, blocks, next, out, next', modified) && |out| == |blocks|
    ensures out[b].phis == blocks[b].phis && i' < |out[b].body| && PlainCode(out[b].body[..i' + 1])
    ensures |out[b].body| - i' == |blocks[b].body| - i
  {
    hide Wf, Phase, Expand;
    PhaseNone(answer, blocks, next);
    out, next', modified, i' := blocks, next, false, i;
    for k := 0 to |blocks[b].body[i].args|
      invariant Phase(answer, blocks, next, out, next', modified) && |out| == |blocks|
      invariant out[b].phis == blocks[b].phis && i' < |out[b].body| && |out[b].body| - i' == |blocks[b].body| - i
      invariant PlainCode(out[b].body[..i']) && |out[b].body[i'].args| == |blocks[b].body[i].args|
      invariant forall j | 0 <= j < k :: !out[b].body[i'].args[j].Expr?
    {
      if out[b].body[i'].args[k].Expr? {
        PhaseEdit(answer, blocks, next, out, next', modified, InInst(b, i', k));
        var length := |Expand(out[b].body[i'].args[k], next').0|;
        SetInstPlain(out[b], i', k, next');
        out, next' := Replace(out, InInst(b, i', k), next');
        modified, i' := true, i' + length;
      }
    }
  }

  lemma SetInstPlain(x: Block, i: nat, k: nat, next: nat)
    requires i < |x.body| && k < |x.body[i].args| && PlainCode(x.body[..i])
    ensures var (code, o, n) := Expand(x.body[i].args[k], next); var y := SetInst(x, i, k, code, o);
      && |y.body| == |x.body| + |code| && PlainCode(y.body[..i + |code|])
      && y.body[i + |code|] == x.body[i].(args := x.body[i].args[k := o])
  {
    ExpandPlain(x.body[i].args[k], next);
    hide Expand;
    var (code, o, n) := Expand(x.body[i].args[k], next);
    var y := SetInst(x, i, k, code, o);
    assert y.body[..i + |code|] == x.body[..i] + code;
  }

  method ExpandBody(ghost answer: Trace -> nat, blocks: seq<Block>, b: nat, next: nat)
    returns (out: seq<Block>, next': nat, modified: bool)
    requires Wf(blocks, next) && b < |blocks|
    ensures Phase(answer, blocks, next, out, next', modified) && |out| == |blocks|
    ensures out[b].phis == blocks[b].phis && PlainCode(out[b].body)
  {
    hide Wf, Phase, Plain;
    PhaseNone(answer, blocks, next);
    out, next', modified := blocks, next, false;
    var i: nat := 0;
    while i < |out[b].body|
      invariant Phase(answer, blocks, next, out, next', modified) && |out| == |blocks|
      invariant out[b].phis == blocks[b].phis && i <= |out[b].body| && PlainCode(out[b].body[..i])
      decreases |out[b].body| - i
    {
      PhaseWf(answer, blocks, next, out, next', modified);
      var o, n, m, j := ExpandInstruction(answer, out, b, i, next');
      PhaseChain(answer, blocks, next, out, next', o, n, modified, m);
      out, next', modified, i := o, n, modified || m, j + 1;
    }
    assert out[b].body[..i] == out[b].body;
  }

  /** expandInstruction on the terminator of block b. */
  method ExpandTerminator(ghost answer: Trace -> nat, blocks: seq<Block>, b: nat, next: nat)
    returns (out: seq<Block>, next': nat, modified: bool)
    requires Wf(blocks, next) && b < |blocks| && PlainCode(blocks[b].body)
    ensures Phase(answer, blocks, next, out, next', modified) && |out| == |blocks|
    ensures out[b].phis == blocks[b].phis && PlainCode(out[b].body) && Plain(out[b].term.args)
  {
    hide Wf, Phase, Expand;
    PhaseNone(answer, blocks, next);
    out, next', modified := blocks, next, false;
    for k := 0 to |blocks[b].term.args|
      invariant Phase(answer, blocks, next, out, next', modified) && |out| == |blocks|
      invariant out[b].phis == blocks[b].phis && PlainCode(out[b].body) && |out[b].term.args| == |blocks[b].term.args|
      invariant forall j | 0 <= j < k :: !out[b].term.args[j].Expr?
    {
      if out[b].term.args[k].Expr? {
        PhaseEdit(answer, blocks, next, out, next', modified, InTerm(b, k));
        ExpandPlain(out[b].term.args[k], next');
        out, next' := Replace(out, InTerm(b, k), next');
        modified := true;
      }
    }
  }

  method ExpandBlock(ghost answer: Trace -> nat, blocks: seq<Block>, b: nat, next: nat)
    returns (out: seq<Block>, next': nat, modified: bool)
    requires Wf(blocks, next) && b < |blocks|
    ensures Phase(answer, blocks, next, out, next', modified) && |out| == |blocks|
    ensures PlainBlock(out[b])
  {
    hide Wf, Phase, PlainPhi, PlainCode, Plain;
    var o1, n1, m1 := ExpandPhis(answer, blocks, b, next);
    PhaseWf(answer, blocks, next, o1, n1, m1);
    var o2, n2, m2 := ExpandBody(answer, o1, b, n1);
    PhaseChain(answer, blocks, next, o1, n1, o2, n2, m1, m2);
    PhaseWf(answer, blocks, next, o2, n2, m1 || m2);
    var o3, n3, m3 := ExpandTerminator(answer, o2, b, n2);
    PhaseChain(answer, blocks, next, o2, n2, o3, n3, m1 || m2, m3);
    out, next', modified := o3, n3, m1 || m2 || m3;
  }

  // ----- The result -----

  /** Every run of the expanded function, stuck or not, is that of the function before, except that
      the latter is stopped at the end of every block for which some phi names a constant that traps. */
  ghost predicate Expanded(answer: Trace -> nat, A: seq<Block>, B: seq<Block>, bound: nat) {
    |A| == |B| &&
    forall env: Env, fuel: nat | forall n | n in env :: n < bound ::
      Run(answer, B, {}, |A|, 0, env, [], fuel) == Run(answer, A, Traps(A), |A|, 0, env, [], fuel)
  }

  lemma PlainExpanded(answer: Trace -> nat, A: seq<Block>, B: seq<Block>, bound: nat)
    requires SameRuns(answer, A, B, bound) && PlainFunction(B)
    ensures Expanded(answer, A, B, bound)
  {
    hide Run;
    NoTraps(B);
  }

  lemma NoTraps(blocks: seq<Block>)
    requires PlainFunction(blocks)
    ensures Traps(blocks) == {}
  {
    hide Eval;
    forall h: nat ensures !HoldsTrap(blocks, h) {
      forall b: nat, i: nat, k: nat ensures !TrapAt(blocks, b, i, k, h) {
        if b < |blocks| && i < |blocks[b].phis| {
          assert PlainBlock(blocks[b]) && PlainPhi(blocks[b].phis[i]);
        }
      }
    }
  }

  /** The pass over a function: no expression is left, every run is that of the function as it
      was, stopped at its trapping phi constants, and a change is reported exactly when there was
      something to expand; otherwise nothing changes. */
  method RunOnFunction(ghost answer: Trace -> nat, blocks: seq<Block>, next: nat)
    returns (out: seq<Block>, next': nat, modified: bool)
    requires Wf(blocks, next)
    ensures Expanded(answer, blocks, out, next) && Wf(out, next') && next <= next'
    ensures PlainFunction(out)
    ensures modified <==> !PlainFunction(blocks)
    ensures !modified ==> out == blocks
  {
    hide Wf, Phase, SameRuns, PlainBlock, Expanded, Traps;
    PhaseNone(answer, blocks, next);
    out, next', modified := blocks, next, false;
    for b := 0 to |blocks|
      invariant Phase(answer, blocks, next, out, next', modified) && |out| == |blocks|
      invariant forall j | 0 <= j < b :: PlainBlock(out[j])
    {
      PhaseWf(answer, blocks, next, out, next', modified);
      var o, n, m := ExpandBlock(answer, out, b, next');
      PhaseKeepsPlain(answer, out, next', o, n, m);
      PhaseChain(answer, blocks, next, out, next', o, n, modified, m);
      out, next', modified := o, n, modified || m;
    }
    PhaseResult(answer, blocks, next, out, next', modified);
    PlainExpanded(answer, blocks, out, next);
  }

  lemma PhaseResult(answer: Trace -> nat, A: seq<Block>, n0: nat, B: seq<Block>, n1: nat, modified: bool)
    requires Phase(answer, A, n0, B, n1, modified)
    ensures SameRuns(answer, A, B, n0) && Wf(B, n1) && n0 <= n1 && (if modified then !PlainFunction(A) else B == A)
  {
    hide Wf, SameRuns, PlainFunction, PlainBlock;
  }

  // ----- When no run is lost -----

  /** The run executes one of the blocks in `stops` to its end. */
  predicate Visits(answer: Trace -> nat, blocks: seq<Block>, stops: set<nat>, from: nat, b: nat, env: Env, trace: Trace, fuel: nat)
    decreases fuel
  {
    fuel > 0 && b < |blocks| && PhiValues(env, blocks[b].phis, from).Some? &&
    var r := RunBody(answer, AssignPhis(env, blocks[b].phis, PhiValues(env, blocks[b].phis, from).value), trace, blocks[b].body);
    r.Some? && EvalAll(r.value.0, blocks[b].term.args).Some? &&
    (b in stops ||
     (blocks[b].term.succs != [] &&
      Visits(answer, blocks, stops, b, Pick(EvalAll(r.value.0, blocks[b].term.args).value, blocks[b].term.succs), r.value.0,
             r.value.1, fuel - 1)))
  }

  /** Stopping matters exactly when such a block is executed. */
  lemma {:induction false} StopsExactly(answer: Trace -> nat, blocks: seq<Block>, stops: set<nat>, from: nat, b: nat, env: Env,
                                        trace: Trace, fuel: nat)
    ensures Run(answer, blocks, stops, from, b, env, trace, fuel)
            == if Visits(answer, blocks, stops, from, b, env, trace, fuel) then None else Run(answer, blocks, {}, from, b, env, trace, fuel)
    decreases fuel
  {
    hide RunBody, EvalAll, PhiValues, AssignPhis, Pick;
    if fuel > 0 && b < |blocks| && PhiValues(env, blocks[b].phis, from).Some? {
      var r := RunBody(answer, AssignPhis(env, blocks[b].phis, PhiValues(env, blocks[b].phis, from).value), trace, blocks[b].body);
      if r.Some? && EvalAll(r.value.0, blocks[b].term.args).Some? && b !in stops && blocks[b].term.succs != [] {
        StopsExactly(answer, blocks, stops, b, Pick(EvalAll(r.value.0, blocks[b].term.args).value, blocks[b].term.succs), r.value.0,
                     r.value.1, fuel - 1);
      }
    }
  }

  /** A run that never gets stuck: it ends, or goes on for ever. */
  ghost predicate NeverStuck(answer: Trace -> nat, blocks: seq<Block>, env: Env) {
    forall fuel: nat :: Run(answer, blocks, {}, |blocks|, 0, env, [], fuel).Some?
  }

  /** Every run of A that never gets stuck is unchanged in B. */
  ghost predicate Preserved(answer: Trace -> nat, A: seq<Block>, B: seq<Block>, bound: nat) {
    forall env: Env | (forall n | n in env :: n < bound) && NeverStuck(answer, A, env) ::
      forall fuel: nat :: Run(answer, B, {}, |A|, 0, env, [], fuel) == Run(answer, A, {}, |A|, 0, env, [], fuel)
  }

  /** No run that never gets stuck reaches the end of a block for which a phi names a trapping
      constant; with LLVM's rule that a phi is read on entry, it would have to leave it for a block
      that does not read that constant. */
  ghost predicate TrapsAvoided(answer: Trace -> nat, A: seq<Block>, bound: nat) {
    forall env: Env | (forall n | n in env :: n < bound) && NeverStuck(answer, A, env) ::
      forall fuel: nat :: !Visits(answer, A, Traps(A), |A|, 0, env, [], fuel)
  }

  /** The pass preserves every run that never gets stuck if and only if none of them reaches the end
      of a block for which some phi names a trapping constant; one that does, gets stuck there. */
  lemma PassExact(answer: Trace -> nat, A: seq<Block>, B: seq<Block>, bound: nat)
    requires Expanded(answer, A, B, bound)
    ensures Preserved(answer, A, B, bound) <==> TrapsAvoided(answer, A, bound)
  {
    hide Run, Visits, Traps;
    forall env: Env, fuel: nat | forall n | n in env :: n < bound
      ensures Run(answer, B, {}, |A|, 0, env, [], fuel)
              == if Visits(answer, A, Traps(A), |A|, 0, env, [], fuel) then None else Run(answer, A, {}, |A|, 0, env, [], fuel)
    {
      StopsExactly(answer, A, Traps(A), |A|, 0, env, [], fuel);
    }
    if Preserved(answer, A, B, bound) {
      forall env: Env, fuel: nat | (forall n | n in env :: n < bound) && NeverStuck(answer, A, env)
        ensures !Visits(answer, A, Traps(A), |A|, 0, env, [], fuel) {
        assert Run(answer, B, {}, |A|, 0, env, [], fuel) == Run(answer, A, {}, |A|, 0, env, [], fuel);
        assert Run(answer, A, {}, |A|, 0, env, [], fuel).Some?;
      }
    }
  }

  /** Every edge out of a block leads to a block of which some phi reads, on that edge, a constant
      without a value. */
  ghost predicate AllEdgesTrap(blocks: seq<Block>, h: nat)
    requires h < |blocks|
  {
    blocks[h].term.succs != [] && forall to | to in blocks[h].term.succs :: EdgeTraps(blocks, h, to)
  }

  ghost predicate EdgeTraps(blocks: seq<Block>, h: nat, to: nat) {
    to < |blocks| && exists i :: 0 <= i < |blocks[to].phis| && TrapsOn(blocks[to].phis[i], h)
  }

  predicate TrapsOn(phi: Phi, from: nat) {
    IncomingFrom(phi.incoming, from).Some? && Constant(IncomingFrom(phi.incoming, from).value)
    && Eval(map[], IncomingFrom(phi.incoming, from).value).None?
  }

  lemma {:induction false} PhisStuck(env: Env, phis: seq<Phi>, from: nat, i: nat)
    requires i < |phis| && TrapsOn(phis[i], from)
    ensures PhiValues(env, phis, from).None?
  {
    hide Eval, IncomingFrom, Constant;
    if i == 0 {
      ConstantEval(IncomingFrom(phis[0].incoming, from).value, env, map[]);
    } else {
      PhisStuck(env, phis[1..], from, i - 1);
    }
  }

  /** A static condition: if from each of those blocks every edge reads such a constant, then only
      runs that get stuck reach them, and the pass preserves all others. */
  lemma OwnEdgesOnly(answer: Trace -> nat, A: seq<Block>, B: seq<Block>, bound: nat)
    requires Expanded(answer, A, B, bound) && forall h | h in Traps(A) :: AllEdgesTrap(A, h)
    ensures Preserved(answer, A, B, bound)
  {
    hide Run, Visits, HoldsTrap, AllEdgesTrap, Expanded;
    forall env: Env, fuel: nat | NeverStuck(answer, A, env)
      ensures !Visits(answer, A, Traps(A), |A|, 0, env, [], fuel) {
      if Visits(answer, A, Traps(A), |A|, 0, env, [], fuel) {
        VisitSticks(answer, A, Traps(A), |A|, 0, env, [], fuel);
      }
    }
    PassExact(answer, A, B, bound);
  }

  lemma {:induction false} VisitSticks(answer: Trace -> nat, blocks: seq<Block>, stops: set<nat>, from: nat, b: nat, env: Env,
                                       trace: Trace, fuel: nat)
    requires (forall h | h in stops :: h < |blocks| && AllEdgesTrap(blocks, h)) && Visits(answer, blocks, stops, from, b, env, trace, fuel)
    ensures Run(answer, blocks, {}, from, b, env, trace, fuel + 1).None?
    decreases fuel
  {
    hide RunBody, EvalAll, PhiValues, AssignPhis, Pick, TrapsOn;
    var r := RunBody(answer, AssignPhis(env, blocks[b].phis, PhiValues(env, blocks[b].phis, from).value), trace, blocks[b].body).value;
    var vals, succs := EvalAll(r.0, blocks[b].term.args).value, blocks[b].term.succs;
    if b in stops {
      PickIn(vals, succs);
      var to := Pick(vals, succs);
      assert EdgeTraps(blocks, b, to);
      var i :| 0 <= i < |blocks[to].phis| && TrapsOn(blocks[to].phis[i], b);
      PhisStuck(r.0, blocks[to].phis, b, i);
    } else {
      VisitSticks(answer, blocks, stops, b, Pick(vals, succs), r.0, r.1, fuel - 1);
    }
  }

  /** The phi's block is the only successor, and the phi's entries for one block agree, as LLVM demands. */
  ghost predicate OnlySuccessor(blocks: seq<Block>, b: nat, i: nat, k: nat, h: nat)
    requires TrapAt(blocks, b, i, k, h) && h < |blocks|
  {
    && blocks[h].term.succs != [] && (forall to | to in blocks[h].term.succs :: to == b)
    && IncomingFrom(blocks[b].phis[i].incoming, h) == Some(blocks[b].phis[i].incoming[k].1)
  }

  lemma OnlySuccessorTraps(blocks: seq<Block>, next: nat)
    requires Wf(blocks, next)
    requires forall b: nat, i: nat, k: nat, h: nat | TrapAt(blocks, b, i, k, h) && h < |blocks| :: OnlySuccessor(blocks, b, i, k, h)
    ensures forall h | h in Traps(blocks) :: AllEdgesTrap(blocks, h)
  {
    hide Eval;
    forall h | h in Traps(blocks) ensures AllEdgesTrap(blocks, h) {
      var b: nat, i: nat, k: nat :| TrapAt(blocks, b, i, k, h);
      assert OnlySuccessor(blocks, b, i, k, h);
      assert WfBlock(blocks[b], next) && WfPhi(blocks[b].phis[i], next);
      assert TrapsOn(blocks[b].phis[i], h);
      assert EdgeTraps(blocks, h, b);
    }
  }

  lemma PickIn(vals: seq<nat>, succs: seq<nat>)
    requires succs != []
    ensures Pick(vals, succs) in succs
  {
  }

  // ----- A run that is lost -----

  /** One divided by the address of a weak global that is missing. */
  const QUOTIENT := Expr(POp(UDiv, I32), [Number(1), Symbol(0, 0)])

  /** Block 0 always goes to block 2; block 1's phi names the quotient for the edge from block 0. */
  function Guarded(): seq<Block> {
    [Block([], [], Term([Number(1)], [1, 2])),
     Block([Phi(0, [(0, QUOTIENT)])], [], Term([Name(0)], [])),
     Block([], [], Term([Number(7)], []))]
  }

  /** The run of this function ends well before the pass and is stuck after it. */
  lemma TrapIsMoved(answer: Trace -> nat, out: seq<Block>, next: nat, fuel: nat)
    requires fuel >= 2 && Expanded(answer, Guarded(), out, next)
    ensures Wf(Guarded(), 1)
    ensures Run(answer, Guarded(), {}, 3, 0, map[], [], fuel) == Some(Outcome(true, [7], []))
    ensures Run(answer, out, {}, 3, 0, map[], [], fuel) == None
  {
    hide Traps;
    var blocks := Guarded();
    OneNumber(map[], 1);
    OneNumber(map[], 7);
    NoInst(answer, map[], []);
    assert Pick([1], [1, 2]) == 2;
    assert Run(answer, blocks, {}, 0, 2, map[], [], fuel - 1) == Some(Outcome(true, [7], []));
    GuardedTraps();
    GuardedWf();
    assert Run(answer, blocks, Traps(blocks), 3, 0, map[], [], fuel) == None;
  }

  lemma GuardedWf()
    ensures Wf(Guarded(), 1)
  {
    assert Constant(QUOTIENT.args[0]) && Constant(QUOTIENT.args[1]);
  }

  lemma GuardedTraps()
    ensures 0 in Traps(Guarded())
  {
    var args := QUOTIENT.args;
    OneSymbol(map[], 0, 0);
    assert args[1..] == [Symbol(0, 0)];
    var one, zero: seq<nat> := [1], [0];
    assert one + zero == [1, 0];
    assert EvalAll(map[], args) == Some(one + zero);
    assert TrapAt(Guarded(), 1, 0, 0, 0);
    assert HoldsTrap(Guarded(), 0);
  }

  lemma OneNumber(env: Env, x: nat)
    ensures EvalAll(env, [Number(x)]) == Some([x])
  {
    var none: seq<nat> := [];
    assert [Number(x)][1..] == [];
    assert EvalAll(env, []) == Some(none);
    assert [x] + none == [x];
  }

  lemma OneSymbol(env: Env, g: nat, a: nat)
    ensures EvalAll(env, [Symbol(g, a)]) == Some([a])
  {
    var none: seq<nat> := [];
    assert [Symbol(g, a)][1..] == [];
    assert EvalAll(env, []) == Some(none);
    assert [a] + none == [a];
  }
}
