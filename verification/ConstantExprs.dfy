/** The constant-expression pass: every constant expression used as an operand becomes
    instructions of its own; one used by a phi is computed at the end of the incoming block. */
module ConstantExprs {
  import opened Words
  import opened IrOps

  // ----- Syntax -----

  datatype PureOp = POp(op: BinOp, ty: Type) | PCmp(pred: Pred, ty: Type) | PExt(sign: bool, from: Type, to: Type) | PCast(to: Type)
    | PSelect

  /** Effect stands for loads, stores and calls: it reports its operands and receives an answer. */
  datatype Opcode = Pure(p: PureOp) | Effect(id: nat)

  /** A Symbol is a global's address: a constant that only the linker knows, zero if the global is
      weak and missing. */
  datatype Operand = Name(n: nat) | Number(x: nat) | Symbol(g: nat, address: nat) | Expr(p: PureOp, args: seq<Operand>)

  datatype Inst = Inst(res: nat, op: Opcode, args: seq<Operand>)

  datatype Phi = Phi(res: nat, incoming: seq<(nat, Operand)>)

  /** With no successors a terminator returns its operands; otherwise the first one chooses. */
  datatype Term = Term(args: seq<Operand>, succs: seq<nat>)

  datatype Block = Block(phis: seq<Phi>, body: seq<Inst>, term: Term)

  // ----- Semantics -----

  type Env = map<nat, nat>

  type Trace = seq<(nat, seq<nat>)>

  function EvalPure(p: PureOp, vals: seq<nat>): Option<nat> {
    match p
    case POp(op, ty) =>
      if |vals| == 2 && vals[0] < ty.Modulus() && vals[1] < ty.Modulus() then EvalBin(op, ty, vals[0], vals[1]) else None
    case PCmp(pred, ty) =>
      if |vals| == 2 && vals[0] < ty.Modulus() && vals[1] < ty.Modulus()
      then Some(if EvalCmp(pred, ty, vals[0], vals[1]) then 1 else 0) else None
    case PExt(sign, from, to) =>
      if |vals| == 1 && vals[0] < from.Modulus() && from.Bits() < to.Bits() then Some(EvalExt(sign, from, to, vals[0])) else None
    case PCast(to) => if |vals| == 1 then Some(vals[0] % to.Modulus()) else None
    case PSelect => if |vals| == 3 then Some(if vals[0] == 1 then vals[1] else vals[2]) else None
  }

  function Eval(env: Env, o: Operand): Option<nat>
    decreases o
  {
    match o
    case Name(n) => if n in env then Some(env[n]) else None
    case Number(x) => Some(x)
    case Symbol(_, a) => Some(a)
    case Expr(p, args) =>
      match EvalAll(env, args)
      case None => None
      case Some(vals) => EvalPure(p, vals)
  }

  function EvalAll(env: Env, os: seq<Operand>): (r: Option<seq<nat>>)
    ensures r.Some? ==> |r.value| == |os|
    decreases os
  {
    if os == [] then Some([]) else
    match (Eval(env, os[0]), EvalAll(env, os[1..]))
    case (Some(v), Some(vs)) => Some([v] + vs)
    case _ => None
  }

  /** An instruction; `answer` is the rest of the world, which may depend on everything before. */
  function RunInst(answer: Trace -> nat, env: Env, trace: Trace, i: Inst): Option<(Env, Trace)> {
    match EvalAll(env, i.args)
    case None => None
    case Some(vals) =>
      match i.op
      case Effect(id) => var t := trace + [(id, vals)]; Some((env[i.res := answer(t)], t))
      case Pure(p) =>
        match EvalPure(p, vals)
        case None => None
        case Some(v) => Some((env[i.res := v], trace))
  }

  function RunBody(answer: Trace -> nat, env: Env, trace: Trace, body: seq<Inst>): Option<(Env, Trace)>
    decreases |body|
  {
    if body == [] then Some((env, trace)) else
    match RunInst(answer, env, trace, body[0])
    case None => None
    case Some((e, t)) => RunBody(answer, e, t, body[1..])
  }

  function IncomingFrom(inc: seq<(nat, Operand)>, from: nat): Option<Operand> {
    if inc == [] then None else if inc[0].0 == from then Some(inc[0].1) else IncomingFrom(inc[1..], from)
  }

  /** The operand is that of the first entry that names the block, and there is none exactly when no
      entry names it. */
  lemma {:induction false} IncomingFromIs(inc: seq<(nat, Operand)>, from: nat, o: Operand)
    ensures IncomingFrom(inc, from) == Some(o)
            <==> exists j :: 0 <= j < |inc| && inc[j] == (from, o) && forall i | 0 <= i < j :: inc[i].0 != from
    ensures IncomingFrom(inc, from).None? <==> forall j | 0 <= j < |inc| :: inc[j].0 != from
  {
    if inc != [] && inc[0].0 != from {
      var tail := inc[1..];
      IncomingFromIs(tail, from, o);
      assert forall i | 0 < i < |inc| :: inc[i] == tail[i - 1];
      if j :| 0 <= j < |tail| && tail[j] == (from, o) && forall i | 0 <= i < j :: tail[i].0 != from {
        assert inc[j + 1] == (from, o);
      }
      if j :| 0 <= j < |inc| && inc[j] == (from, o) && forall i | 0 <= i < j :: inc[i].0 != from {
        assert tail[j - 1] == (from, o) && forall i | 0 <= i < j - 1 :: tail[i] == inc[i + 1];
      }
    } else if inc != [] {
      assert inc[0] == (from, inc[0].1);
    }
  }

  /** All phis read before any is assigned. */
  function PhiValues(env: Env, phis: seq<Phi>, from: nat): (r: Option<seq<nat>>)
    ensures r.Some? ==> |r.value| == |phis|
  {
    if phis == [] then Some([]) else
    match IncomingFrom(phis[0].incoming, from)
    case None => None
    case Some(o) =>
      match (Eval(env, o), PhiValues(env, phis[1..], from))
      case (Some(v), Some(vs)) => Some([v] + vs)
      case _ => None
  }

  function AssignPhis(env: Env, phis: seq<Phi>, vals: seq<nat>): Env
    requires |vals| == |phis|
  {
    if phis == [] then env else AssignPhis(env, phis[1..], vals[1..])[phis[0].res := vals[0]]
  }

  /** On entry every phi takes the value that its operand for the edge had before, and no other name
      changes. */
  lemma {:induction false} PhisMean(env: Env, phis: seq<Phi>, from: nat, vals: seq<nat>, j: nat)
    requires PhiValues(env, phis, from) == Some(vals) && forall i, k | 0 <= i < k < |phis| :: phis[i].res != phis[k].res
    requires j < |phis|
    ensures IncomingFrom(phis[j].incoming, from).Some? && j < |vals| == |phis|
    ensures Eval(env, IncomingFrom(phis[j].incoming, from).value) == Some(vals[j])
    ensures phis[j].res in AssignPhis(env, phis, vals) && AssignPhis(env, phis, vals)[phis[j].res] == vals[j]
  {
    hide Eval, IncomingFrom;
    if j > 0 {
      assert phis[1..][j - 1] == phis[j] && vals[1..][j - 1] == vals[j] && phis[0].res != phis[j].res;
      PhisMean(env, phis[1..], from, vals[1..], j - 1);
    }
  }

  lemma {:induction false} PhisOnly(env: Env, phis: seq<Phi>, vals: seq<nat>, n: nat)
    requires |phis| == |vals| && forall j | 0 <= j < |phis| :: phis[j].res != n
    ensures (n in AssignPhis(env, phis, vals) <==> n in env) && (n in env ==> AssignPhis(env, phis, vals)[n] == env[n])
  {
    if phis != [] {
      assert forall j | 0 < j < |phis| :: phis[j] == phis[1..][j - 1];
      PhisOnly(env, phis[1..], vals[1..], n);
    }
  }

  datatype Outcome = Outcome(done: bool, value: seq<nat>, trace: Trace)

  function Pick(vals: seq<nat>, succs: seq<nat>): nat
    requires succs != []
  {
    if vals == [] then succs[0] else succs[vals[0] % |succs|]
  }

  /** Up to `fuel` blocks of a run that enters block b from block `from`, and gets stuck at the end
      of the blocks in `stops`. */
  function Run(answer: Trace -> nat, blocks: seq<Block>, stops: set<nat>, from: nat, b: nat, env: Env, trace: Trace, fuel: nat)
    : Option<Outcome>
    decreases fuel
  {
    if fuel == 0 then Some(Outcome(false, [], trace))
    else if b >= |blocks| then None
    else
      match PhiValues(env, blocks[b].phis, from)
      case None => None
      case Some(phiVals) =>
        match RunBody(answer, AssignPhis(env, blocks[b].phis, phiVals), trace, blocks[b].body)
        case None => None
        case Some((e, t)) =>
          match EvalAll(e, blocks[b].term.args)
          case None => None
          case Some(vals) =>
            if b in stops then None
            else if blocks[b].term.succs == [] then Some(Outcome(true, vals, t))
            else Run(answer, blocks, stops, b, Pick(vals, blocks[b].term.succs), e, t, fuel - 1)
  }

  /** A store or call reports its operands' values and names the answer, and any successor can be
      chosen. */
  lemma EffectMeans(answer: Trace -> nat, env: Env, trace: Trace, res: nat, id: nat, args: seq<Operand>, succs: seq<nat>, k: nat)
    requires k < |succs|
    ensures RunInst(answer, env, trace, Inst(res, Effect(id), args))
            == match EvalAll(env, args)
               case None => None
               case Some(vals) => Some((env[res := answer(trace + [(id, vals)])], trace + [(id, vals)]))
    ensures Pick([k], succs) == succs[k] && Pick([], succs) == succs[0]
  {
    hide EvalAll;
  }

  // ----- Constants -----

  /** No names inside a constant expression. */
  predicate Constant(o: Operand)
    decreases o
  {
    match o
    case Name(_) => false
    case Number(_) => true
    case Symbol(_, _) => true
    case Expr(_, args) => forall i | 0 <= i < |args| :: Constant(args[i])
  }

  predicate WfOperand(o: Operand, below: nat) {
    match o
    case Name(n) => n < below
    case Number(_) => true
    case Symbol(_, _) => true
    case Expr(_, args) => forall i | 0 <= i < |args| :: Constant(args[i])
  }

  lemma {:induction false} ConstantEval(o: Operand, env: Env, env': Env)
    requires Constant(o)
    ensures Eval(env, o) == Eval(env', o)
    decreases o
  {
    hide EvalPure;
    if o.Expr? {
      ConstantEvalAll(o.args, env, env');
    }
  }

  lemma {:induction false} ConstantEvalAll(os: seq<Operand>, env: Env, env': Env)
    requires forall i | 0 <= i < |os| :: Constant(os[i])
    ensures EvalAll(env, os) == EvalAll(env', os)
    decreases os
  {
    if os != [] {
      ConstantEval(os[0], env, env');
      ConstantEvalAll(os[1..], env, env');
    }
  }

  // ----- Expansion -----

  /** expandConstantExpr: the new instructions, the operand that replaces the expression, and the
      next unused name. */
  function Expand(o: Operand, next: nat): (r: (seq<Inst>, Operand, nat))
    ensures next <= r.2 && !r.1.Expr?
    decreases o
  {
    match o
    case Expr(p, args) =>
      var (code, ops, n) := ExpandArgs(args, next);
      (code + [Inst(n, Pure(p), ops)], Name(n), n + 1)
    case _ => ([], o, next)
  }

  function ExpandArgs(args: seq<Operand>, next: nat): (r: (seq<Inst>, seq<Operand>, nat))
    ensures next <= r.2 && |r.1| == |args| && forall i | 0 <= i < |r.1| :: !r.1[i].Expr?
    decreases args
  {
    if args == [] then ([], [], next) else
    var (code, op, n) := Expand(args[0], next);
    var (codes, ops, n') := ExpandArgs(args[1..], n);
    (code + codes, [op] + ops, n')
  }

  predicate Plain(os: seq<Operand>) {
    forall i | 0 <= i < |os| :: !os[i].Expr?
  }

  predicate PlainCode(code: seq<Inst>) {
    forall i | 0 <= i < |code| :: Plain(code[i].args)
  }

  lemma {:induction false} ExpandPlain(o: Operand, next: nat)
    ensures PlainCode(Expand(o, next).0)
    decreases o
  {
    if o.Expr? {
      ExpandArgsPlain(o.args, next);
    }
  }

  lemma {:induction false} ExpandArgsPlain(args: seq<Operand>, next: nat)
    ensures PlainCode(ExpandArgs(args, next).0)
    decreases args
  {
    if args != [] {
      ExpandPlain(args[0], next);
      ExpandArgsPlain(args[1..], Expand(args[0], next).2);
    }
  }

  /** a and b agree on the names below a bound, and a has no others. */
  ghost predicate Agree(a: Env, b: Env, bound: nat) {
    && (forall n | n in a :: n < bound && n in b && b[n] == a[n])
    && forall n | n in b && n < bound :: n in a
  }

  /** Two partial runs of a body are both stuck, or have the same effects and agreeing names. */
  ghost predicate Match(a: Option<(Env, Trace)>, b: Option<(Env, Trace)>, bound: nat) {
    match (a, b)
    case (None, None) => true
    case (Some(x), Some(y)) => x.1 == y.1 && Agree(x.0, y.0, bound)
    case _ => false
  }

  /** b adds names from `next` on only. */
  ghost predicate Extends(a: Env, b: Env, next: nat) {
    && (forall n | n in a && n < next :: n in b && b[n] == a[n])
    && forall n | n in b && n < next :: n in a
  }

  lemma {:induction false} BodyAppend(answer: Trace -> nat, env: Env, trace: Trace, a: seq<Inst>, b: seq<Inst>)
    ensures RunBody(answer, env, trace, a + b)
            == match RunBody(answer, env, trace, a) case None => None case Some((e, t)) => RunBody(answer, e, t, b)
    decreases |a|
  {
    hide RunInst;
    if a == [] {
      assert a + b == b;
    } else {
      assert (a + b)[0] == a[0] && (a + b)[1..] == a[1..] + b;
      match RunInst(answer, env, trace, a[0]) {
        case None =>
        case Some((e, t)) => BodyAppend(answer, e, t, a[1..], b);
      }
    }
  }

  /** The expansion of a constant computes its value, without effects, into unused names. */
  lemma {:induction false} ExpandCorrect(answer: Trace -> nat, env: Env, trace: Trace, o: Operand, next: nat) returns (e: Env)
    requires Constant(o) && Eval(map[], o).Some?
    ensures RunBody(answer, env, trace, Expand(o, next).0) == Some((e, trace))
    ensures Extends(env, e, next) && Eval(e, Expand(o, next).1) == Eval(map[], o)
    ensures Expand(o, next).1.Name? ==> next <= Expand(o, next).1.n < Expand(o, next).2
    decreases o
  {
    hide EvalPure;
    if o.Expr? {
      var (code, ops, n) := ExpandArgs(o.args, next);
      var e1 := ExpandArgsCorrect(answer, env, trace, o.args, next);
      var v := Eval(map[], o).value;
      e := e1[n := v];
      var last := Inst(n, Pure(o.p), ops);
      OneInst(answer, e1, trace, last, e);
      BodyAppend(answer, env, trace, code, [last]);
    } else {
      e := env;
      NoInst(answer, env, trace);
    }
  }

  lemma NoInst(answer: Trace -> nat, env: Env, trace: Trace)
    ensures RunBody(answer, env, trace, []) == Some((env, trace))
  {
  }

  lemma OneInst(answer: Trace -> nat, env: Env, trace: Trace, i: Inst, e: Env)
    requires RunInst(answer, env, trace, i) == Some((e, trace))
    ensures RunBody(answer, env, trace, [i]) == Some((e, trace))
  {
    hide RunInst;
    assert [i][1..] == [];
    NoInst(answer, e, trace);
  }

  lemma {:induction false} ExpandArgsCorrect(answer: Trace -> nat, env: Env, trace: Trace, args: seq<Operand>, next: nat) returns (e: Env)
    requires (forall i | 0 <= i < |args| :: Constant(args[i])) && EvalAll(map[], args).Some?
    ensures RunBody(answer, env, trace, ExpandArgs(args, next).0) == Some((e, trace))
    ensures Extends(env, e, next) && EvalAll(e, ExpandArgs(args, next).1) == EvalAll(map[], args)
    decreases args
  {
    hide EvalPure;
    if args == [] {
      e := env;
    } else {
      var (code, op, n) := Expand(args[0], next);
      var (codes, ops, n') := ExpandArgs(args[1..], n);
      var e1 := ExpandCorrect(answer, env, trace, args[0], next);
      e := ExpandArgsCorrect(answer, e1, trace, args[1..], n);
      BodyAppend(answer, env, trace, code, codes);
      StillThere(e1, e, op, n);
      assert ([op] + ops)[1..] == ops;
    }
  }

  lemma {:induction false} EvalAllTraps(env: Env, os: seq<Operand>, k: nat)
    requires k < |os| && Eval(env, os[k]).None?
    ensures EvalAll(env, os).None?
  {
    hide Eval;
    if k > 0 {
      EvalAllTraps(env, os[1..], k - 1);
    }
  }

  /** The expansion of a constant without a value gets stuck. */
  lemma {:induction false} ExpandTraps(answer: Trace -> nat, env: Env, trace: Trace, o: Operand, next: nat)
    requires Constant(o) && Eval(map[], o).None?
    ensures RunBody(answer, env, trace, Expand(o, next).0) == None
    decreases o
  {
    hide EvalPure, RunInst, RunBody;
    var (code, ops, n) := ExpandArgs(o.args, next);
    var last := Inst(n, Pure(o.p), ops);
    BodyAppend(answer, env, trace, code, [last]);
    if EvalAll(map[], o.args).None? {
      ExpandArgsTraps(answer, env, trace, o.args, next);
    } else {
      var e := ExpandArgsCorrect(answer, env, trace, o.args, next);
      InstTraps(answer, e, trace, last);
    }
  }

  lemma InstTraps(answer: Trace -> nat, env: Env, trace: Trace, i: Inst)
    requires i.op.Pure? && EvalAll(env, i.args).Some? && EvalPure(i.op.p, EvalAll(env, i.args).value).None?
    ensures RunBody(answer, env, trace, [i]) == None
  {
    hide EvalPure;
  }

  lemma {:induction false} ExpandArgsTraps(answer: Trace -> nat, env: Env, trace: Trace, args: seq<Operand>, next: nat)
    requires (forall i | 0 <= i < |args| :: Constant(args[i])) && EvalAll(map[], args).None?
    ensures RunBody(answer, env, trace, ExpandArgs(args, next).0) == None
    decreases args
  {
    hide EvalPure, RunBody;
    var (code, op, n) := Expand(args[0], next);
    var (codes, ops, n') := ExpandArgs(args[1..], n);
    BodyAppend(answer, env, trace, code, codes);
    if Eval(map[], args[0]).None? {
      ExpandTraps(answer, env, trace, args[0], next);
    } else {
      var e := ExpandCorrect(answer, env, trace, args[0], next);
      ExpandArgsTraps(answer, e, trace, args[1..], n);
    }
  }

  lemma StillThere(a: Env, b: Env, o: Operand, next: nat)
    requires Extends(a, b, next) && !o.Expr? && (o.Name? ==> o.n < next) && Eval(a, o).Some?
    ensures Eval(b, o) == Eval(a, o)
  {
  }

  // ----- One replacement -----

  predicate WfInst(i: Inst, below: nat) {
    i.res < below && forall j | 0 <= j < |i.args| :: WfOperand(i.args[j], below)
  }

  predicate WfPhi(p: Phi, below: nat) {
    p.res < below && forall j | 0 <= j < |p.incoming| :: WfOperand(p.incoming[j].1, below)
  }

  predicate WfBlock(x: Block, below: nat) {
    && (forall i | 0 <= i < |x.phis| :: WfPhi(x.phis[i], below))
    && (forall i | 0 <= i < |x.body| :: WfInst(x.body[i], below))
    && (forall i | 0 <= i < |x.term.args| :: WfOperand(x.term.args[i], below))
  }

  /** All names are below a bound, expressions are constants, incoming blocks exist. */
  predicate Wf(blocks: seq<Block>, below: nat) {
    && (forall b | 0 <= b < |blocks| :: WfBlock(blocks[b], below))
    && forall b, i, k | 0 <= b < |blocks| && 0 <= i < |blocks[b].phis| && 0 <= k < |blocks[b].phis[i].incoming| ::
         blocks[b].phis[i].incoming[k].0 < |blocks|
  }

  /** Where an expression occurs: operand k of an instruction, of a terminator, or of a phi. */
  datatype Edit = InInst(b: nat, i: nat, k: nat) | InTerm(b: nat, k: nat) | InPhi(b: nat, i: nat, k: nat)

  predicate EditOk(blocks: seq<Block>, e: Edit) {
    e.b < |blocks| &&
    match e
    case InInst(b, i, k) => i < |blocks[b].body| && k < |blocks[b].body[i].args| && blocks[b].body[i].args[k].Expr?
    case InTerm(b, k) => k < |blocks[b].term.args| && blocks[b].term.args[k].Expr?
    case InPhi(b, i, k) =>
      i < |blocks[b].phis| && k < |blocks[b].phis[i].incoming| && blocks[b].phis[i].incoming[k].1.Expr?
      && blocks[b].phis[i].incoming[k].0 < |blocks|
  }

  function Edited(blocks: seq<Block>, e: Edit): Operand
    requires EditOk(blocks, e)
  {
    match e
    case InInst(b, i, k) => blocks[b].body[i].args[k]
    case InTerm(b, k) => blocks[b].term.args[k]
    case InPhi(b, i, k) => blocks[b].phis[i].incoming[k].1
  }

  /** The block that receives the new instructions: for a phi, the incoming block. */
  function Holder(blocks: seq<Block>, e: Edit): nat
    requires EditOk(blocks, e)
  {
    match e
    case InPhi(b, i, k) => blocks[b].phis[i].incoming[k].0
    case _ => e.b
  }

  function Append(x: Block, code: seq<Inst>): Block {
    x.(body := x.body + code)
  }

  function SetPhi(x: Block, i: nat, k: nat, o: Operand): Block
    requires i < |x.phis| && k < |x.phis[i].incoming|
  {
    var inc := x.phis[i].incoming;
    x.(phis := x.phis[i := x.phis[i].(incoming := inc[k := (inc[k].0, o)])])
  }

  function SetInst(x: Block, i: nat, k: nat, code: seq<Inst>, o: Operand): Block
    requires i < |x.body| && k < |x.body[i].args|
  {
    x.(body := x.body[..i] + code + [x.body[i].(args := x.body[i].args[k := o])] + x.body[i + 1..])
  }

  function SetTerm(x: Block, k: nat, code: seq<Inst>, o: Operand): Block
    requires k < |x.term.args|
  {
    Append(x, code).(term := x.term.(args := x.term.args[k := o]))
  }

  /** The function after one replacement; new names start at `next`. */
  function Apply(blocks: seq<Block>, e: Edit, next: nat): (r: seq<Block>)
    requires EditOk(blocks, e)
    ensures |r| == |blocks|
  {
    var (code, o, _) := Expand(Edited(blocks, e), next);
    match e
    case InInst(b, i, k) => blocks[b := SetInst(blocks[b], i, k, code, o)]
    case InTerm(b, k) => blocks[b := SetTerm(blocks[b], k, code, o)]
    case InPhi(b, i, k) =>
      var h := Holder(blocks, e);
      var held := blocks[h := Append(blocks[h], code)];
      held[b := SetPhi(held[b], i, k, o)]
  }

  // ----- A replacement preserves every run -----

  lemma EvalAgree(a: Env, b: Env, o: Operand, bound: nat)
    requires Agree(a, b, bound) && WfOperand(o, bound)
    ensures Eval(b, o) == Eval(a, o)
  {
    if o.Expr? {
      ConstantEval(o, a, b);
    }
  }

  lemma {:induction false} EvalAllAgree(a: Env, b: Env, os: seq<Operand>, bound: nat)
    requires Agree(a, b, bound) && (forall i | 0 <= i < |os| :: WfOperand(os[i], bound))
    ensures EvalAll(b, os) == EvalAll(a, os)
  {
    hide WfOperand, Agree, Eval;
    if os != [] {
      EvalAgree(a, b, os[0], bound);
      EvalAllAgree(a, b, os[1..], bound);
    }
  }

  lemma InstAgree(answer: Trace -> nat, a: Env, b: Env, trace: Trace, i: Inst, bound: nat)
    requires Agree(a, b, bound) && WfInst(i, bound)
    ensures Match(RunInst(answer, a, trace, i), RunInst(answer, b, trace, i), bound)
  {
    hide EvalAll, EvalPure, WfOperand;
    EvalAllAgree(a, b, i.args, bound);
  }

  lemma {:induction false} BodyAgree(answer: Trace -> nat, a: Env, b: Env, trace: Trace, body: seq<Inst>, bound: nat)
    requires Agree(a, b, bound) && (forall i | 0 <= i < |body| :: WfInst(body[i], bound))
    ensures Match(RunBody(answer, a, trace, body), RunBody(answer, b, trace, body), bound)
    decreases |body|
  {
    hide RunInst, WfInst, Agree;
    if body != [] {
      InstAgree(answer, a, b, trace, body[0], bound);
      match (RunInst(answer, a, trace, body[0]), RunInst(answer, b, trace, body[0])) {
        case (Some(x), Some(y)) => BodyAgree(answer, x.0, y.0, x.1, body[1..], bound);
        case _ =>
      }
    }
  }

  lemma ExtendsAgree(a: Env, b: Env, c: Env, next: nat)
    requires Agree(a, b, next) && Extends(b, c, next)
    ensures Agree(a, c, next)
  {
  }

  /** A body with an expansion appended gets stuck if the constant has no value, and otherwise
      additionally leaves that value in the operand that stands for it. */
  lemma BodyAppended(answer: Trace -> nat, a: Env, b: Env, trace: Trace, body: seq<Inst>, o: Operand, next: nat)
    requires Agree(a, b, next) && (forall i | 0 <= i < |body| :: WfInst(body[i], next)) && Constant(o)
    ensures var r := RunBody(answer, b, trace, body + Expand(o, next).0);
      && (Eval(map[], o).None? ==> r == None)
      && (Eval(map[], o).Some? ==>
            Match(RunBody(answer, a, trace, body), r, next) && (r.Some? ==> Eval(r.value.0, Expand(o, next).1) == Eval(map[], o)))
  {
    hide WfInst, Agree, Extends, Expand, Eval, RunBody, Constant;
    BodyAgree(answer, a, b, trace, body, next);
    BodyAppend(answer, b, trace, body, Expand(o, next).0);
    match (RunBody(answer, a, trace, body), RunBody(answer, b, trace, body)) {
      case (Some(x), Some(y)) =>
        if Eval(map[], o).None? {
          ExpandTraps(answer, y.0, y.1, o, next);
        } else {
          var e := ExpandCorrect(answer, y.0, y.1, o, next);
          ExtendsAgree(x.0, y.0, e, next);
        }
      case _ =>
    }
  }

  /** An operand list with one expression replaced by an operand of the same value. */
  lemma {:induction false} EvalAllReplaced(a: Env, b: Env, os: seq<Operand>, k: nat, o: Operand, bound: nat)
    requires Agree(a, b, bound) && (forall i | 0 <= i < |os| :: WfOperand(os[i], bound))
    requires k < |os| && Eval(b, o) == Eval(a, os[k])
    ensures EvalAll(b, os[k := o]) == EvalAll(a, os)
  {
    hide WfOperand, Agree, Eval;
    if k == 0 {
      EvalAllAgree(a, b, os[1..], bound);
      assert os[k := o][1..] == os[1..];
    } else {
      EvalAgree(a, b, os[0], bound);
      EvalAllReplaced(a, b, os[1..], k - 1, o, bound);
      assert os[k := o][1..] == os[1..][k - 1 := o];
    }
  }

  lemma ExprIsConstant(o: Operand, bound: nat, env: Env)
    requires WfOperand(o, bound) && o.Expr?
    ensures Constant(o) && Eval(env, o) == Eval(map[], o)
  {
    ConstantEval(o, env, map[]);
  }

  lemma InstReplaced(answer: Trace -> nat, a: Env, b: Env, trace: Trace, i: Inst, k: nat, o: Operand, bound: nat)
    requires Agree(a, b, bound) && WfInst(i, bound)
    requires k < |i.args| && Eval(b, o) == Eval(a, i.args[k])
    ensures Match(RunInst(answer, a, trace, i), RunInst(answer, b, trace, i.(args := i.args[k := o])), bound)
  {
    hide EvalAll, EvalPure, WfOperand, Eval;
    EvalAllReplaced(a, b, i.args, k, o, bound);
  }

  lemma InstStuck(answer: Trace -> nat, env: Env, trace: Trace, i: Inst, k: nat)
    requires k < |i.args| && Eval(env, i.args[k]).None?
    ensures RunInst(answer, env, trace, i) == None
  {
    hide Eval, EvalPure;
    EvalAllTraps(env, i.args, k);
  }

  /** A body with an expansion inserted before the instruction that uses it: where the constant has
      no value, both are stuck at that instruction. */
  lemma BodyInserted(answer: Trace -> nat, a: Env, b: Env, trace: Trace, x: Block, i: nat, k: nat, next: nat)
    requires Agree(a, b, next) && WfBlock(x, next)
    requires i < |x.body| && k < |x.body[i].args| && x.body[i].args[k].Expr?
    ensures var (code, o, _) := Expand(x.body[i].args[k], next);
      Match(RunBody(answer, a, trace, x.body), RunBody(answer, b, trace, SetInst(x, i, k, code, o).body), next)
  {
    hide WfInst, WfPhi, WfOperand, Agree, Expand, Eval, RunBody, RunInst, Constant;
    var pre, inst, post := x.body[..i], x.body[i], x.body[i + 1..];
    var (code, o, _) := Expand(inst.args[k], next);
    var inst' := inst.(args := inst.args[k := o]);
    assert x.body == pre + ([inst] + post);
    BodyAppend(answer, a, trace, pre, [inst] + post);
    OperandWf(inst, k, next);
    ExprIsConstant(inst.args[k], next, a);
    BodyAppended(answer, a, b, trace, pre, inst.args[k], next);
    BodyAppend(answer, b, trace, pre + code, [inst'] + post);
    assert (pre + code) + ([inst'] + post) == SetInst(x, i, k, code, o).body;
    match (RunBody(answer, a, trace, pre), RunBody(answer, b, trace, pre + code)) {
      case (Some(y), _) =>
        ExprIsConstant(inst.args[k], next, y.0);
        RunHead(answer, y.0, y.1, inst, post);
        if Eval(map[], inst.args[k]).None? {
          InstStuck(answer, y.0, y.1, inst, k);
        } else {
          RestInserted(answer, y.0, RunBody(answer, b, trace, pre + code).value.0, y.1, inst, k, o, post, next);
        }
      case _ =>
    }
  }

  lemma RestInserted(answer: Trace -> nat, a: Env, b: Env, trace: Trace, inst: Inst, k: nat, o: Operand, post: seq<Inst>, next: nat)
    requires Agree(a, b, next) && WfInst(inst, next) && forall i | 0 <= i < |post| :: WfInst(post[i], next)
    requires k < |inst.args| && Eval(b, o) == Eval(a, inst.args[k])
    ensures Match(RunBody(answer, a, trace, [inst] + post), RunBody(answer, b, trace, [inst.(args := inst.args[k := o])] + post), next)
  {
    hide WfInst, Agree, Eval, RunBody, RunInst;
    var inst' := inst.(args := inst.args[k := o]);
    RunHead(answer, a, trace, inst, post);
    RunHead(answer, b, trace, inst', post);
    InstReplaced(answer, a, b, trace, inst, k, o, next);
    match (RunInst(answer, a, trace, inst), RunInst(answer, b, trace, inst')) {
      case (Some(x), Some(y)) => BodyAgree(answer, x.0, y.0, x.1, post, next);
      case _ =>
    }
  }

  lemma OperandWf(i: Inst, k: nat, below: nat)
    requires WfInst(i, below) && k < |i.args|
    ensures WfOperand(i.args[k], below)
  {
  }

  lemma RunHead(answer: Trace -> nat, env: Env, trace: Trace, i: Inst, rest: seq<Inst>)
    ensures RunBody(answer, env, trace, [i] + rest)
            == match RunInst(answer, env, trace, i) case None => None case Some((e, t)) => RunBody(answer, e, t, rest)
  {
    hide RunInst;
    assert ([i] + rest)[0] == i && ([i] + rest)[1..] == rest;
  }

  // ----- Phis -----

  lemma {:induction false} IncomingWf(inc: seq<(nat, Operand)>, from: nat, below: nat)
    requires (forall j | 0 <= j < |inc| :: WfOperand(inc[j].1, below)) && IncomingFrom(inc, from).Some?
    ensures WfOperand(IncomingFrom(inc, from).value, below)
  {
    hide WfOperand;
    if inc[0].0 != from {
      IncomingWf(inc[1..], from, below);
    }
  }

  lemma {:induction false} PhisAgree(a: Env, b: Env, phis: seq<Phi>, from: nat, bound: nat)
    requires Agree(a, b, bound) && (forall i | 0 <= i < |phis| :: WfPhi(phis[i], bound))
    ensures PhiValues(b, phis, from) == PhiValues(a, phis, from)
  {
    hide Agree, Eval, WfOperand, IncomingFrom;
    if phis != [] {
      if IncomingFrom(phis[0].incoming, from).Some? {
        IncomingWf(phis[0].incoming, from, bound);
        EvalAgree(a, b, IncomingFrom(phis[0].incoming, from).value, bound);
      }
      PhisAgree(a, b, phis[1..], from, bound);
    }
  }

  /** Replacing entry k by an operand that has its value on that entry's edge. */
  lemma {:induction false} IncomingReplaced(a: Env, b: Env, inc: seq<(nat, Operand)>, k: nat, o: Operand, from: nat, bound: nat)
    requires Agree(a, b, bound) && (forall j | 0 <= j < |inc| :: WfOperand(inc[j].1, bound)) && k < |inc|
    requires from == inc[k].0 ==> Eval(b, o) == Eval(a, inc[k].1)
    ensures var inc' := inc[k := (inc[k].0, o)];
      && (IncomingFrom(inc', from).Some? <==> IncomingFrom(inc, from).Some?)
      && (IncomingFrom(inc, from).Some? ==> Eval(b, IncomingFrom(inc', from).value) == Eval(a, IncomingFrom(inc, from).value))
  {
    hide Agree, Eval, WfOperand;
    var inc' := inc[k := (inc[k].0, o)];
    if inc[0].0 == from {
      if k > 0 {
        EvalAgree(a, b, inc[0].1, bound);
      }
    } else if k == 0 {
      assert inc'[1..] == inc[1..];
      if IncomingFrom(inc[1..], from).Some? {
        IncomingWf(inc[1..], from, bound);
        EvalAgree(a, b, IncomingFrom(inc[1..], from).value, bound);
      }
    } else {
      IncomingReplaced(a, b, inc[1..], k - 1, o, from, bound);
      assert inc'[1..] == inc[1..][k - 1 := (inc[k].0, o)];
    }
  }

  lemma {:induction false} PhisReplaced(a: Env, b: Env, phis: seq<Phi>, i: nat, k: nat, o: Operand, from: nat, bound: nat)
    requires Agree(a, b, bound) && (forall j | 0 <= j < |phis| :: WfPhi(phis[j], bound))
    requires i < |phis| && k < |phis[i].incoming|
    requires from == phis[i].incoming[k].0 ==> Eval(b, o) == Eval(a, phis[i].incoming[k].1)
    ensures var inc := phis[i].incoming;
      PhiValues(b, phis[i := phis[i].(incoming := inc[k := (inc[k].0, o)])], from) == PhiValues(a, phis, from)
  {
    hide Agree, Eval, WfOperand, IncomingFrom;
    var inc := phis[i].incoming;
    var phis' := phis[i := phis[i].(incoming := inc[k := (inc[k].0, o)])];
    if i == 0 {
      IncomingReplaced(a, b, inc, k, o, from, bound);
      PhisAgree(a, b, phis[1..], from, bound);
      assert phis'[1..] == phis[1..];
    } else {
      var first := phis[0].incoming;
      if IncomingFrom(first, from).Some? {
        IncomingWf(first, from, bound);
        EvalAgree(a, b, IncomingFrom(first, from).value, bound);
      }
      PhisReplaced(a, b, phis[1..], i - 1, k, o, from, bound);
      assert phis'[1..] == phis[1..][i - 1 := phis'[i]];
    }
  }

  lemma {:induction false} AssignAgree(a: Env, b: Env, phis: seq<Phi>, phis': seq<Phi>, vals: seq<nat>, bound: nat)
    requires Agree(a, b, bound) && |phis| == |phis'| == |vals|
    requires forall i | 0 <= i < |phis| :: WfPhi(phis[i], bound) && phis'[i].res == phis[i].res
    ensures Agree(AssignPhis(a, phis, vals), AssignPhis(b, phis', vals), bound)
  {
    hide WfOperand;
    if phis != [] {
      AssignAgree(a, b, phis[1..], phis'[1..], vals[1..], bound);
    }
  }

  // ----- Constants that trap -----

  /** Entry k of phi i of block b names block h and a constant without a value. */
  predicate TrapAt(blocks: seq<Block>, b: nat, i: nat, k: nat, h: nat) {
    && b < |blocks| && i < |blocks[b].phis| && k < |blocks[b].phis[i].incoming|
    && blocks[b].phis[i].incoming[k].0 == h && blocks[b].phis[i].incoming[k].1.Expr?
    && Eval(map[], blocks[b].phis[i].incoming[k].1).None?
  }

  ghost predicate HoldsTrap(blocks: seq<Block>, h: nat) {
    exists b: nat, i: nat, k: nat :: TrapAt(blocks, b, i, k, h)
  }

  /** The blocks for which some phi names a constant without a value. */
  ghost function Traps(blocks: seq<Block>): set<nat> {
    set h | 0 <= h < |blocks| && HoldsTrap(blocks, h)
  }

  lemma TrapsAfter(blocks: seq<Block>, e: Edit, next: nat)
    requires EditOk(blocks, e)
    ensures !e.InPhi? || Eval(map[], Edited(blocks, e)).Some? ==> Traps(Apply(blocks, e, next)) == Traps(blocks)
    ensures e.InPhi? && Eval(map[], Edited(blocks, e)).None? ==>
      Traps(blocks) == Traps(Apply(blocks, e, next)) + {Holder(blocks, e)}
  {
    hide Eval, Expand;
    var after := Apply(blocks, e, next);
    forall b: nat, i: nat, k: nat, h: nat ensures TrapAt(after, b, i, k, h) <==> TrapAt(blocks, b, i, k, h) && !(e.InPhi? && (b, i, k) == (e.b, e.i, e.k)) {
      TrapAfter(blocks, e, next, b, i, k, h);
    }
    forall h: nat ensures HoldsTrap(after, h) ==> HoldsTrap(blocks, h) {
      if HoldsTrap(after, h) {
        var b: nat, i: nat, k: nat :| TrapAt(after, b, i, k, h);
        assert TrapAt(blocks, b, i, k, h);
      }
    }
    forall h: nat | HoldsTrap(blocks, h)
      ensures HoldsTrap(after, h) || (e.InPhi? && Eval(map[], Edited(blocks, e)).None? && h == Holder(blocks, e)) {
      var b: nat, i: nat, k: nat :| TrapAt(blocks, b, i, k, h);
      if !(e.InPhi? && (b, i, k) == (e.b, e.i, e.k)) {
        assert TrapAt(after, b, i, k, h);
      }
    }
    if e.InPhi? && Eval(map[], Edited(blocks, e)).None? {
      assert TrapAt(blocks, e.b, e.i, e.k, Holder(blocks, e));
    }
  }

  lemma TrapAfter(blocks: seq<Block>, e: Edit, next: nat, b: nat, i: nat, k: nat, h: nat)
    requires EditOk(blocks, e)
    ensures TrapAt(Apply(blocks, e, next), b, i, k, h) <==> TrapAt(blocks, b, i, k, h) && !(e.InPhi? && (b, i, k) == (e.b, e.i, e.k))
  {
    hide Eval, Expand;
  }

  // ----- Whole runs -----

  /** What entering block b from `from` needs: on the edge of a replaced phi operand the new name
      already has the expression's value. */
  ghost predicate EdgeReady(blocks: seq<Block>, e: Edit, next: nat, from: nat, env: Env)
    requires EditOk(blocks, e)
  {
    e.InPhi? && from == Holder(blocks, e) ==> Eval(env, Expand(Edited(blocks, e), next).1) == Eval(map[], Edited(blocks, e))
  }

  lemma EditedConstant(blocks: seq<Block>, e: Edit, next: nat, env: Env)
    requires Wf(blocks, next) && EditOk(blocks, e)
    ensures Constant(Edited(blocks, e)) && Eval(env, Edited(blocks, e)) == Eval(map[], Edited(blocks, e))
  {
    hide Eval, Constant, WfOperand;
    assert WfBlock(blocks[e.b], next);
    match e {
      case InInst(b, i, k) => assert WfInst(blocks[b].body[i], next);
      case InTerm(b, k) =>
      case InPhi(b, i, k) => assert WfPhi(blocks[b].phis[i], next);
    }
    ExprIsConstant(Edited(blocks, e), next, env);
  }

  lemma PhisAfter(blocks: seq<Block>, e: Edit, next: nat, from: nat, b: nat, a: Env, env: Env)
    requires Wf(blocks, next) && EditOk(blocks, e) && b < |blocks| && Agree(a, env, next) && EdgeReady(blocks, e, next, from, env)
    ensures var phis' := Apply(blocks, e, next)[b].phis;
      && PhiValues(env, phis', from) == PhiValues(a, blocks[b].phis, from) && |phis'| == |blocks[b].phis|
      && (PhiValues(a, blocks[b].phis, from).Some? ==>
            Agree(AssignPhis(a, blocks[b].phis, PhiValues(a, blocks[b].phis, from).value),
                  AssignPhis(env, phis', PhiValues(a, blocks[b].phis, from).value), next))
  {
    hide Agree, Eval, WfOperand, WfInst, PhiValues, AssignPhis, Expand, Constant;
    var phis := blocks[b].phis;
    assert WfBlock(blocks[b], next);
    EditedConstant(blocks, e, next, a);
    if e.InPhi? && e.b == b {
      PhisReplaced(a, env, phis, e.i, e.k, Expand(Edited(blocks, e), next).1, from, next);
    } else {
      PhisAgree(a, env, phis, from, next);
    }
    if PhiValues(a, phis, from).Some? {
      AssignAgree(a, env, phis, Apply(blocks, e, next)[b].phis, PhiValues(a, phis, from).value, next);
    }
  }

  /** Whether block b receives an expansion at its end, and it traps. */
  predicate TrapsAtEnd(blocks: seq<Block>, e: Edit, b: nat)
    requires EditOk(blocks, e)
  {
    b == Holder(blocks, e) && !e.InInst? && Eval(map[], Edited(blocks, e)).None?
  }

  lemma BodyAfter(answer: Trace -> nat, blocks: seq<Block>, e: Edit, next: nat, b: nat, a: Env, env: Env, trace: Trace)
    requires Wf(blocks, next) && EditOk(blocks, e) && b < |blocks| && Agree(a, env, next)
    ensures var r := RunBody(answer, env, trace, Apply(blocks, e, next)[b].body);
      && (TrapsAtEnd(blocks, e, b) ==> r == None)
      && (!TrapsAtEnd(blocks, e, b) ==> Match(RunBody(answer, a, trace, blocks[b].body), r, next))
      && (b == Holder(blocks, e) && !e.InInst? && r.Some? ==>
            Eval(r.value.0, Expand(Edited(blocks, e), next).1) == Eval(map[], Edited(blocks, e)))
  {
    hide Agree, Eval, WfOperand, RunBody, Expand, WfInst, WfPhi, Constant;
    assert WfBlock(blocks[b], next);
    EditedConstant(blocks, e, next, a);
    if e.InInst? && e.b == b {
      BodyInserted(answer, a, env, trace, blocks[b], e.i, e.k, next);
    } else if b == Holder(blocks, e) && !e.InInst? {
      BodyAppended(answer, a, env, trace, blocks[b].body, Edited(blocks, e), next);
    } else {
      BodyAgree(answer, a, env, trace, blocks[b].body, next);
    }
  }

  lemma TermAfter(blocks: seq<Block>, e: Edit, next: nat, b: nat, a: Env, env: Env)
    requires Wf(blocks, next) && EditOk(blocks, e) && b < |blocks| && Agree(a, env, next)
    requires b == Holder(blocks, e) && !e.InInst? ==> Eval(env, Expand(Edited(blocks, e), next).1) == Eval(map[], Edited(blocks, e))
    ensures EvalAll(env, Apply(blocks, e, next)[b].term.args) == EvalAll(a, blocks[b].term.args)
    ensures Apply(blocks, e, next)[b].term.succs == blocks[b].term.succs
  {
    hide Agree, Eval, EvalAll, WfOperand, Expand, WfInst, WfPhi, Constant;
    assert WfBlock(blocks[b], next);
    EditedConstant(blocks, e, next, a);
    if e.InTerm? && e.b == b {
      EvalAllReplaced(a, env, blocks[b].term.args, e.k, Expand(Edited(blocks, e), next).1, next);
    } else {
      EvalAllAgree(a, env, blocks[b].term.args, next);
    }
  }

  /** A terminator that uses a constant without a value is stuck. */
  lemma TermStuck(blocks: seq<Block>, e: Edit, next: nat, env: Env)
    requires Wf(blocks, next) && EditOk(blocks, e) && e.InTerm? && Eval(map[], Edited(blocks, e)).None?
    ensures EvalAll(env, blocks[e.b].term.args).None?
  {
    hide Eval, EvalAll, WfBlock, Constant;
    EditedConstant(blocks, e, next, env);
    EvalAllTraps(env, blocks[e.b].term.args, e.k);
  }

  /** Every run, stuck or not, is block by block the same after a replacement, if both get stuck at
      the end of the blocks for which a phi still names a constant without a value. */
  lemma {:induction false} RunAfter(answer: Trace -> nat, blocks: seq<Block>, e: Edit, next: nat, from: nat, b: nat, a: Env, env: Env,
                                    trace: Trace, fuel: nat)
    requires Wf(blocks, next) && EditOk(blocks, e) && Agree(a, env, next) && EdgeReady(blocks, e, next, from, env)
    ensures Run(answer, Apply(blocks, e, next), Traps(Apply(blocks, e, next)), from, b, env, trace, fuel)
            == Run(answer, blocks, Traps(blocks), from, b, a, trace, fuel)
    decreases fuel
  {
    hide Agree, Eval, EvalAll, RunBody, Expand, Wf, Apply, PhiValues, AssignPhis, Pick, Constant, Traps;
    if fuel > 0 && b < |blocks| {
      var after := Apply(blocks, e, next);
      TrapsAfter(blocks, e, next);
      PhisAfter(blocks, e, next, from, b, a, env);
      if PhiValues(a, blocks[b].phis, from).Some? {
        var vals := PhiValues(a, blocks[b].phis, from).value;
        var a1, env1 := AssignPhis(a, blocks[b].phis, vals), AssignPhis(env, after[b].phis, vals);
        BodyAfter(answer, blocks, e, next, b, a1, env1, trace);
        if TrapsAtEnd(blocks, e, b) {
          if e.InTerm? && RunBody(answer, a1, trace, blocks[b].body).Some? {
            TermStuck(blocks, e, next, RunBody(answer, a1, trace, blocks[b].body).value.0);
          }
        } else {
          match (RunBody(answer, a1, trace, blocks[b].body), RunBody(answer, env1, trace, after[b].body)) {
            case (Some(x), Some(y)) => BlockEnds(answer, blocks, e, next, b, x.0, y.0, x.1, fuel);
            case _ =>
          }
        }
      }
    }
  }

  /** From the end of block b on. */
  lemma {:induction false} BlockEnds(answer: Trace -> nat, blocks: seq<Block>, e: Edit, next: nat, b: nat, a: Env, env: Env, trace: Trace, fuel: nat)
    requires Wf(blocks, next) && EditOk(blocks, e) && b < |blocks| && Agree(a, env, next) && fuel > 0 && !TrapsAtEnd(blocks, e, b)
    requires b == Holder(blocks, e) && !e.InInst? ==> Eval(env, Expand(Edited(blocks, e), next).1) == Eval(map[], Edited(blocks, e))
    ensures var after := Apply(blocks, e, next);
      && EvalAll(env, after[b].term.args) == EvalAll(a, blocks[b].term.args)
      && after[b].term.succs == blocks[b].term.succs && (b in Traps(after) <==> b in Traps(blocks))
    ensures EvalAll(a, blocks[b].term.args).Some? && blocks[b].term.succs != [] ==>
      var after, to := Apply(blocks, e, next), Pick(EvalAll(a, blocks[b].term.args).value, blocks[b].term.succs);
      Run(answer, after, Traps(after), b, to, env, trace, fuel - 1) == Run(answer, blocks, Traps(blocks), b, to, a, trace, fuel - 1)
    decreases fuel, 0
  {
    hide Agree, Eval, EvalAll, RunBody, Expand, Wf, Apply, PhiValues, AssignPhis, Pick, Constant, Traps;
    TermAfter(blocks, e, next, b, a, env);
    TrapsAfter(blocks, e, next);
    var term := blocks[b].term;
    if EvalAll(a, term.args).Some? && term.succs != [] {
      RunAfter(answer, blocks, e, next, b, Pick(EvalAll(a, term.args).value, term.succs), a, env, trace, fuel - 1);
    }
  }

  /** The runs of A and of B from their entries are the same, both stopping at their traps. */
  ghost predicate SameRuns(answer: Trace -> nat, A: seq<Block>, B: seq<Block>, bound: nat) {
    |A| == |B| &&
    forall env: Env, fuel: nat | forall n | n in env :: n < bound ::
      Run(answer, B, Traps(B), |A|, 0, env, [], fuel) == Run(answer, A, Traps(A), |A|, 0, env, [], fuel)
  }

  lemma SameChain(answer: Trace -> nat, A: seq<Block>, B: seq<Block>, C: seq<Block>, bound: nat, next: nat)
    requires SameRuns(answer, A, B, bound) && SameRuns(answer, B, C, next) && bound <= next
    ensures SameRuns(answer, A, C, bound)
  {
    hide Run, Traps;
    forall env: Env, fuel: nat | forall n | n in env :: n < bound
      ensures Run(answer, C, Traps(C), |A|, 0, env, [], fuel) == Run(answer, A, Traps(A), |A|, 0, env, [], fuel)
    {
      assert Run(answer, B, Traps(B), |A|, 0, env, [], fuel) == Run(answer, A, Traps(A), |A|, 0, env, [], fuel);
      assert forall n | n in env :: n < next;
    }
  }

  lemma EditSame(answer: Trace -> nat, blocks: seq<Block>, e: Edit, next: nat)
    requires Wf(blocks, next) && EditOk(blocks, e)
    ensures SameRuns(answer, blocks, Apply(blocks, e, next), next)
  {
    hide Run, Apply, Wf, Expand, Traps;
    forall env: Env, fuel: nat | forall n | n in env :: n < next
      ensures Run(answer, Apply(blocks, e, next), Traps(Apply(blocks, e, next)), |blocks|, 0, env, [], fuel)
              == Run(answer, blocks, Traps(blocks), |blocks|, 0, env, [], fuel)
    {
      HolderInside(blocks, e, next);
      RunAfter(answer, blocks, e, next, |blocks|, 0, env, env, [], fuel);
    }
  }

  lemma HolderInside(blocks: seq<Block>, e: Edit, next: nat)
    requires Wf(blocks, next) && EditOk(blocks, e)
    ensures Holder(blocks, e) < |blocks|
  {
  }

  // ----- A replacement keeps the function well formed -----

  lemma BlockMono(x: Block, a: nat, b: nat)
    requires WfBlock(x, a) && a <= b
    ensures WfBlock(x, b)
  {
    hide Eval, Constant;
  }

  /** Operands without expressions, over names below a bound. */
  predicate Simple(o: Operand, below: nat) {
    !o.Expr? && (o.Name? ==> o.n < below)
  }

  predicate SimpleInst(i: Inst, below: nat) {
    i.res < below && forall j | 0 <= j < |i.args| :: Simple(i.args[j], below)
  }

  predicate SimpleCode(code: seq<Inst>, below: nat) {
    forall i | 0 <= i < |code| :: SimpleInst(code[i], below)
  }

  lemma SimpleMono(code: seq<Inst>, a: nat, b: nat)
    requires SimpleCode(code, a) && a <= b
    ensures SimpleCode(code, b)
  {
  }

  lemma {:induction false} ExpandSimple(o: Operand, next: nat)
    requires Constant(o)
    ensures var (code, op, n) := Expand(o, next); Simple(op, n) && SimpleCode(code, n)
    decreases o
  {
    if o.Expr? {
      ExpandArgsSimple(o.args, next);
      var (code, ops, n) := ExpandArgs(o.args, next);
      SimpleMono(code, n, n + 1);
    }
  }

  lemma {:induction false} ExpandArgsSimple(args: seq<Operand>, next: nat)
    requires forall i | 0 <= i < |args| :: Constant(args[i])
    ensures var (code, ops, n) := ExpandArgs(args, next);
      SimpleCode(code, n) && forall i | 0 <= i < |ops| :: Simple(ops[i], n)
    decreases args
  {
    if args != [] {
      ExpandSimple(args[0], next);
      var (code, op, n) := Expand(args[0], next);
      ExpandArgsSimple(args[1..], n);
      SimpleMono(code, n, ExpandArgs(args[1..], n).2);
    }
  }

  lemma SimpleIsWf(code: seq<Inst>, below: nat)
    requires SimpleCode(code, below)
    ensures forall i | 0 <= i < |code| :: WfInst(code[i], below)
  {
  }

  lemma WfAppend(x: Block, next: nat, code: seq<Inst>, n: nat)
    requires WfBlock(x, next) && next <= n && SimpleCode(code, n)
    ensures WfBlock(Append(x, code), n)
  {
    hide WfInst, WfOperand;
    BlockMono(x, next, n);
    SimpleIsWf(code, n);
  }

  lemma WfSetPhi(x: Block, i: nat, k: nat, o: Operand, n: nat)
    requires WfBlock(x, n) && i < |x.phis| && k < |x.phis[i].incoming| && Simple(o, n)
    ensures WfBlock(SetPhi(x, i, k, o), n)
  {
    hide WfInst, Eval, Constant;
    assert WfPhi(x.phis[i], n);
  }

  lemma WfSetInst(x: Block, next: nat, i: nat, k: nat, code: seq<Inst>, o: Operand, n: nat)
    requires WfBlock(x, next) && next <= n && SimpleCode(code, n) && i < |x.body| && k < |x.body[i].args| && Simple(o, n)
    ensures WfBlock(SetInst(x, i, k, code, o), n)
  {
    hide WfPhi, Eval, Constant;
    BlockMono(x, next, n);
    SimpleIsWf(code, n);
    var y := SetInst(x, i, k, code, o);
    forall j | 0 <= j < |y.body| ensures WfInst(y.body[j], n) {
      if j < i {
        assert y.body[j] == x.body[j];
      } else if j < i + |code| {
        assert y.body[j] == code[j - i];
      } else if j == i + |code| {
        assert WfInst(x.body[i], n);
      } else {
        assert y.body[j] == x.body[j - |code|];
      }
    }
  }

  lemma WfSetTerm(x: Block, next: nat, k: nat, code: seq<Inst>, o: Operand, n: nat)
    requires WfBlock(x, next) && next <= n && SimpleCode(code, n) && k < |x.term.args| && Simple(o, n)
    ensures WfBlock(SetTerm(x, k, code, o), n)
  {
    hide WfInst, WfPhi, Eval, Constant;
    WfAppend(x, next, code, n);
  }

  lemma WfAfter(blocks: seq<Block>, e: Edit, next: nat)
    requires Wf(blocks, next) && EditOk(blocks, e)
    ensures Wf(Apply(blocks, e, next), Expand(Edited(blocks, e), next).2)
  {
    hide WfBlock, Expand, Constant, Eval;
    EditedConstant(blocks, e, next, map[]);
    ExpandSimple(Edited(blocks, e), next);
    var (code, o, n) := Expand(Edited(blocks, e), next);
    var after := Apply(blocks, e, next);
    forall b | 0 <= b < |blocks| ensures WfBlock(after[b], n) {
      BlockMono(blocks[b], next, n);
      match e {
        case InInst(_, i, k) =>
          if b == e.b {
            WfSetInst(blocks[b], next, i, k, code, o, n);
          }
        case InTerm(_, k) =>
          if b == e.b {
            WfSetTerm(blocks[b], next, k, code, o, n);
          }
        case InPhi(_, i, k) =>
          WfAppend(blocks[b], next, code, n);
          if b == e.b {
            WfSetPhi(blocks[b], i, k, o, n);
            WfSetPhi(Append(blocks[b], code), i, k, o, n);
          }
      }
    }
    IncomingKept(blocks, e, next);
  }

  lemma IncomingKept(blocks: seq<Block>, e: Edit, next: nat)
    requires Wf(blocks, next) && EditOk(blocks, e)
    ensures var after := Apply(blocks, e, next);
      forall b, i, k | 0 <= b < |after| && 0 <= i < |after[b].phis| && 0 <= k < |after[b].phis[i].incoming| ::
        after[b].phis[i].incoming[k].0 < |after|
  {
    hide WfBlock, Expand;
    var after := Apply(blocks, e, next);
    forall b, i, k | 0 <= b < |after| && 0 <= i < |after[b].phis| && 0 <= k < |after[b].phis[i].incoming|
      ensures after[b].phis[i].incoming[k].0 < |after|
    {
      assert |after[b].phis| == |blocks[b].phis|;
      assert after[b].phis[i].incoming[k].0 == blocks[b].phis[i].incoming[k].0;
    }
  }
}
