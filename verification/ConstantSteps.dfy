/** A constant expression's operation is LLVM's: the instruction that the pass makes of it does to a
    state of the program's semantics what evaluating the expression says. */
module ConstantSteps {
  import opened IrOps
  import opened Words
  import opened Machine
  import opened ConstantExprs
  import Ir

  /** The instruction of a pure operation on operands of the program's syntax. */
  function Instruction(q: PureOp, args: seq<Ir.Value>, from: Type): Option<Ir.Inst> {
    match q
    case POp(op, ty) => if |args| == 2 then Some(Ir.Bin(op, ty, args[0], args[1])) else None
    case PCmp(pred, ty) => if |args| == 2 then Some(Ir.ICmp(pred, ty, args[0], args[1])) else None
    case PExt(sign, narrow, wide) => if |args| == 1 then Some(Ir.Ext(sign, narrow, wide, args[0])) else None
    case PCast(to) => if |args| == 1 then Some(Ir.Cast(from, to, args[0])) else None
    case PSelect => if |args| == 3 then Some(Ir.Select(from, args[0], args[1], args[2])) else None
  }

  /** The operands are of the operation's type. */
  predicate Typed(q: PureOp, vals: seq<nat>) {
    match q
    case POp(_, ty) => forall j | 0 <= j < |vals| :: vals[j] < ty.Modulus()
    case PCmp(_, ty) => forall j | 0 <= j < |vals| :: vals[j] < ty.Modulus()
    case PExt(_, narrow, wide) => narrow.Bits() < wide.Bits() && forall j | 0 <= j < |vals| :: vals[j] < narrow.Modulus()
    case _ => true
  }

  lemma PureIsStep(p: Ir.Program, f: Ir.Fn, i: nat, env: Ir.Env, stack: Ir.Stack, mem: Mem, q: PureOp, args: seq<Ir.Value>,
                   vals: seq<nat>, from: Type)
    requires i < |f.body| && Instruction(q, args, from) == Some(f.body[i])
    requires |args| == |vals| && (forall j | 0 <= j < |args| :: Ir.Read(p, env, args[j]) == Some(vals[j])) && Typed(q, vals)
    ensures Ir.StepLocal(p, false, f, i, env, stack, mem)
            == match EvalPure(q, vals)
               case None => None
               case Some(v) => Some((env[Ir.Res(i) := v], mem))
  {
    hide EvalBin, EvalCmp, EvalExt, Ir.Read;
  }
}
