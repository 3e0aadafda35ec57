/** Branches and switches: the code transfers to the block the program chooses with that block's
    phis holding the values for the edge taken, although copies for other edges also run. */
module Control {
  import opened Words
  import opened IrOps
  import opened Machine
  import opened Encoding
  import opened Ir
  import opened Semantics
  import opened Codegen
  import opened Execution
  import opened Arithmetic
  import opened Relation
  import opened Frames
  import opened Placement
  import opened Operands
  import opened Results
  import opened MemoryOps
  import opened Copies

  /** The relation in the middle of an instruction's code, where only eip is not yet right. */
  ghost predicate Mid(w: World, fr: Frame, rest: Stack, prog: Mem, u: State) {
    && Linked(w) && fr.fn < |w.p.fns| && fr.pc < |w.p.fns[fr.fn].body| && u.State?
    && u.regs[EBP] == Fp(w.p, fr) && u.regs[ESP] == Sp(w.p, fr) && Saved(u) == w.hostSaved
    && StackOk(w, Cons(fr, rest), u.mem) && MemOk(w, Cons(fr, rest), prog, u.mem) && PoolOk(w, u.mem)
  }

  lemma MidFacts(w: World, fr: Frame, rest: Stack, prog: Mem, u: State)
    requires Mid(w, fr, rest, prog, u)
    ensures WfFn(w.p.fns[fr.fn]) && Geo(w.p.fns[fr.fn], u.regs[EBP]) && FrameOk(w, fr, u.mem) && WorldOk(w)
    ensures WfInst(w.p.fns[fr.fn], fr.pc)
    ensures EnvOk(w, w.p.fns[fr.fn], fr.env, u.mem, u.regs[EBP]) && BoolsOk(w, w.p.fns[fr.fn], fr.env, u.mem, u.regs[EBP])
    ensures Shaped(w.p) && fr.lo <= fr.hi
  {
    hide LabelsOk, CodeOk, MemOk, PoolOk, WorldOk, PlanOk, EnvOk, BoolsOk, ReturnAddr, WfInst, Pool;
    FrameGeo(w, Cons(fr, rest), u.mem);
  }

  /** Changing registers other than esp and ebp, flags and eip does not matter in the middle. */
  lemma MidRegs(w: World, fr: Frame, rest: Stack, prog: Mem, u: State, t: State)
    requires Mid(w, fr, rest, prog, u) && Kept(u, t)
    ensures Mid(w, fr, rest, prog, t)
  {
    hide Linked, StackOk, MemOk, PoolOk;
  }

  lemma MidIsRelated(w: World, fr: Frame, rest: Stack, prog: Mem, u: State)
    requires Mid(w, fr, rest, prog, u) && u.eip == Pc(w, fr.fn, fr.pc)
    ensures Related(w, Running(Cons(fr, rest), prog), u)
  {
    hide Linked, StackOk, MemOk, PoolOk, Pc;
  }

  lemma RelatedIsMid(w: World, s: IrState, m: State)
    requires Related(w, s, m)
    ensures Mid(w, s.stack.top, s.stack.rest, s.mem, m)
  {
    hide Linked, StackOk, MemOk, PoolOk, Pc;
  }

  // ----- Edges -----

  /** The sources of a well-formed edge. */
  lemma EdgeCopyOk(f: Fn, from: nat, to: nat) returns (src: seq<Value>)
    requires WfFn(f) && WfTarget(f, from, to)
    ensures EdgeSources(f, Phis(f, to), from) == Some(src) && CopyOk(f, Phis(f, to), src)
  {
    hide WfFn, WfValue;
    match EdgeSources(f, Phis(f, to), from) {
      case Some(x) => src := x;
    }
  }

  lemma PhiOwner(f: Fn, to: nat, j: nat)
    requires j < |Phis(f, to)|
    ensures Owner(f, Res(Phis(f, to)[j])) && Phis(f, to)[j] in Phis(f, to)
  {
  }

  /** The effect on memory that copies have at least: only the phis' slots change, and a phi that
      receives itself does not. */
  ghost predicate CopiedOver(f: Fn, from: nat, to: nat, src: seq<Value>, m: Mem, m': Mem, fp: int) {
    && EdgeSources(f, Phis(f, to), from) == Some(src)
    && (forall a | !InSlots(f, fp, Phis(f, to), a) :: Byte(m', a) == Byte(m, a))
    && forall j | 0 <= j < |src| && SelfCopy(f, Phis(f, to), src, j) ::
         SlotBits(f, m', fp, Res(Phis(f, to)[j])) == SlotBits(f, m, fp, Res(Phis(f, to)[j]))
  }

  /** Names that survive the clobbering of an edge's phis keep their bits. */
  lemma SurvivesCopies(w: World, f: Fn, m: Mem, m': Mem, fp: int, from: nat, to: nat, src: seq<Value>, r: Ref)
    requires WfFn(f) && WfRef(f, r) && !RootIn(f, r, Overwritten(f, from, to)) && CopiedOver(f, from, to, src, m, m', fp)
    ensures Raw(w, f, m', fp, Use(r)) == Raw(w, f, m, fp, Use(r))
  {
    hide WfFn, SlotOf, SlotBytes, SlotBits, InSlots;
    var ids := Phis(f, to);
    if j :| 0 <= j < |ids| && Root(f, Use(r)) == Use(Res(ids[j])) {
      PhiOwner(f, to, j);
      assert KeepsItself(f, ids[j], from);
      assert SelfCopy(f, ids, src, j);
    } else {
      forall j | 0 <= j < |ids| ensures Owner(f, Res(ids[j])) {
        PhiOwner(f, to, j);
      }
      RawOutside(w, f, m, m', fp, Use(r), TypeOf(f, Use(r)), ids);
    }
  }

  /** Copies stay inside the frame's result slots. */
  lemma CopiesOnlyTop(w: World, fr: Frame, m: Mem, m': Mem, to: nat)
    requires fr.fn < |w.p.fns|
    requires forall a | !InSlots(w.p.fns[fr.fn], Fp(w.p, fr), Phis(w.p.fns[fr.fn], to), a) :: Byte(m', a) == Byte(m, a)
    ensures OnlyTop(w, fr, m, m')
  {
    hide SlotOf, SlotBytes, VarsSize;
    var f, fp := w.p.fns[fr.fn], Fp(w.p, fr);
    var ids := Phis(f, to);
    forall a | !(fr.hi <= a < fp) ensures Byte(m', a) == Byte(m, a) {
      forall j | 0 <= j < |ids| ensures !InSlot(f, fp, ids[j], a) {
        PhiOwner(f, to, j);
        SlotBounds(f, Res(ids[j]));
      }
    }
  }

  /** The frame once the copies for an edge not taken have run. */
  function Clobbered(f: Fn, fr: Frame, from: nat, to: nat): Frame {
    fr.(env := Kill(f, fr.env, Overwritten(f, from, to)))
  }

  /** Copies for an edge that is not taken only invalidate the phis that they overwrite. */
  lemma JunkCopies(w: World, fr: Frame, rest: Stack, prog: Mem, from: nat, to: nat, reg: Reg, u: State)
    requires Mid(w, fr, rest, prog, u) && WfTarget(w.p.fns[fr.fn], from, to) && reg < 3
    ensures var f := w.p.fns[fr.fn];
      var t := Run(w, fr.fn, PhiItems(f, from, to, reg), u);
      OnlyReg(u, t, reg) && Mid(w, Clobbered(f, fr, from, to), rest, prog, t)
  {
    hide Run, Linked, WfFn, WfValue, Phis, EdgeSources, SlotOf, SlotBytes, CopyAll, CopyOk, MemOk, PoolOk, Raw,
      Geo, ReturnAddr, StackOk, Fp, Sp;
    MidFacts(w, fr, rest, prog, u);
    var f, fp := w.p.fns[fr.fn], u.regs[EBP];
    var src := EdgeCopyOk(f, from, to);
    CopiesRun(w, fr.fn, f, Phis(f, to), src, reg, u);
    var t := Run(w, fr.fn, PhiItems(f, from, to, reg), u);
    forall j | 0 <= j < |src| && SelfCopy(f, Phis(f, to), src, j)
      ensures SlotBits(f, t.mem, fp, Res(Phis(f, to)[j])) == SlotBits(f, u.mem, fp, Res(Phis(f, to)[j])) {
      SelfKept(w, fr.fn, f, Phis(f, to), src, reg, u, j);
    }
    var fr' := Clobbered(f, fr, from, to);
    forall r | r in fr'.env ensures Raw(w, f, t.mem, fp, Use(r)) == Raw(w, f, u.mem, fp, Use(r)) {
      SurvivesCopies(w, f, u.mem, t.mem, fp, from, to, src, r);
    }
    KilledFrame(w, fr, fr', u.mem, t.mem);
    CopiesOnlyTop(w, fr, u.mem, t.mem, to);
    TopChanged(w, fr, fr', rest, prog, u.mem, t.mem);
    SameGeometry(w.p, fr, fr');
  }

  lemma SameGeometry(p: Program, fr: Frame, fr': Frame)
    requires fr.fn < |p.fns| && fr'.fn == fr.fn && fr'.lo == fr.lo && fr'.hi == fr.hi
    ensures Fp(p, fr) == Fp(p, fr') && Sp(p, fr) == Sp(p, fr')
  {
  }

  /** Fewer names with unchanged bits. */
  lemma KilledFrame(w: World, fr: Frame, fr': Frame, m: Mem, m': Mem)
    requires FrameOk(w, fr, m) && fr' == fr.(env := fr'.env)
    requires forall r | r in fr'.env :: r in fr.env && fr'.env[r] == fr.env[r]
    requires forall r | r in fr'.env ::
      Raw(w, w.p.fns[fr.fn], m', Fp(w.p, fr), Use(r)) == Raw(w, w.p.fns[fr.fn], m, Fp(w.p, fr), Use(r))
    ensures FrameOk(w, fr', m')
  {
    hide Raw, Vars, Out;
  }

  /** Copies for the edge taken give every phi its value at once. */
  lemma TakenCopies(w: World, fr: Frame, rest: Stack, prog: Mem, from: nat, to: nat, reg: Reg, u: State, e: Env)
    requires Mid(w, fr, rest, prog, u) && WfTarget(w.p.fns[fr.fn], from, to) && reg < 3
    requires Edge(w.p, true, w.p.fns[fr.fn], fr.env, from, to) == Some(e)
    ensures var f := w.p.fns[fr.fn];
      var t := Run(w, fr.fn, PhiItems(f, from, to, reg), u);
      OnlyReg(u, t, reg) && Mid(w, fr.(env := e), rest, prog, t)
  {
    hide Run, Linked, WfFn, WfValue, Phis, EdgeSources, SlotOf, SlotBytes, SlotBits, CopyAll, CopyOk, MemOk,
      PoolOk, Raw, Geo, ReturnAddr, StackOk, Fp, Sp, PhiSafe, ReadAll, Assign, Kill, InSlots, OnlyTop;
    MidFacts(w, fr, rest, prog, u);
    var f, fp := w.p.fns[fr.fn], u.regs[EBP];
    var src := EdgeCopyOk(f, from, to);
    CopiesRun(w, fr.fn, f, Phis(f, to), src, reg, u);
    var t := Run(w, fr.fn, PhiItems(f, from, to, reg), u);
    var vals := ReadAll(w.p, fr.env, src).value;
    TakenFrame(w, fr, u.mem, t.mem, from, to, src, vals);
    CopiesOnlyTop(w, fr, u.mem, t.mem, to);
    TopChanged(w, fr, fr.(env := e), rest, prog, u.mem, t.mem);
    SameGeometry(w.p, fr, fr.(env := e));
  }

  /** The situation after the copies of the edge taken, seen from the frame. */
  ghost predicate CopiedEdge(w: World, fr: Frame, m: Mem, m': Mem, from: nat, ids: seq<nat>, src: seq<Value>, vals: seq<nat>)
    requires fr.fn < |w.p.fns|
  {
    var f, fp := w.p.fns[fr.fn], Fp(w.p, fr);
    && CopyOk(f, ids, src) && |vals| == |ids|
    && (forall j | 0 <= j < |ids| :: IncomingOf(f, ids[j], from) == Some(src[j]) && Read(w.p, fr.env, src[j]) == Some(vals[j]))
    && (forall a | !InSlots(f, fp, ids, a) :: Byte(m', a) == Byte(m, a))
    && forall j | 0 <= j < |ids| :: SlotBits(f, m', fp, Res(ids[j])) == SourceBits(w, f, m, fp, ids[j], src[j])
  }

  ghost predicate NameOk(w: World, f: Fn, r: Ref, x: nat, m: Mem, fp: int) {
    WfRef(f, r) && x == Raw(w, f, m, fp, Use(r)) % TypeOf(f, Use(r)).Modulus()
    && (IsBool(f, Use(r)) ==> Raw(w, f, m, fp, Use(r)) % W8 < 2)
  }

  lemma TakenName(w: World, fr: Frame, m: Mem, m': Mem, from: nat, to: nat, src: seq<Value>, vals: seq<nat>, r: Ref)
    requires fr.fn < |w.p.fns| && WfFn(w.p.fns[fr.fn]) && FrameOk(w, fr, m)
    requires CopiedEdge(w, fr, m, m', from, Phis(w.p.fns[fr.fn], to), src, vals)
    requires var f := w.p.fns[fr.fn]; r in Assign(Kill(f, fr.env, Overwritten(f, from, to)), Phis(f, to), vals)
    ensures var f := w.p.fns[fr.fn];
      NameOk(w, f, r, Assign(Kill(f, fr.env, Overwritten(f, from, to)), Phis(f, to), vals)[r], m', Fp(w.p, fr))
  {
    hide WfFn, Phis, SlotOf, SlotBits, SourceBits, Raw, Assign, InSlots, Root, Vars, Out, WfBool, IsBool, WfValue,
      RootIn;
    var f, fp, ids := w.p.fns[fr.fn], Fp(w.p, fr), Phis(w.p.fns[fr.fn], to);
    var killed := Kill(f, fr.env, Overwritten(f, from, to));
    AssignGives(killed, ids, vals);
    if j :| 0 <= j < |ids| && r == Res(ids[j]) {
      PhiValue(w, fr, m, m', ids[j], src[j], vals[j], from);
    } else {
      CopiedKeeps(w, fr, m, m', from, to, src, vals);
      SurvivesCopies(w, f, m, m', fp, from, to, src, r);
    }
  }

  lemma CopiedKeeps(w: World, fr: Frame, m: Mem, m': Mem, from: nat, to: nat, src: seq<Value>, vals: seq<nat>)
    requires fr.fn < |w.p.fns| && CopiedEdge(w, fr, m, m', from, Phis(w.p.fns[fr.fn], to), src, vals)
    ensures CopiedOver(w.p.fns[fr.fn], from, to, src, m, m', Fp(w.p, fr))
  {
    hide Phis, SlotBits, SourceBits, Raw, InSlots, Root, Vars, WfValue;
    var f, ids := w.p.fns[fr.fn], Phis(w.p.fns[fr.fn], to);
    SourcesAre(f, ids, from, src);
    forall j | 0 <= j < |src| && SelfCopy(f, ids, src, j)
      ensures SlotBits(f, m', Fp(w.p, fr), Res(ids[j])) == SlotBits(f, m, Fp(w.p, fr), Res(ids[j])) {
      SourceOfSelf(w, f, m, Fp(w.p, fr), ids[j], src[j]);
    }
  }

  lemma SourcesAre(f: Fn, phis: seq<nat>, from: nat, src: seq<Value>)
    requires |phis| == |src|
    requires forall j | 0 <= j < |phis| :: phis[j] < |f.body| && f.body[phis[j]].Phi? && IncomingOf(f, phis[j], from) == Some(src[j])
    ensures EdgeSources(f, phis, from) == Some(src)
  {
    match EdgeSources(f, phis, from) {
      case None => assert false;
      case Some(x) => assert x == src;
    }
  }

  lemma NamesGive(w: World, f: Fn, env: Env, m: Mem, fp: int)
    requires forall r | r in env :: NameOk(w, f, r, env[r], m, fp)
    ensures EnvOk(w, f, env, m, fp) && BoolsOk(w, f, env, m, fp)
  {
    hide Raw, IsBool, WfRef;
    forall r | r in env ensures WfRef(f, r) && env[r] == Raw(w, f, m, fp, Use(r)) % TypeOf(f, Use(r)).Modulus()
      && (IsBool(f, Use(r)) ==> Raw(w, f, m, fp, Use(r)) % W8 < 2) {
      assert NameOk(w, f, r, env[r], m, fp);
    }
  }

  lemma TakenFrame(w: World, fr: Frame, m: Mem, m': Mem, from: nat, to: nat, src: seq<Value>, vals: seq<nat>)
    requires fr.fn < |w.p.fns| && WfFn(w.p.fns[fr.fn]) && FrameOk(w, fr, m)
    requires CopiedEdge(w, fr, m, m', from, Phis(w.p.fns[fr.fn], to), src, vals)
    ensures var f := w.p.fns[fr.fn];
      FrameOk(w, fr.(env := Assign(Kill(f, fr.env, Overwritten(f, from, to)), Phis(f, to), vals)), m')
  {
    hide WfFn, Phis, Raw, Assign, Kill, Vars, Out, IsBool, WfRef, NameOk, EnvOk, BoolsOk, CopyOk, InSlots,
      SlotBits, SourceBits;
    var f, fp, ids := w.p.fns[fr.fn], Fp(w.p, fr), Phis(w.p.fns[fr.fn], to);
    var e := Assign(Kill(f, fr.env, Overwritten(f, from, to)), ids, vals);
    forall r | r in e ensures NameOk(w, f, r, e[r], m', fp) {
      TakenName(w, fr, m, m', from, to, src, vals, r);
    }
    NamesGive(w, f, e, m', fp);
  }

  /** A phi's slot now holds its incoming value. */
  lemma PhiValue(w: World, fr: Frame, m: Mem, m': Mem, phi: nat, v: Value, x: nat, from: nat)
    requires fr.fn < |w.p.fns| && WfFn(w.p.fns[fr.fn]) && FrameOk(w, fr, m)
    requires var f := w.p.fns[fr.fn]; phi < |f.body| && f.body[phi].Phi? && WfValue(f, v, f.body[phi].ResultType())
    requires IncomingOf(w.p.fns[fr.fn], phi, from) == Some(v)
    requires Read(w.p, fr.env, v) == Some(x)
    requires SlotBits(w.p.fns[fr.fn], m', Fp(w.p, fr), Res(phi)) == SourceBits(w, w.p.fns[fr.fn], m, Fp(w.p, fr), phi, v)
    ensures NameOk(w, w.p.fns[fr.fn], Res(phi), x, m', Fp(w.p, fr))
  {
    hide WfFn, SlotBits, Raw, Vars, Out, WfValue;
    var f, fp := w.p.fns[fr.fn], Fp(w.p, fr);
    RawOfOwner(w, f, m', fp, Res(phi));
    ReadIsRaw(w, f, fr.env, m, fp, v, f.body[phi].ResultType());
    var raw := Raw(w, f, m, fp, v);
    if IsBool(f, Use(Res(phi))) {
      RootOfOwner(f, Res(phi));
      WfFnBool(f, phi);
      IncomingIsListed(f.body[phi].incoming, from);
      BoolRaw(w, f, fr.env, m, fp, v);
      NarrowTwice(raw, I32, I8);
    }
    if !f.body[phi].ResultType().I64? {
      NarrowWord(raw, f.body[phi].ResultType());
    }
  }

  lemma IncomingIsListed(inc: seq<(nat, Value)>, from: nat)
    requires Incoming(inc, from).Some?
    ensures exists j :: 0 <= j < |inc| && inc[j].1 == Incoming(inc, from).value
  {
    if inc[0].0 == from {
      assert inc[0].1 == Incoming(inc, from).value;
    } else {
      IncomingIsListed(inc[1..], from);
      var j :| 0 <= j < |inc[1..]| && inc[1..][j].1 == Incoming(inc[1..], from).value;
      assert inc[j + 1].1 == Incoming(inc, from).value;
    }
  }

  lemma BoolRaw(w: World, f: Fn, env: Env, m: Mem, fp: int, v: Value)
    requires BoolsOk(w, f, env, m, fp) && IsBool(f, v) && Read(w.p, env, v).Some?
    ensures Raw(w, f, m, fp, v) % W8 < 2
  {
    hide SlotBits;
  }

  // ----- Jumps -----

  lemma CopyStraight(f: Fn, phi: nat, v: Value, reg: Reg)
    requires phi < |f.body|
    ensures AllStraight(CopyItems(f, phi, v, reg))
  {
  }

  lemma {:induction false} CopiesStraight(f: Fn, phis: seq<nat>, src: seq<Value>, reg: Reg)
    requires |phis| == |src| && forall j | 0 <= j < |phis| :: phis[j] < |f.body|
    ensures AllStraight(CopyAll(f, phis, src, reg))
  {
    hide CopyItems, Straight;
    if phis != [] {
      CopyStraight(f, phis[0], src[0], reg);
      CopiesStraight(f, phis[1..], src[1..], reg);
      StraightAppend(CopyItems(f, phis[0], src[0], reg), CopyAll(f, phis[1..], src[1..], reg));
    }
  }

  lemma PhiStraight(f: Fn, from: nat, to: nat, reg: Reg)
    ensures AllStraight(PhiItems(f, from, to, reg))
  {
    hide CopyAll, Straight;
    match EdgeSources(f, Phis(f, to), from) {
      case None =>
      case Some(src) => CopiesStraight(f, Phis(f, to), src, reg);
    }
  }

  lemma JumpStep(w: World, k: nat, b: nat, rest: seq<Item>, u: State)
    requires WorldOk(w) && u.State? && u.eip >= 0 && ItemsAt(w, k, [JumpTo(b)] + rest, u.eip)
    ensures Steps(w, 1, u) == u.(eip := Label(w, k, b))
  {
    hide MachineStep, WorldOk, ItemsAt, Label;
    OneStep(w, u);
    StepIsItem(w, k, [JumpTo(b)] + rest, u);
  }

  /** A conditional jump with known flags. */
  lemma JumpIfStep(w: World, k: nat, cc: Cond, b: nat, rest: seq<Item>, u: State)
    requires WorldOk(w) && u.State? && u.eip >= 0 && u.flags.Flags? && ItemsAt(w, k, [JumpIf(cc, b)] + rest, u.eip)
    ensures Steps(w, 1, u) == u.(eip := if Holds(cc, u.flags) then Label(w, k, b) else u.eip + 6)
    ensures ItemsAt(w, k, rest, u.eip + 6)
  {
    hide MachineStep, WorldOk, ItemsAt, Label;
    OneStep(w, u);
    StepIsItem(w, k, [JumpIf(cc, b)] + rest, u);
    assert ([JumpIf(cc, b)] + rest)[1..] == rest;
  }

  /** The program has arrived at block `to` with environment e. */
  function AtBlock(w: World, fr: Frame, to: nat, e: Env): Frame
    requires fr.fn < |w.p.fns| && to < |w.p.fns[fr.fn].starts|
  {
    fr.(pc := w.p.fns[fr.fn].starts[to], env := e)
  }

  /** Landing on a block's label. */
  lemma Arrived(w: World, fr: Frame, rest: Stack, prog: Mem, to: nat, u: State)
    requires Mid(w, fr, rest, prog, u) && to < |w.p.fns[fr.fn].starts| && w.p.fns[fr.fn].starts[to] < |w.p.fns[fr.fn].body|
    ensures Related(w, Running(Cons(AtBlock(w, fr, to, fr.env), rest), prog), u.(eip := Label(w, fr.fn, to)))
  {
    hide StackOk, MemOk, PoolOk, Pc, WfFn, DataOk, CodeOk, WorldOk, PlanOk, Label;
    var fr' := AtBlock(w, fr, to, fr.env);
    ArrivedStack(w, fr, fr', rest, u.mem);
    ProgramKept(w, fr, fr', rest, prog, u.mem, u.mem);
    SameGeometry(w.p, fr, fr');
  }

  lemma ArrivedStack(w: World, fr: Frame, fr': Frame, rest: Stack, m: Mem)
    requires Shaped(w.p) && StackOk(w, Cons(fr, rest), m) && fr' == fr.(pc := fr'.pc)
    requires fr.fn < |w.p.fns| && fr'.pc < |w.p.fns[fr.fn].body|
    ensures StackOk(w, Cons(fr', rest), m)
  {
    hide EnvOk, BoolsOk, ReturnAddr, Vars, Out, Fp, Sp, Suspended, ArgsSize;
    SameGeometry(w.p, fr, fr');
    SameTop(w.p, fr, fr');
  }

  lemma SameTop(p: Program, fr: Frame, fr': Frame)
    requires fr.fn < |p.fns| && fr'.fn == fr.fn && fr'.hi == fr.hi
    ensures ArgsTop(p, fr) == ArgsTop(p, fr')
  {
  }

  /** Copies for the edge, then a jump to the target. */
  lemma GotoRun(w: World, fr: Frame, rest: Stack, prog: Mem, from: nat, to: nat, e: Env, tail: seq<Item>, u: State)
    returns (n: nat, t: State)
    requires Mid(w, fr, rest, prog, u) && WfTarget(w.p.fns[fr.fn], from, to) && u.eip >= 0
    requires Edge(w.p, true, w.p.fns[fr.fn], fr.env, from, to) == Some(e)
    requires ItemsAt(w, fr.fn, GotoItems(w.p.fns[fr.fn], from, to) + tail, u.eip)
    ensures Steps(w, n, u) == t && Related(w, Running(Cons(AtBlock(w, fr, to, e), rest), prog), t)
  {
    hide Mid, WfFn, Edge, ItemsAt, PhiItems, Run, Steps, Related, Phis, WorldOk, Label, WfValue, Straight;
    MidState(w, fr, rest, prog, u);
    MidFacts(w, fr, rest, prog, u);
    var f, k := w.p.fns[fr.fn], fr.fn;
    TakenCopies(w, fr, rest, prog, from, to, EAX, u, e);
    PhiStraight(f, from, to, EAX);
    var copies := PhiItems(f, from, to, EAX);
    assert copies + ([JumpTo(to)] + tail) == GotoItems(f, from, to) + tail;
    RunIsSteps(w, k, copies, [JumpTo(to)] + tail, u);
    var u1 := Run(w, k, copies, u);
    JumpStep(w, k, to, tail, u1);
    n, t := |copies| + 1, u1.(eip := Label(w, k, to));
    StepsAdd(w, |copies|, 1, u);
    Arrived(w, fr.(env := e), rest, prog, to, u1);
  }

  lemma MidState(w: World, fr: Frame, rest: Stack, prog: Mem, u: State)
    requires Mid(w, fr, rest, prog, u)
    ensures u.State? && fr.fn < |w.p.fns| && fr.pc < |w.p.fns[fr.fn].body|
    ensures u.regs[EBP] == Fp(w.p, fr) && u.regs[ESP] == Sp(w.p, fr) && Saved(u) == w.hostSaved
  {
    hide Linked, StackOk, MemOk, PoolOk;
  }

  /** Load the condition and test its lowest bit. */
  lemma TestRun(w: World, k: nat, f: Fn, c: Value, u: State)
    requires WfFn(f) && WfValue(f, c, I1) && u.State? && Geo(f, u.regs[EBP])
    ensures var t := Run(w, k, [MovePart(f, EAX, c, 0), Ins(TestBit0)], u);
      && Kept(u, t) && t.flags.Flags? && (t.flags.zf <==> Raw(w, f, u.mem, u.regs[EBP], c) % 2 == 0)
    ensures AllStraight([MovePart(f, EAX, c, 0), Ins(TestBit0)])
  {
    hide Run, ExecItem, MovePart, Raw, WfFn, WfValue, Encode, Geo, Straight;
    var a := [MovePart(f, EAX, c, 0)];
    OneOperand(w, k, f, EAX, c, I1, u);
    RunIns(w, k, TestBit0, Run(w, k, a, u));
    RunAppend(w, k, a, [Ins(TestBit0)], u);
    assert a + [Ins(TestBit0)] == [MovePart(f, EAX, c, 0), Ins(TestBit0)];
    NarrowTwice(Raw(w, f, u.mem, u.regs[EBP], c), I32, I1);
    MoveStraight(f, EAX, c, 0);
    TestStraight();
  }

  lemma TestStraight()
    ensures Straight(Ins(TestBit0)) && Straight(Ins(Alu(CMP, ECX, EAX))) && forall n: word :: Straight(Ins(MovImm(ECX, n)))
  {
  }

  /** Copies for the first successor, then the test of the condition's lowest bit. */
  lemma BranchHead(w: World, fr: Frame, rest: Stack, prog: Mem, from: nat, c: Value, yes: nat, more: seq<Item>, u: State)
    returns (n: nat, t: State)
    requires Mid(w, fr, rest, prog, u) && u.eip >= 0 && WfValue(w.p.fns[fr.fn], c, I1)
    requires WfTarget(w.p.fns[fr.fn], from, yes)
    requires Read(w.p, Clobbered(w.p.fns[fr.fn], fr, from, yes).env, c).Some?
    requires ItemsAt(w, fr.fn, PhiItems(w.p.fns[fr.fn], from, yes, EAX)
              + ([MovePart(w.p.fns[fr.fn], EAX, c, 0), Ins(TestBit0)] + more), u.eip)
    ensures Steps(w, n, u) == t && t.State? && t.eip >= 0 && ItemsAt(w, fr.fn, more, t.eip)
    ensures var f := w.p.fns[fr.fn];
      && Kept(Run(w, fr.fn, PhiItems(f, from, yes, EAX), u), t)
      && Mid(w, Clobbered(f, fr, from, yes), rest, prog, t)
      && t.flags.Flags? && (t.flags.zf <==> Read(w.p, Clobbered(f, fr, from, yes).env, c).value == 0)
      && Read(w.p, Clobbered(f, fr, from, yes).env, c).value < 2
  {
    hide Mid, WfFn, ItemsAt, PhiItems, Run, Steps, Phis, WorldOk, Label, WfValue, WfTarget, Straight, MovePart,
      Raw, Kill, Size, Read, Overwritten, Root, IncomingOf, Geo;
    MidState(w, fr, rest, prog, u);
    var f, k := w.p.fns[fr.fn], fr.fn;
    JunkCopies(w, fr, rest, prog, from, yes, EAX, u);
    PhiStraight(f, from, yes, EAX);
    MidFacts(w, fr, rest, prog, u);
    var copies, test := PhiItems(f, from, yes, EAX), [MovePart(f, EAX, c, 0), Ins(TestBit0)];
    RunIsSteps(w, k, copies, test + more, u);
    var u1, fr1 := Run(w, k, copies, u), Clobbered(f, fr, from, yes);
    MidFacts(w, fr1, rest, prog, u1);
    TestRun(w, k, f, c, u1);
    RunIsSteps(w, k, test, more, u1);
    t := Run(w, k, test, u1);
    MidRegs(w, fr1, rest, prog, u1, t);
    ReadIsRaw(w, f, fr1.env, u1.mem, u1.regs[EBP], c, I1);
    n := |copies| + |test|;
    StepsAdd(w, |copies|, |test|, u);
  }

  lemma BranchSplit(f: Fn, from: nat, c: Value, yes: nat, no: nat, tail: seq<Item>)
    ensures BranchItems(f, from, c, yes, no) + tail
            == PhiItems(f, from, yes, EAX) + ([MovePart(f, EAX, c, 0), Ins(TestBit0)]
               + ([JumpIf(NE, yes)] + (GotoItems(f, from, no) + tail)))
  {
    hide PhiItems, MovePart, GotoItems;
  }

  /** The two-way branch. */
  lemma BranchRun(w: World, fr: Frame, rest: Stack, prog: Mem, from: nat, c: Value, yes: nat, no: nat, e: Env, to: nat,
                  tail: seq<Item>, u: State) returns (n: nat, t: State)
    requires Mid(w, fr, rest, prog, u) && u.eip >= 0 && WfValue(w.p.fns[fr.fn], c, I1)
    requires WfTarget(w.p.fns[fr.fn], from, yes) && WfTarget(w.p.fns[fr.fn], from, no)
    requires BranchEdge(w.p, true, w.p.fns[fr.fn], fr.env, from, c, yes, no) == Some((e, to))
    requires ItemsAt(w, fr.fn, BranchItems(w.p.fns[fr.fn], from, c, yes, no) + tail, u.eip)
    ensures Steps(w, n, u) == t && to < |w.p.fns[fr.fn].starts|
    ensures Related(w, Running(Cons(AtBlock(w, fr, to, e), rest), prog), t)
  {
    hide Mid, WfFn, Edge, ItemsAt, PhiItems, Run, Steps, Related, Phis, WorldOk, Label, WfValue, Straight,
      MovePart, GotoItems, Raw, Kill, Read, BranchItems;
    MidState(w, fr, rest, prog, u);
    MidFacts(w, fr, rest, prog, u);
    var f, k := w.p.fns[fr.fn], fr.fn;
    var fr1, more := Clobbered(f, fr, from, yes), GotoItems(f, from, no) + tail;
    BranchSplit(f, from, c, yes, no, tail);
    var n1, u2 := BranchHead(w, fr, rest, prog, from, c, yes, [JumpIf(NE, yes)] + more, u);
    JumpIfStep(w, k, NE, yes, more, u2);
    StepsAdd(w, n1, 1, u);
    if Read(w.p, fr1.env, c).value == 1 {
      TakenCopies(w, fr, rest, prog, from, yes, EAX, u, e);
      MidRegs(w, fr.(env := e), rest, prog, Run(w, k, PhiItems(f, from, yes, EAX), u), u2);
      n, t := n1 + 1, u2.(eip := Label(w, k, yes));
      Arrived(w, fr.(env := e), rest, prog, yes, u2);
    } else {
      var u3 := u2.(eip := u2.eip + 6);
      MidRegs(w, fr1, rest, prog, u2, u3);
      var n2;
      n2, t := GotoRun(w, fr1, rest, prog, from, no, e, tail, u3);
      StepsAdd(w, n1 + 1, n2, u);
      n := n1 + 1 + n2;
    }
  }

  // ----- Switch -----

  ghost predicate Tested(w: World, fr: Frame, rest: Stack, prog: Mem, from: nat, val: nat, dest: nat, x: nat, u: State, t: State)
    requires fr.fn < |w.p.fns|
  {
    var f := w.p.fns[fr.fn];
    && Kept(Run(w, fr.fn, PhiItems(f, from, dest, EDX), u), t)
    && Mid(w, Clobbered(f, fr, from, dest), rest, prog, t)
    && t.regs[EAX] == x && t.flags.Flags? && (t.flags.zf <==> val == x)
  }

  /** Copies for one case, then its comparison; eax keeps the condition. */
  lemma CaseHead(w: World, fr: Frame, rest: Stack, prog: Mem, from: nat, val: nat, dest: nat, x: nat, more: seq<Item>, u: State)
    returns (n: nat, t: State)
    requires u.State? && u.eip >= 0 && u.regs[EAX] == x && val < W32 && fr.fn < |w.p.fns|
    requires WfTarget(w.p.fns[fr.fn], from, dest)
    requires ItemsAt(w, fr.fn, PhiItems(w.p.fns[fr.fn], from, dest, EDX)
              + ([Ins(MovImm(ECX, val % W32)), Ins(Alu(CMP, ECX, EAX))] + more), u.eip)
    requires Mid(w, fr, rest, prog, u)
    ensures Steps(w, n, u) == t && t.State? && t.eip >= 0 && ItemsAt(w, fr.fn, more, t.eip)
    ensures Tested(w, fr, rest, prog, from, val, dest, x, u, t)
  {
    hide Mid, WfFn, ItemsAt, PhiItems, Run, Steps, Phis, WorldOk, WfTarget, Straight, Kill, Size;
    MidState(w, fr, rest, prog, u);
    var f, k := w.p.fns[fr.fn], fr.fn;
    JunkCopies(w, fr, rest, prog, from, dest, EDX, u);
    PhiStraight(f, from, dest, EDX);
    MidFacts(w, fr, rest, prog, u);
    var copies, test := PhiItems(f, from, dest, EDX), [Ins(MovImm(ECX, val % W32)), Ins(Alu(CMP, ECX, EAX))];
    RunIsSteps(w, k, copies, test + more, u);
    var u1 := Run(w, k, copies, u);
    CompareConst(w, k, val, u1);
    TestStraight();
    RunIsSteps(w, k, test, more, u1);
    t := Run(w, k, test, u1);
    MidRegs(w, Clobbered(f, fr, from, dest), rest, prog, u1, t);
    n := |copies| + |test|;
    StepsAdd(w, |copies|, |test|, u);
  }

  lemma CompareConst(w: World, k: nat, val: nat, u: State)
    requires u.State? && val < W32
    ensures var t := Run(w, k, [Ins(MovImm(ECX, val % W32)), Ins(Alu(CMP, ECX, EAX))], u);
      Kept(u, t) && t.regs[EAX] == u.regs[EAX] && t.flags.Flags? && (t.flags.zf <==> val == u.regs[EAX])
  {
    hide Run, ExecItem, Encode;
    WordsAreSmall(val);
    RunTwo(w, k, MovImm(ECX, val % W32), Alu(CMP, ECX, EAX), u);
    FlagsDecide(Eq, val, u.regs[EAX]);
  }

  lemma CaseSplit(f: Fn, from: nat, cases: seq<(nat, nat)>, default: nat, tail: seq<Item>)
    requires cases != []
    ensures CaseItems(f, from, cases, default) + tail
            == PhiItems(f, from, cases[0].1, EDX) + ([Ins(MovImm(ECX, cases[0].0 % W32)), Ins(Alu(CMP, ECX, EAX))]
               + ([JumpIf(E, cases[0].1)] + (CaseItems(f, from, cases[1..], default) + tail)))
  {
    hide PhiItems;
  }

  /** N-way switch: the zero-extended condition in eax survives the copies of every case passed
      over, and control reaches the block of the first matching case or the default. */
  lemma {:induction false} CasesRun(w: World, fr: Frame, rest: Stack, prog: Mem, from: nat, cases: seq<(nat, nat)>, default: nat,
                 x: nat, e: Env, to: nat, tail: seq<Item>, u: State) returns (n: nat, t: State)
    requires Mid(w, fr, rest, prog, u) && u.eip >= 0 && u.regs[EAX] == x
    requires WfTarget(w.p.fns[fr.fn], from, default)
    requires forall j | 0 <= j < |cases| :: cases[j].0 < W32 && WfTarget(w.p.fns[fr.fn], from, cases[j].1)
    requires SwitchEdge(w.p, true, w.p.fns[fr.fn], fr.env, from, x, cases, default) == Some((e, to))
    requires ItemsAt(w, fr.fn, CaseItems(w.p.fns[fr.fn], from, cases, default) + tail, u.eip)
    ensures Steps(w, n, u) == t && to < |w.p.fns[fr.fn].starts|
    ensures Related(w, Running(Cons(AtBlock(w, fr, to, e), rest), prog), t)
    decreases cases
  {
    hide Mid, WfFn, Edge, ItemsAt, PhiItems, Run, Steps, Related, Phis, WorldOk, Label, GotoItems, Kill;
    MidState(w, fr, rest, prog, u);
    MidFacts(w, fr, rest, prog, u);
    var f, k := w.p.fns[fr.fn], fr.fn;
    if cases == [] {
      n, t := GotoRun(w, fr, rest, prog, from, default, e, tail, u);
    } else {
      var dest, more := cases[0].1, CaseItems(f, from, cases[1..], default) + tail;
      CaseSplit(f, from, cases, default, tail);
      var n1, u2 := CaseHead(w, fr, rest, prog, from, cases[0].0, dest, x, [JumpIf(E, dest)] + more, u);
      JumpIfStep(w, k, E, dest, more, u2);
      StepsAdd(w, n1, 1, u);
      if cases[0].0 == x {
        TakenCopies(w, fr, rest, prog, from, dest, EDX, u, e);
        MidRegs(w, fr.(env := e), rest, prog, Run(w, k, PhiItems(f, from, dest, EDX), u), u2);
        n, t := n1 + 1, u2.(eip := Label(w, k, dest));
        Arrived(w, fr.(env := e), rest, prog, dest, u2);
      } else {
        var u3, fr1 := u2.(eip := u2.eip + 6), Clobbered(f, fr, from, dest);
        MidRegs(w, fr1, rest, prog, u2, u3);
        var n2;
        n2, t := CasesRun(w, fr1, rest, prog, from, cases[1..], default, x, e, to, tail, u3);
        StepsAdd(w, n1 + 1, n2, u);
        n := n1 + 1 + n2;
      }
    }
  }

  /** Load and zero-extend the condition. */
  lemma SwitchHead(w: World, k: nat, f: Fn, ty: Type, c: Value, u: State)
    requires WfFn(f) && WfValue(f, c, ty) && OneWord(ty) && u.State? && Geo(f, u.regs[EBP])
    ensures var t := Run(w, k, [MovePart(f, EAX, c, 0)] + Extend(EAX, false, ty.Bits()), u);
      Kept(u, t) && t.regs[EAX] == Raw(w, f, u.mem, u.regs[EBP], c) % ty.Modulus()
    ensures AllStraight([MovePart(f, EAX, c, 0)] + Extend(EAX, false, ty.Bits()))
  {
    hide Run, MovePart, Raw, WfFn, WfValue, Extend, Geo, Straight;
    var a := [MovePart(f, EAX, c, 0)];
    OneOperand(w, k, f, EAX, c, ty, u);
    ExtendCorrect(w, k, EAX, false, ty, Run(w, k, a, u));
    RunAppend(w, k, a, Extend(EAX, false, ty.Bits()), u);
    NarrowWord(Raw(w, f, u.mem, u.regs[EBP], c), ty);
    MoveStraight(f, EAX, c, 0);
    ExtendStraight(EAX, false, ty);
    StraightAppend(a, Extend(EAX, false, ty.Bits()));
  }

  lemma SwitchRun(w: World, fr: Frame, rest: Stack, prog: Mem, from: nat, ty: Type, c: Value, cases: seq<(nat, nat)>,
                  default: nat, x: nat, e: Env, to: nat, tail: seq<Item>, u: State) returns (n: nat, t: State)
    requires Mid(w, fr, rest, prog, u) && u.eip >= 0 && OneWord(ty) && WfValue(w.p.fns[fr.fn], c, ty)
    requires WfTarget(w.p.fns[fr.fn], from, default)
    requires forall j | 0 <= j < |cases| :: cases[j].0 < W32 && WfTarget(w.p.fns[fr.fn], from, cases[j].1)
    requires Read(w.p, fr.env, c) == Some(x)
    requires SwitchEdge(w.p, true, w.p.fns[fr.fn], fr.env, from, x, cases, default) == Some((e, to))
    requires ItemsAt(w, fr.fn, SwitchItems(w.p.fns[fr.fn], from, ty, c, cases, default) + tail, u.eip)
    ensures Steps(w, n, u) == t && to < |w.p.fns[fr.fn].starts|
    ensures Related(w, Running(Cons(AtBlock(w, fr, to, e), rest), prog), t)
  {
    hide Mid, WfFn, ItemsAt, Run, Steps, Related, WorldOk, MovePart, Extend, CaseItems, SwitchEdge, Raw, WfValue,
      Straight, Size, EnvOk, BoolsOk, Geo, WfTarget;
    MidState(w, fr, rest, prog, u);
    MidFacts(w, fr, rest, prog, u);
    var f, k := w.p.fns[fr.fn], fr.fn;
    SwitchHead(w, k, f, ty, c, u);
    var head := [MovePart(f, EAX, c, 0)] + Extend(EAX, false, ty.Bits());
    assert head + (CaseItems(f, from, cases, default) + tail) == SwitchItems(f, from, ty, c, cases, default) + tail;
    RunIsSteps(w, k, head, CaseItems(f, from, cases, default) + tail, u);
    var u1 := Run(w, k, head, u);
    MidRegs(w, fr, rest, prog, u, u1);
    ReadIsRaw(w, f, fr.env, u.mem, u.regs[EBP], c, ty);
    var n2;
    n2, t := CasesRun(w, fr, rest, prog, from, cases, default, x, e, to, tail, u1);
    StepsAdd(w, |head|, n2, u);
    n := |head| + n2;
  }
}
