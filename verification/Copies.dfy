/** The copies that a branch makes for its target's phis. */
module Copies {
  import opened Words
  import opened IrOps
  import opened Machine
  import opened Encoding
  import opened Ir
  import opened Codegen
  import opened Execution
  import opened Arithmetic
  import opened Relation
  import opened Frames
  import opened Operands
  import opened Wide

  /** The bits a phi receives from a value: all 64, or the low word. */
  function SourceBits(w: World, f: Fn, mem: Mem, fp: int, phi: nat, v: Value): nat {
    if TypeOf(f, Use(Res(phi))).I64? then Raw(w, f, mem, fp, v) else Raw(w, f, mem, fp, v) % W32
  }

  predicate InSlot(f: Fn, fp: int, i: nat, a: int) {
    fp + SlotOf(f, Res(i)) <= a < fp + SlotOf(f, Res(i)) + SlotBytes(f, Res(i))
  }

  predicate InSlots(f: Fn, fp: int, ids: seq<nat>, a: int) {
    exists j :: 0 <= j < |ids| && InSlot(f, fp, ids[j], a)
  }

  /** A list of phis with well-typed sources. */
  predicate CopyOk(f: Fn, phis: seq<nat>, src: seq<Value>) {
    && |phis| == |src|
    && (forall j | 0 <= j < |phis| ::
          phis[j] < |f.body| && f.body[phis[j]].Phi? && WfValue(f, src[j], f.body[phis[j]].ResultType()))
    && (forall j, k | 0 <= j < k < |phis| :: phis[j] != phis[k])
  }

  /** Only the temporary and the given memory differ. */
  predicate OnlyReg(s: State, t: State, reg: Reg) {
    s.State? && t.State? && forall r: Reg | r != reg :: t.regs[r] == s.regs[r]
  }

  lemma MoveThenSpill(w: World, k: nat, f: Fn, phi: nat, v: Value, reg: Reg, part: nat, s: State)
    requires WfFn(f) && phi < |f.body| && f.body[phi].Phi? && WfValue(f, v, f.body[phi].ResultType())
    requires PartOk(f.body[phi].ResultType(), part) && s.State? && Geo(f, s.regs[EBP]) && reg < 3
    ensures var t := Run(w, k, [MovePart(f, reg, v, part), Spill(f, reg, phi, part)], s);
      OnlyReg(s, t, reg) && t.mem == Write32(s.mem, s.regs[EBP] + SlotOf(f, Res(phi)) + part,
                                             Part(Raw(w, f, s.mem, s.regs[EBP], v), part))
  {
    hide Run, ExecItem, MovePart, Spill, Raw, WfFn, WfValue, Part, Write32, SlotOf, ItemSize, Geo;
    var a, b := MovePart(f, reg, v, part), Spill(f, reg, phi, part);
    RunOne(w, k, a, s);
    MoveExec(w, k, f, reg, v, f.body[phi].ResultType(), part, s.(eip := s.eip + ItemSize(a)));
    var u := Run(w, k, [a], s);
    RunThen(w, k, [a], b, s);
    SpillExec(w, k, f, reg, phi, part, u.(eip := u.eip + ItemSize(b)));
    assert [a] + [b] == [a, b];
  }

  /** Writing the low word of a value into a slot leaves the value's high word readable, whether
      the value lives elsewhere or in that very slot. */
  lemma HighUnaffected(w: World, f: Fn, m: Mem, fp: int, phi: nat, v: Value)
    requires WfFn(f) && phi < |f.body| && f.body[phi].Phi? && WfValue(f, v, I64) && f.body[phi].ResultType().I64?
    ensures var m' := Write32(m, fp + SlotOf(f, Res(phi)), Part(Raw(w, f, m, fp, v), 0));
      Raw(w, f, m', fp, v) == Raw(w, f, m, fp, v) < W64
  {
    hide Write32, Read32, SlotOf, WfFn, Read64;
    RootWf(f, v, I64);
    var root, at := Root(f, v), fp + SlotOf(f, Res(phi));
    var lo := Part(Raw(w, f, m, fp, v), 0);
    ReadWrite32(m, at, lo);
    var m' := Write32(m, at, lo);
    if root.Use? {
      var b := fp + SlotOf(f, root.r);
      if root.r == Res(phi) {
        ReadSame(m, m', at + 4, 4);
        Halves(m, at);
        Halves(m', at);
        WideIsSmall(m, at);
        WideIsSmall(m', at);
      } else {
        SlotsDisjoint(f, root.r, Res(phi));
        ReadSame(m, m', b, 8);
      }
    }
  }

  /** One phi's copy puts its source's bits in its slot and touches nothing else. */
  lemma CopyOne(w: World, k: nat, f: Fn, phi: nat, v: Value, reg: Reg, s: State)
    requires WfFn(f) && phi < |f.body| && f.body[phi].Phi? && WfValue(f, v, f.body[phi].ResultType())
    requires s.State? && Geo(f, s.regs[EBP]) && reg < 3
    ensures var t := Run(w, k, CopyItems(f, phi, v, reg), s);
      var fp := s.regs[EBP];
      && OnlyReg(s, t, reg)
      && SlotBits(f, t.mem, fp, Res(phi)) == SourceBits(w, f, s.mem, fp, phi, v)
      && forall a | !InSlot(f, fp, phi, a) :: Byte(t.mem, a) == Byte(s.mem, a)
  {
    hide Run, ExecItem, MovePart, Spill, Raw, WfFn, WfValue, Write32, SlotOf, Geo, Read32, Read64;
    var fp, at := s.regs[EBP], s.regs[EBP] + SlotOf(f, Res(phi));
    var low := [MovePart(f, reg, v, 0), Spill(f, reg, phi, 0)];
    MoveThenSpill(w, k, f, phi, v, reg, 0, s);
    if f.body[phi].ResultType().I64? {
      var u, high := Run(w, k, low, s), [MovePart(f, reg, v, 4), Spill(f, reg, phi, 4)];
      HighUnaffected(w, f, s.mem, fp, phi, v);
      MoveThenSpill(w, k, f, phi, v, reg, 4, u);
      RunAppend(w, k, low, high, s);
      assert low + high == CopyItems(f, phi, v, reg);
      var x := Raw(w, f, s.mem, fp, v);
      TwoHalves(s.mem, at, Part(x, 0), Part(x, 4));
      WordsAreSmall(x / W32);
    } else {
      ReadWrite32(s.mem, at, Part(Raw(w, f, s.mem, fp, v), 0));
    }
  }

  /** A value whose storage is not the written slot reads the same afterwards. */
  lemma RawOutside(w: World, f: Fn, m: Mem, m': Mem, fp: int, v: Value, ty: Type, ids: seq<nat>)
    requires WfFn(f) && WfValue(f, v, ty)
    requires forall a | !InSlots(f, fp, ids, a) :: Byte(m', a) == Byte(m, a)
    requires forall j | 0 <= j < |ids| :: Owner(f, Res(ids[j])) && Root(f, v) != Use(Res(ids[j]))
    ensures Raw(w, f, m', fp, v) == Raw(w, f, m, fp, v)
  {
    hide SlotOf, WfFn, SlotBytes;
    RootWf(f, v, ty);
    var root := Root(f, v);
    if root.Use? {
      forall a | fp + SlotOf(f, root.r) <= a < fp + SlotOf(f, root.r) + SlotBytes(f, root.r)
        ensures Byte(m', a) == Byte(m, a)
      {
        forall j | 0 <= j < |ids| ensures !InSlot(f, fp, ids[j], a) {
          SlotsDisjoint(f, root.r, Res(ids[j]));
        }
      }
      SlotSame(f, m, m', fp, root.r);
    }
  }

  lemma SlotOutside(f: Fn, m: Mem, m': Mem, fp: int, i: nat, ids: seq<nat>)
    requires Owner(f, Res(i)) && forall j | 0 <= j < |ids| :: Owner(f, Res(ids[j])) && ids[j] != i
    requires forall a | !InSlots(f, fp, ids, a) :: Byte(m', a) == Byte(m, a)
    ensures SlotBits(f, m', fp, Res(i)) == SlotBits(f, m, fp, Res(i))
  {
    hide SlotOf, SlotBytes;
    forall a | InSlot(f, fp, i, a) ensures Byte(m', a) == Byte(m, a) {
      forall j | 0 <= j < |ids| ensures !InSlot(f, fp, ids[j], a) {
        SlotsDisjoint(f, Res(i), Res(ids[j]));
      }
    }
    SlotSame(f, m, m', fp, Res(i));
  }

  /** The copy loop computes the simultaneous assignment of any number of phis whenever no source
      resolves to an earlier phi that changed; always, it changes only the phis' slots. */
  lemma {:induction false} CopiesRun(w: World, k: nat, f: Fn, phis: seq<nat>, src: seq<Value>, reg: Reg, s: State)
    requires WfFn(f) && CopyOk(f, phis, src) && s.State? && Geo(f, s.regs[EBP]) && reg < 3
    ensures var t := Run(w, k, CopyAll(f, phis, src, reg), s);
      var fp := s.regs[EBP];
      && OnlyReg(s, t, reg)
      && (forall a | !InSlots(f, fp, phis, a) :: Byte(t.mem, a) == Byte(s.mem, a))
      && (PhiSafe(f, phis, src) ==>
            forall j | 0 <= j < |phis| :: SlotBits(f, t.mem, fp, Res(phis[j])) == SourceBits(w, f, s.mem, fp, phis[j], src[j]))
  {
    hide Run, SlotOf, SlotBits, WfFn, WfValue, Raw, CopyItems, Geo, SlotBytes, Root;
    if phis == [] {
      RunNone(w, k, s);
    } else {
      var fp, tail, tsrc := s.regs[EBP], phis[1..], src[1..];
      var u := Run(w, k, CopyItems(f, phis[0], src[0], reg), s);
      CopyOne(w, k, f, phis[0], src[0], reg, s);
      CopiesRun(w, k, f, tail, tsrc, reg, u);
      RunAppend(w, k, CopyItems(f, phis[0], src[0], reg), CopyAll(f, tail, tsrc, reg), s);
      var t := Run(w, k, CopyAll(f, phis, src, reg), s);
      forall a | !InSlots(f, fp, phis, a) ensures Byte(t.mem, a) == Byte(s.mem, a) {
        assert !InSlot(f, fp, phis[0], a);
        assert !InSlots(f, fp, tail, a) by {
          forall j | 0 <= j < |tail| ensures !InSlot(f, fp, tail[j], a) {
            assert tail[j] == phis[j + 1];
          }
        }
      }
      if PhiSafe(f, phis, src) {
        SafeTail(f, phis, src);
        SlotOutside(f, u.mem, t.mem, fp, phis[0], tail);
        forall j | 0 < j < |phis|
          ensures SlotBits(f, t.mem, fp, Res(phis[j])) == SourceBits(w, f, s.mem, fp, phis[j], src[j])
        {
          assert tail[j - 1] == phis[j] && tsrc[j - 1] == src[j];
          FirstCopyHarmless(w, f, s.mem, u.mem, fp, phis, src, j);
        }
        assert SlotBits(f, t.mem, fp, Res(phis[0])) == SourceBits(w, f, s.mem, fp, phis[0], src[0]);
      }
    }
  }

  /** Phi j receives its own value. */
  predicate SelfCopy(f: Fn, phis: seq<nat>, src: seq<Value>, j: nat)
    requires |phis| == |src|
  {
    j < |phis| && Root(f, src[j]) == Use(Res(phis[j]))
  }

  /** Copies leave a phi that receives itself as it was, whatever the other sources are. */
  lemma {:induction false} SelfKept(w: World, k: nat, f: Fn, phis: seq<nat>, src: seq<Value>, reg: Reg, s: State, j: nat)
    requires WfFn(f) && CopyOk(f, phis, src) && s.State? && Geo(f, s.regs[EBP]) && reg < 3 && SelfCopy(f, phis, src, j)
    ensures var t := Run(w, k, CopyAll(f, phis, src, reg), s);
      t.State? && SlotBits(f, t.mem, s.regs[EBP], Res(phis[j])) == SlotBits(f, s.mem, s.regs[EBP], Res(phis[j]))
    decreases j
  {
    hide Run, SlotOf, SlotBits, WfFn, WfValue, Raw, CopyItems, Geo, SlotBytes, Root;
    var fp, tail, tsrc := s.regs[EBP], phis[1..], src[1..];
    var u := Run(w, k, CopyItems(f, phis[0], src[0], reg), s);
    CopyOne(w, k, f, phis[0], src[0], reg, s);
    CopiesRun(w, k, f, tail, tsrc, reg, u);
    RunAppend(w, k, CopyItems(f, phis[0], src[0], reg), CopyAll(f, tail, tsrc, reg), s);
    if j == 0 {
      SourceOfSelf(w, f, s.mem, fp, phis[0], src[0]);
      SlotOutside(f, u.mem, Run(w, k, CopyAll(f, phis, src, reg), s).mem, fp, phis[0], tail);
    } else {
      assert tail[j - 1] == phis[j] && tsrc[j - 1] == src[j];
      assert forall a | !InSlots(f, fp, [phis[0]], a) :: !InSlot(f, fp, [phis[0]][0], a);
      SlotOutside(f, s.mem, u.mem, fp, phis[j], [phis[0]]);
      SelfKept(w, k, f, tail, tsrc, reg, u, j - 1);
    }
  }

  lemma SourceOfSelf(w: World, f: Fn, m: Mem, fp: int, phi: nat, v: Value)
    requires Root(f, v) == Use(Res(phi))
    ensures SourceBits(w, f, m, fp, phi, v) == SlotBits(f, m, fp, Res(phi))
  {
    hide SlotBits;
    SlotIsSmall(f, m, fp, Res(phi));
  }

  lemma SafeTail(f: Fn, phis: seq<nat>, src: seq<Value>)
    requires |phis| == |src| > 0 && PhiSafe(f, phis, src)
    ensures PhiSafe(f, phis[1..], src[1..])
  {
    hide Root;
    forall k, j | 0 <= k < j < |phis[1..]| && Root(f, src[1..][j]) == Use(Res(phis[1..][k]))
      ensures Root(f, src[1..][k]) == Use(Res(phis[1..][k]))
    {
      assert src[j + 1] == src[1..][j] && phis[k + 1] == phis[1..][k] && src[k + 1] == src[1..][k];
    }
  }

  /** After the first copy every later source still has its bits. */
  lemma FirstCopyHarmless(w: World, f: Fn, m: Mem, m': Mem, fp: int, phis: seq<nat>, src: seq<Value>, j: nat)
    requires WfFn(f) && CopyOk(f, phis, src) && 0 < j < |phis| && PhiSafe(f, phis, src)
    requires SlotBits(f, m', fp, Res(phis[0])) == SourceBits(w, f, m, fp, phis[0], src[0])
    requires forall a | !InSlot(f, fp, phis[0], a) :: Byte(m', a) == Byte(m, a)
    ensures Raw(w, f, m', fp, src[j]) == Raw(w, f, m, fp, src[j])
  {
    hide SlotOf, SlotBits, WfFn, SlotBytes;
    if Root(f, src[j]) == Use(Res(phis[0])) {
      assert Root(f, src[0]) == Use(Res(phis[0]));
      SlotIsSmall(f, m, fp, Res(phis[0]));
    } else {
      forall a | !InSlots(f, fp, [phis[0]], a) ensures Byte(m', a) == Byte(m, a) {
        assert !InSlot(f, fp, [phis[0]][0], a);
      }
      RawOutside(w, f, m, m', fp, src[j], f.body[phis[j]].ResultType(), [phis[0]]);
    }
  }

  lemma SlotIsSmall(f: Fn, m: Mem, fp: int, r: Ref)
    ensures !TypeOf(f, Use(r)).I64? ==> SlotBits(f, m, fp, r) % W32 == SlotBits(f, m, fp, r)
  {
    hide SlotOf, Read32, Read64;
    if !TypeOf(f, Use(r)).I64? {
      WordsAreSmall(Read32(m, fp + SlotOf(f, r)));
    }
  }
}
