/** When exactly sequential phi copies are the simultaneous assignment. */
module PhiExact {
  import opened Words
  import opened IrOps
  import opened Machine
  import opened Ir
  import opened Codegen
  import opened Execution
  import opened Arithmetic
  import opened Relation
  import opened Frames
  import opened Operands
  import opened Copies

  /** From state s the copies give every phi the value its source had before all copies. */
  ghost predicate Simultaneous(w: World, k: nat, f: Fn, phis: seq<nat>, src: seq<Value>, reg: Reg, s: State)
    requires CopyOk(f, phis, src) && s.State?
  {
    var t := Run(w, k, CopyAll(f, phis, src, reg), s);
    t.State? && forall j | 0 <= j < |phis| ::
      var m := f.body[phis[j]].ResultType().Modulus();
      SlotBits(f, t.mem, s.regs[EBP], Res(phis[j])) % m == Raw(w, f, s.mem, s.regs[EBP], src[j]) % m
  }

  /** Source j reads a phi that an earlier copy has overwritten from elsewhere. */
  predicate Overtakes(f: Fn, phis: seq<nat>, src: seq<Value>, k: nat, j: nat)
    requires |phis| == |src|
  {
    k < j < |phis| && Root(f, src[j]) == Use(Res(phis[k])) && Root(f, src[k]) != Use(Res(phis[k]))
  }

  lemma SourceParity(w: World, f: Fn, m: Mem, fp: int, phi: nat, v: Value)
    ensures SourceBits(w, f, m, fp, phi, v) % 2 == Raw(w, f, m, fp, v) % 2
  {
    hide Raw;
    NarrowTwice(Raw(w, f, m, fp, v), I32, I1);
  }

  /** If k is the first overtaken phi, source j ends up with what phi k was given. */
  lemma {:induction false} Overtaken(w: World, n: nat, f: Fn, phis: seq<nat>, src: seq<Value>, reg: Reg, s: State, k: nat, j: nat)
    requires WfFn(f) && CopyOk(f, phis, src) && s.State? && Geo(f, s.regs[EBP]) && reg < 3
    requires Overtakes(f, phis, src, k, j)
    requires forall k', j' | 0 <= k' < k && k' < j' < |phis| :: !Overtakes(f, phis, src, k', j')
    ensures var t := Run(w, n, CopyAll(f, phis, src, reg), s);
      t.State? && SlotBits(f, t.mem, s.regs[EBP], Res(phis[j])) % 2 == Raw(w, f, s.mem, s.regs[EBP], src[k]) % 2
    decreases k
  {
    hide Run, SlotOf, SlotBits, WfFn, WfValue, Raw, CopyItems, Geo, SlotBytes, Root;
    var fp, tail, tsrc := s.regs[EBP], phis[1..], src[1..];
    var u := Run(w, n, CopyItems(f, phis[0], src[0], reg), s);
    CopyOne(w, n, f, phis[0], src[0], reg, s);
    CopiesRun(w, n, f, tail, tsrc, reg, u);
    RunAppend(w, n, CopyItems(f, phis[0], src[0], reg), CopyAll(f, tail, tsrc, reg), s);
    assert tail[j - 1] == phis[j] && tsrc[j - 1] == src[j];
    if k == 0 {
      SourceParity(w, f, s.mem, fp, phis[0], src[0]);
      assert forall i | 0 <= i < |tail| :: tail[i] == phis[i + 1];
      ReadsOvertaken(w, n, f, tail, tsrc, reg, u, j - 1, phis[0]);
    } else {
      assert tail[k - 1] == phis[k] && tsrc[k - 1] == src[k];
      forall k', j' | 0 <= k' < k - 1 && k' < j' < |tail| ensures !Overtakes(f, tail, tsrc, k', j') {
        assert !Overtakes(f, phis, src, k' + 1, j' + 1);
      }
      Overtaken(w, n, f, tail, tsrc, reg, u, k - 1, j - 1);
      assert !Overtakes(f, phis, src, 0, k);
      HeadHarmless(w, f, s.mem, u.mem, fp, phis, src, k);
    }
  }

  /** Copies that do not write phi p deliver p's current contents to whoever reads it. */
  lemma {:induction false} ReadsOvertaken(w: World, n: nat, f: Fn, phis: seq<nat>, src: seq<Value>, reg: Reg, s: State, j: nat, p: nat)
    requires WfFn(f) && CopyOk(f, phis, src) && s.State? && Geo(f, s.regs[EBP]) && reg < 3
    requires j < |phis| && Root(f, src[j]) == Use(Res(p)) && p < |f.body| && f.body[p].Phi?
    requires forall i | 0 <= i < |phis| :: phis[i] != p
    ensures var t := Run(w, n, CopyAll(f, phis, src, reg), s);
      t.State? && SlotBits(f, t.mem, s.regs[EBP], Res(phis[j])) % 2 == SlotBits(f, s.mem, s.regs[EBP], Res(p)) % 2
  {
    hide Run, SlotOf, SlotBits, WfFn, WfValue, CopyItems, Geo, SlotBytes, Root;
    var fp, tail, tsrc := s.regs[EBP], phis[1..], src[1..];
    var u := Run(w, n, CopyItems(f, phis[0], src[0], reg), s);
    CopyOne(w, n, f, phis[0], src[0], reg, s);
    CopiesRun(w, n, f, tail, tsrc, reg, u);
    RunAppend(w, n, CopyItems(f, phis[0], src[0], reg), CopyAll(f, tail, tsrc, reg), s);
    if j == 0 {
      SourceParity(w, f, s.mem, fp, phis[0], src[0]);
      SlotOutside(f, u.mem, Run(w, n, CopyAll(f, phis, src, reg), s).mem, fp, phis[0], tail);
    } else {
      assert tail[j - 1] == phis[j] && tsrc[j - 1] == src[j];
      ReadsOvertaken(w, n, f, tail, tsrc, reg, u, j - 1, p);
      OtherSlot(f, s.mem, u.mem, fp, p, phis[0]);
    }
  }

  lemma OtherSlot(f: Fn, m: Mem, m': Mem, fp: int, i: nat, j: nat)
    requires Owner(f, Res(i)) && Owner(f, Res(j)) && i != j
    requires forall a | !InSlot(f, fp, j, a) :: Byte(m', a) == Byte(m, a)
    ensures SlotBits(f, m', fp, Res(i)) == SlotBits(f, m, fp, Res(i))
  {
    hide SlotOf, SlotBytes;
    SlotsDisjoint(f, Res(i), Res(j));
    SlotSame(f, m, m', fp, Res(i));
  }

  lemma HeadHarmless(w: World, f: Fn, m: Mem, m': Mem, fp: int, phis: seq<nat>, src: seq<Value>, j: nat)
    requires WfFn(f) && CopyOk(f, phis, src) && 0 < j < |phis| && !Overtakes(f, phis, src, 0, j)
    requires SlotBits(f, m', fp, Res(phis[0])) == SourceBits(w, f, m, fp, phis[0], src[0])
    requires forall a | !InSlot(f, fp, phis[0], a) :: Byte(m', a) == Byte(m, a)
    ensures Raw(w, f, m', fp, src[j]) == Raw(w, f, m, fp, src[j])
  {
    hide SlotOf, SlotBits, WfFn, SlotBytes, Raw;
    var two, from := [phis[0], phis[j]], [src[0], src[j]];
    FirstCopyHarmless(w, f, m, m', fp, two, from, 1);
  }

  /** A memory in which phi p's slot has the given parity and every other byte is zero. */
  function Marked(f: Fn, fp: int, p: nat, bit: nat): Mem
    requires bit < 2
  {
    map[fp + SlotOf(f, Res(p)) := bit]
  }

  lemma MarkedReads(w: World, f: Fn, fp: int, p: nat, bit: nat, v: Value, ty: Type)
    requires WfFn(f) && p < |f.body| && f.body[p].Phi? && bit < 2 && WfValue(f, v, ty) && Root(f, v) != Use(Res(p))
    ensures SlotBits(f, Marked(f, fp, p, bit), fp, Res(p)) % 2 == bit
    ensures Raw(w, f, Marked(f, fp, p, bit), fp, v) == Raw(w, f, map[], fp, v)
  {
    hide SlotOf, WfFn, SlotBytes;
    var m := Marked(f, fp, p, bit);
    LowBit(m, fp + SlotOf(f, Res(p)));
    RootWf(f, v, ty);
    var root := Root(f, v);
    if root.Use? {
      SlotsDisjoint(f, root.r, Res(p));
      WidthPositive(f, Res(p));
      SlotSame(f, m, map[], fp, root.r);
    }
  }

  lemma WidthPositive(f: Fn, r: Ref)
    ensures SlotBytes(f, r) > 0
  {
  }

  lemma LowBit(m: Mem, a: int)
    ensures Read32(m, a) % 2 == Byte(m, a) % 2 && Read64(m, a) % 2 == Byte(m, a) % 2
  {
  }

  lemma FirstOvertaken(f: Fn, phis: seq<nat>, src: seq<Value>) returns (k: nat, j: nat)
    requires |phis| == |src| && !PhiSafe(f, phis, src)
    ensures Overtakes(f, phis, src, k, j)
    ensures forall k', j' | 0 <= k' < k && k' < j' < |phis| :: !Overtakes(f, phis, src, k', j')
  {
    hide Root;
    k := 0;
    while !exists j' :: Overtakes(f, phis, src, k, j')
      invariant k <= |phis|
      invariant forall k', j' | 0 <= k' < k && k' < j' < |phis| :: !Overtakes(f, phis, src, k', j')
      decreases |phis| - k
    {
      assert k < |phis| by {
        var k0, j0 :| 0 <= k0 < j0 < |phis| && Root(f, src[j0]) == Use(Res(phis[k0]))
                      && Root(f, src[k0]) != Use(Res(phis[k0]));
        assert Overtakes(f, phis, src, k0, j0);
      }
      k := k + 1;
    }
    j :| Overtakes(f, phis, src, k, j);
  }

  /** Sequential copying computes the simultaneous phi assignment from every machine state if
      and only if no source resolves to an earlier phi that is being changed. */
  lemma CopiesExact(w: World, n: nat, f: Fn, phis: seq<nat>, src: seq<Value>, reg: Reg)
    requires WfFn(f) && CopyOk(f, phis, src) && reg < 3 && Vars(f) + 8 + ArgsSize(f.params) <= W32
    ensures PhiSafe(f, phis, src)
            <==> forall s: State | s.State? && Geo(f, s.regs[EBP]) :: Simultaneous(w, n, f, phis, src, reg, s)
  {
    if PhiSafe(f, phis, src) {
      forall s: State | s.State? && Geo(f, s.regs[EBP]) ensures Simultaneous(w, n, f, phis, src, reg, s) {
        SafeIsSimultaneous(w, n, f, phis, src, reg, s);
      }
    } else {
      var s := CopiesFail(w, n, f, phis, src, reg);
    }
  }

  lemma SafeIsSimultaneous(w: World, n: nat, f: Fn, phis: seq<nat>, src: seq<Value>, reg: Reg, s: State)
    requires WfFn(f) && CopyOk(f, phis, src) && reg < 3 && s.State? && Geo(f, s.regs[EBP]) && PhiSafe(f, phis, src)
    ensures Simultaneous(w, n, f, phis, src, reg, s)
  {
    hide Run, SlotOf, SlotBits, WfFn, Raw, Geo, Root, PhiSafe, CopyAll;
    CopiesRun(w, n, f, phis, src, reg, s);
    forall j | 0 <= j < |phis|
      ensures SourceBits(w, f, s.mem, s.regs[EBP], phis[j], src[j]) % f.body[phis[j]].ResultType().Modulus()
              == Raw(w, f, s.mem, s.regs[EBP], src[j]) % f.body[phis[j]].ResultType().Modulus()
    {
      if !f.body[phis[j]].ResultType().I64? {
        NarrowWord(Raw(w, f, s.mem, s.regs[EBP], src[j]), f.body[phis[j]].ResultType());
      }
    }
  }

  /** A state from which overtaken copies go wrong. */
  lemma CopiesFail(w: World, n: nat, f: Fn, phis: seq<nat>, src: seq<Value>, reg: Reg) returns (s: State)
    requires WfFn(f) && CopyOk(f, phis, src) && reg < 3 && Vars(f) + 8 + ArgsSize(f.params) <= W32
    requires !PhiSafe(f, phis, src)
    ensures s.State? && Geo(f, s.regs[EBP]) && !Simultaneous(w, n, f, phis, src, reg, s)
  {
    hide Run, SlotOf, SlotBits, WfFn, Raw, Root, PhiSafe, CopyAll, WfValue;
    var k, j := FirstOvertaken(f, phis, src);
    var fp: word, p := Vars(f), phis[k];
    var bit := 1 - Raw(w, f, map[], fp, src[k]) % 2;
    var m := Marked(f, fp, p, bit);
    MarkedReads(w, f, fp, p, bit, src[k], f.body[p].ResultType());
    s := State([0, 0, 0, 0, 0, fp, 0, 0], Undefined, m, 0);
    Overtaken(w, n, f, phis, src, reg, s, k, j);
    RawOfRoot(w, f, m, fp, src[j], Res(p));
    var t := Run(w, n, CopyAll(f, phis, src, reg), s);
    var ty := f.body[phis[j]].ResultType();
    Parity(SlotBits(f, t.mem, fp, Res(phis[j])), ty);
    Parity(Raw(w, f, m, fp, src[j]), ty);
  }

  lemma RawOfRoot(w: World, f: Fn, m: Mem, fp: int, v: Value, r: Ref)
    requires Root(f, v) == Use(r)
    ensures Raw(w, f, m, fp, v) == SlotBits(f, m, fp, r)
  {
  }

  lemma Parity(x: nat, ty: Type)
    ensures (x % ty.Modulus()) % 2 == x % 2
  {
    NarrowTwice(x, ty, I1);
  }

  // ----- Copies of an edge that is not taken -----

  /** From state s the copies leave every phi's value as it was. */
  ghost predicate Harmless(w: World, k: nat, f: Fn, phis: seq<nat>, src: seq<Value>, reg: Reg, s: State)
    requires CopyOk(f, phis, src) && s.State?
  {
    var t := Run(w, k, CopyAll(f, phis, src, reg), s);
    t.State? && forall j | 0 <= j < |phis| ::
      var m := f.body[phis[j]].ResultType().Modulus();
      SlotBits(f, t.mem, s.regs[EBP], Res(phis[j])) % m == SlotBits(f, s.mem, s.regs[EBP], Res(phis[j])) % m
  }

  /** The first phi with a foreign source is given that source's value. */
  lemma {:induction false} FirstForeign(w: World, n: nat, f: Fn, phis: seq<nat>, src: seq<Value>, reg: Reg, s: State, j: nat)
    requires WfFn(f) && CopyOk(f, phis, src) && s.State? && Geo(f, s.regs[EBP]) && reg < 3
    requires j < |phis| && forall i | 0 <= i < j :: SelfCopy(f, phis, src, i)
    ensures var t := Run(w, n, CopyAll(f, phis, src, reg), s);
      t.State? && SlotBits(f, t.mem, s.regs[EBP], Res(phis[j])) % 2 == Raw(w, f, s.mem, s.regs[EBP], src[j]) % 2
    decreases j
  {
    hide Run, SlotOf, SlotBits, WfFn, WfValue, Raw, CopyItems, Geo, SlotBytes, Root;
    var fp, tail, tsrc := s.regs[EBP], phis[1..], src[1..];
    var u := Run(w, n, CopyItems(f, phis[0], src[0], reg), s);
    CopyOne(w, n, f, phis[0], src[0], reg, s);
    CopiesRun(w, n, f, tail, tsrc, reg, u);
    RunAppend(w, n, CopyItems(f, phis[0], src[0], reg), CopyAll(f, tail, tsrc, reg), s);
    if j == 0 {
      SourceParity(w, f, s.mem, fp, phis[0], src[0]);
      SlotOutside(f, u.mem, Run(w, n, CopyAll(f, phis, src, reg), s).mem, fp, phis[0], tail);
    } else {
      assert tail[j - 1] == phis[j] && tsrc[j - 1] == src[j];
      forall i | 0 <= i < j - 1 ensures SelfCopy(f, tail, tsrc, i) {
        assert SelfCopy(f, phis, src, i + 1);
      }
      FirstForeign(w, n, f, tail, tsrc, reg, u, j - 1);
      assert SelfCopy(f, phis, src, 0);
      HeadHarmless(w, f, s.mem, u.mem, fp, phis, src, j);
    }
  }

  /** The copies of an edge that is not taken can be run without damage from every machine state if
      and only if every phi's source on that edge is the phi itself. */
  lemma UntakenExact(w: World, n: nat, f: Fn, phis: seq<nat>, src: seq<Value>, reg: Reg)
    requires WfFn(f) && CopyOk(f, phis, src) && reg < 3 && Vars(f) + 8 + ArgsSize(f.params) <= W32
    ensures (forall j | 0 <= j < |phis| :: SelfCopy(f, phis, src, j))
            <==> forall s: State | s.State? && Geo(f, s.regs[EBP]) :: Harmless(w, n, f, phis, src, reg, s)
  {
    hide Root, WfFn, WfValue, Geo, Harmless;
    if forall j | 0 <= j < |phis| :: SelfCopy(f, phis, src, j) {
      assert PhiSafe(f, phis, src) by {
        forall i, j | 0 <= i < j < |phis| ensures Root(f, src[j]) != Use(Res(phis[i])) {
          assert SelfCopy(f, phis, src, j);
        }
      }
      forall s: State | s.State? && Geo(f, s.regs[EBP]) ensures Harmless(w, n, f, phis, src, reg, s) {
        SelfIsHarmless(w, n, f, phis, src, reg, s);
      }
    } else {
      var s := UntakenFails(w, n, f, phis, src, reg);
    }
  }

  lemma SelfIsHarmless(w: World, n: nat, f: Fn, phis: seq<nat>, src: seq<Value>, reg: Reg, s: State)
    requires WfFn(f) && CopyOk(f, phis, src) && reg < 3 && s.State? && Geo(f, s.regs[EBP]) && PhiSafe(f, phis, src)
    requires forall j | 0 <= j < |phis| :: SelfCopy(f, phis, src, j)
    ensures Harmless(w, n, f, phis, src, reg, s)
  {
    hide Run, SlotOf, SlotBits, WfFn, Raw, Geo, Root, PhiSafe, CopyAll;
    SafeIsSimultaneous(w, n, f, phis, src, reg, s);
    forall j | 0 <= j < |phis|
      ensures Raw(w, f, s.mem, s.regs[EBP], src[j]) == SlotBits(f, s.mem, s.regs[EBP], Res(phis[j]))
    {
      assert SelfCopy(f, phis, src, j);
      RawOfRoot(w, f, s.mem, s.regs[EBP], src[j], Res(phis[j]));
    }
  }

  /** A state in which a foreign source overwrites a phi of the successor that is not entered. */
  lemma UntakenFails(w: World, n: nat, f: Fn, phis: seq<nat>, src: seq<Value>, reg: Reg) returns (s: State)
    requires WfFn(f) && CopyOk(f, phis, src) && reg < 3 && Vars(f) + 8 + ArgsSize(f.params) <= W32
    requires exists j :: 0 <= j < |phis| && !SelfCopy(f, phis, src, j)
    ensures s.State? && Geo(f, s.regs[EBP]) && !Harmless(w, n, f, phis, src, reg, s)
  {
    hide Run, SlotOf, SlotBits, WfFn, Raw, Root, PhiSafe, CopyAll, WfValue;
    var j := 0;
    while SelfCopy(f, phis, src, j)
      invariant j < |phis| && forall i | 0 <= i < j :: SelfCopy(f, phis, src, i)
      decreases |phis| - j
    {
      j := j + 1;
    }
    var fp: word, p := Vars(f), phis[j];
    var bit := 1 - Raw(w, f, map[], fp, src[j]) % 2;
    var m := Marked(f, fp, p, bit);
    MarkedReads(w, f, fp, p, bit, src[j], f.body[p].ResultType());
    s := State([0, 0, 0, 0, 0, fp, 0, 0], Undefined, m, 0);
    FirstForeign(w, n, f, phis, src, reg, s, j);
    var t := Run(w, n, CopyAll(f, phis, src, reg), s);
    Parity(SlotBits(f, t.mem, fp, Res(p)), f.body[p].ResultType());
    Parity(SlotBits(f, m, fp, Res(p)), f.body[p].ResultType());
  }
}
