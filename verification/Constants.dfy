/** Constant expressions over globals, and expand_constant, which reduces them to a global plus
    a 64-bit offset. */
module Constants {
  import opened Words
  import opened IrOps
  import opened Ir
  import opened Layout

  datatype Constant =
    | Global(g: GlobalRef)
    | Int(t: Type, n: nat)
    | Null
    | Undef(t: Type)
    | Gep(base: Constant, ty: Ty, idx: seq<int>)
    | CastTo(e: Constant, to: Type)               // bitcast, ptrtoint, inttoptr
  {
    function TypeOf(): Type {
      match this
      case Global(_) => Ptr
      case Int(t, _) => t
      case Null => Ptr
      case Undef(t) => t
      case Gep(_, _, _) => Ptr
      case CastTo(_, to) => to
    }
  }

  /** What LLVM's types guarantee; casts are between integers and pointers of at least 32 bits. */
  predicate Wf(e: Constant) {
    match e
    case Global(_) => true
    case Int(t, n) => n < t.Modulus()
    case Null => true
    case Undef(_) => true
    case Gep(base, ty, idx) => Wf(base) && base.TypeOf().Ptr? && idx != [] && PathOk(ty, idx[1..])
    case CastTo(e', to) => Wf(e') && e'.TypeOf().Bits() >= 32 && to.Bits() >= 32
  }

  /** expand_constant */
  function Expand(e: Constant): (r: (Option<GlobalRef>, nat))
    requires Wf(e)
  {
    match e
    case Global(g) => (Some(g), 0)
    case Int(_, n) => (None, n)
    case Null => (None, 0)
    case Undef(_) => (None, 0)
    case Gep(base, ty, idx) =>
      var (g, off) := Expand(base);
      (g, (off + GepOffset(ty, idx) % W64) % W64)
    case CastTo(e', _) => Expand(e')
  }

  function AddressIn(addresses: map<GlobalRef, word>, g: Option<GlobalRef>): word {
    if g.Some? && g.value in addresses then addresses[g.value] else 0
  }

  /** The number the generated code works with: a 32-bit field holds its residue. */
  function Expanded(addresses: map<GlobalRef, word>, e: Constant): nat
    requires Wf(e)
  {
    Expand(e).1 + AddressIn(addresses, Expand(e).0)
  }

  /** LLVM's value of a constant; undefined values are taken to be zero. */
  function Meaning(addresses: map<GlobalRef, word>, e: Constant): (v: nat)
    requires Wf(e)
    ensures v < e.TypeOf().Modulus()
  {
    match e
    case Global(g) => AddressIn(addresses, Some(g))
    case Int(_, n) => n
    case Null => 0
    case Undef(_) => 0
    case Gep(base, ty, idx) => (Meaning(addresses, base) + GepOffset(ty, idx)) % W32
    case CastTo(e', to) => Meaning(addresses, e') % to.Modulus()
  }

  /** Whether a 32-bit type occurs on the way from the constant's root. */
  predicate ThroughWord(e: Constant) {
    match e
    case Gep(_, _, _) => true
    case CastTo(e', to) => !to.I64? || ThroughWord(e')
    case _ => e.TypeOf().Bits() == 32
  }

  lemma WrapThenWord(x: int)
    ensures x % W64 % W32 == x % W32
  {
    ModMod(x, W32, W32);
  }

  /** The low word is always right, through any nesting of getelementptr and casts and for
      negative indices too. */
  lemma {:induction false} ExpandLowWord(addresses: map<GlobalRef, word>, e: Constant)
    requires Wf(e)
    ensures Expanded(addresses, e) % W32 == Meaning(addresses, e) % W32
  {
    hide GepOffset, PathOk, AddressIn;
    match e {
      case Gep(base, ty, idx) =>
        ExpandLowWord(addresses, base);
        GepLow(Expand(base).1, GepOffset(ty, idx), AddressIn(addresses, Expand(base).0), Meaning(addresses, base));
      case CastTo(e', to) =>
        ExpandLowWord(addresses, e');
        CastLow(Meaning(addresses, e'), to);
      case _ => RootLow(addresses, e);
    }
  }

  lemma RootLow(addresses: map<GlobalRef, word>, e: Constant)
    requires Wf(e) && !e.Gep? && !e.CastTo?
    ensures Expanded(addresses, e) % W32 == Meaning(addresses, e) % W32
  {
    hide GepOffset, PathOk;
  }

  lemma CastLow(m: nat, to: Type)
    requires to.Bits() >= 32
    ensures m % to.Modulus() % W32 == m % W32
  {
    if to.I64? {
      WrapThenWord(m);
    } else {
      DivModUnique(m % W32, W32, 0, m % W32);
    }
  }

  lemma GepLow(off: nat, x: int, a: nat, m: nat)
    requires (off + a) % W32 == m % W32
    ensures ((off + x % W64) % W64 + a) % W32 == (m + x) % W32 % W32
  {
    var o := (off + x % W64) % W64;
    calc {
      (o + a) % W32;
      { ModAdd(o, a, W32); WrapSum(off, x); ModAdd(off + x, a, W32); }
      (off + x + a) % W32;
      { ModAdd(off + a, x, W32); ModAdd(m, x, W32); }
      (m + x) % W32;
      { DivModUnique((m + x) % W32, W32, 0, (m + x) % W32); }
      (m + x) % W32 % W32;
    }
  }

  lemma WrapSum(off: nat, x: int)
    ensures (off + x % W64) % W64 % W32 == (off + x) % W32
  {
    ModAdd(off, x, W64);
    ModAdd(off, x % W64, W64);
    DivModUnique(x % W64, W64, 0, x % W64);
    WrapThenWord(off + x);
  }

  /** The number at the root of a constant plus the byte distance of every getelementptr on the way. */
  function Sum(e: Constant): int
    requires Wf(e)
  {
    match e
    case Global(_) => 0
    case Int(_, n) => n
    case Null => 0
    case Undef(_) => 0
    case Gep(base, ty, idx) => Sum(base) + GepOffset(ty, idx)
    case CastTo(e', _) => Sum(e')
  }

  /** The global at the root of a constant, if there is one. */
  function BaseGlobal(e: Constant): Option<GlobalRef> {
    match e
    case Global(g) => Some(g)
    case Gep(base, _, _) => BaseGlobal(base)
    case CastTo(e', _) => BaseGlobal(e')
    case _ => None
  }

  /** Whatever casts intervene, expand_constant adds everything up in 64 bits. */
  lemma {:induction false} ExpandIsSum(e: Constant)
    requires Wf(e)
    ensures Expand(e) == (BaseGlobal(e), Sum(e) % W64)
  {
    hide PathOk, GepOffset;
    match e {
      case Int(t, n) =>
        ModulusIsAtMost64(t);
        DivModUnique(n, W64, 0, n);
      case Gep(base, ty, idx) =>
        ExpandIsSum(base);
        SumWraps(Sum(base), GepOffset(ty, idx));
      case CastTo(e', _) => ExpandIsSum(e');
      case _ =>
    }
  }

  lemma ModulusIsAtMost64(t: Type)
    ensures t.Modulus() <= W64
  {
  }

  lemma SumWraps(a: int, x: int)
    ensures (a % W64 + x % W64) % W64 == (a + x) % W64
  {
    ModAdd(a, x % W64, W64);
    ModAdd(a, x, W64);
    DivModUnique(x % W64, W64, 0, x % W64);
  }

  /** Whether a 64-bit constant survives expansion: no 32-bit type on the way, or nothing that such
      a type should have cut off. */
  predicate Survives(e: Constant)
    requires Wf(e)
  {
    ThroughWord(e) ==> Sum(e) % W64 < W32
  }

  /** A 64-bit constant without a global is expanded to LLVM's value exactly when it survives. */
  lemma ExpandExact(addresses: map<GlobalRef, word>, e: Constant)
    requires Wf(e) && e.TypeOf().I64? && BaseGlobal(e).None?
    ensures Expand(e) == (None, Sum(e) % W64)
    ensures Sum(e) % W64 == Meaning(addresses, e) <==> Survives(e)
  {
    ExpandIsSum(e);
    ExpandLowWord(addresses, e);
    if ThroughWord(e) {
      MeaningIsWord(addresses, e);
      WordResidue(Sum(e) % W64);
      WordResidue(Meaning(addresses, e));
    } else {
      WideExact(addresses, e);
    }
  }

  lemma WordResidue(x: nat)
    ensures x < W32 <==> x % W32 == x
  {
  }

  lemma {:induction false} MeaningIsWord(addresses: map<GlobalRef, word>, e: Constant)
    requires Wf(e) && ThroughWord(e)
    ensures Meaning(addresses, e) < W32
  {
    match e {
      case CastTo(e', to) =>
        if ThroughWord(e') {
          MeaningIsWord(addresses, e');
          if to.I64? {
            DivModUnique(Meaning(addresses, e'), W64, 0, Meaning(addresses, e'));
          }
        }
      case _ =>
    }
  }

  lemma {:induction false} WideExact(addresses: map<GlobalRef, word>, e: Constant)
    requires Wf(e) && e.TypeOf().I64? && !ThroughWord(e)
    ensures Expand(e).1 == Meaning(addresses, e)
  {
    match e {
      case CastTo(e', to) =>
        assert e'.TypeOf().I64?;
        WideExact(addresses, e');
        DivModUnique(Meaning(addresses, e'), W64, 0, Meaning(addresses, e'));
      case _ =>
    }
  }

  /** A 64-bit constant cast to a pointer and back keeps its high word, which LLVM's casts drop. */
  lemma TruncationLost(addresses: map<GlobalRef, word>)
    ensures var e := CastTo(CastTo(Int(I64, W32 + 1), Ptr), I64);
      Wf(e) && Expand(e).1 == W32 + 1 && Meaning(addresses, e) == 1
  {
    hide PathOk, GepOffset;
    var n := Int(I64, W32 + 1);
    var p := CastTo(n, Ptr);
    assert Wf(n) && Expand(n).1 == W32 + 1 && Meaning(addresses, n) == W32 + 1;
    assert Wf(p) && Expand(p).1 == W32 + 1 && Meaning(addresses, p) == 1;
    assert Wf(CastTo(p, I64)) && Meaning(addresses, CastTo(p, I64)) == 1;
  }

  /** The middle field of the padded struct two objects behind a global, and one before it. */
  lemma FieldAddresses(addresses: map<GlobalRef, word>, g: GlobalRef)
    requires g in addresses
    ensures var e := Gep(Global(g), TStruct(MIXED, false), [2, 1]);
      Wf(e) && Expand(e) == (Some(g), 28) && Meaning(addresses, e) == (addresses[g] + 28) % W32
    ensures var e := Gep(Global(g), TStruct(MIXED, false), [-1, 1]);
      Wf(e) && Expand(e) == (Some(g), W64 - 8) && Meaning(addresses, e) == (addresses[g] - 8) % W32
  {
    hide AllocSize, ElementOffset;
    PaddedStruct();
    var ty := TStruct(MIXED, false);
    assert [2, 1][1..] == [1] && [-1, 1][1..] == [1] && [1][1..] == [];
    assert GepOffset(ty, [2, 1]) == 28 && GepOffset(ty, [-1, 1]) == -8;
  }

  /** The last field's offset, written as its address from null. */
  lemma FieldOffset(addresses: map<GlobalRef, word>)
    ensures var e := Gep(Null, TStruct(MIXED, false), [0, 2]);
      Wf(e) && Expand(e) == (None, 8) && Meaning(addresses, e) == 8
  {
    hide AllocSize, ElementOffset;
    PaddedStruct();
    assert [0, 2][1..] == [2] && [2][1..] == [];
    assert GepOffset(TStruct(MIXED, false), [0, 2]) == 8;
  }

  /** The last field of a padded struct. */
  lemma FieldOfGlobal(g: GlobalRef)
    ensures var e := Gep(Global(g), TStruct(MIXED, false), [0, 2]); Wf(e) && Expand(e) == (Some(g), 8)
  {
    hide AllocSize, ElementOffset;
    PaddedStruct();
    assert [0, 2][1..] == [2] && [2][1..] == [];
    assert GepOffset(TStruct(MIXED, false), [0, 2]) == 8;
  }
}
