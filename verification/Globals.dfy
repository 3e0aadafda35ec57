/** Initialisers of global variables: the bytes write_global lays down and where they are found. */
module Globals {
  import opened Words
  import opened IrOps
  import opened Encoding
  import opened Ir
  import opened Layout
  import opened Constants
  import opened Emission
  import opened Buffers
  import opened CodeBuffer

  datatype Init =
    | Zero(ty: Ty)                              // zeroinitializer, undef
    | Elements(elem: Ty, elems: seq<Init>)
    | Data(t: Type, values: seq<nat>)           // an array of plain numbers
    | Fields(fields: seq<Init>, packed: bool)
    | Leaf(t: Type, e: Constant)

  function TyOf(init: Init): Ty
    decreases init
  {
    match init
    case Zero(ty) => ty
    case Elements(elem, elems) => TArray(|elems|, elem)
    case Data(t, values) => TArray(|values|, TScalar(t))
    case Fields(fields, packed) => TStruct(TysOf(fields), packed)
    case Leaf(t, _) => TScalar(t)
  }

  function TysOf(inits: seq<Init>): (tys: seq<Ty>)
    ensures |tys| == |inits| && forall i | 0 <= i < |inits| :: tys[i] == TyOf(inits[i])
    decreases inits
  {
    if inits == [] then [] else [TyOf(inits[0])] + TysOf(inits[1..])
  }

  /** Well-typed, and addresses only where the generator can relocate them. */
  predicate WfInit(init: Init)
    decreases init
  {
    match init
    case Zero(_) => true
    case Elements(elem, elems) => forall i | 0 <= i < |elems| :: WfInit(elems[i]) && TyOf(elems[i]) == elem
    case Data(t, values) => forall i | 0 <= i < |values| :: values[i] < t.Modulus()
    case Fields(fields, _) => forall i | 0 <= i < |fields| :: WfInit(fields[i])
    case Leaf(t, e) =>
      Wf(e) && e.TypeOf() == t && (Expand(e).0.Some? ==> SizeOf(t) == 4 && Expand(e).1 < W32)
  }

  // ----- The image -----

  /** The n low bytes of x, least significant first. */
  function LeBytes(x: nat, n: nat): (b: seq<byte>)
    ensures |b| == n
  {
    if n == 0 then [] else [x % W8] + LeBytes(x / W8, n - 1)
  }

  /** The number a scalar initialiser stands for when globals are at the given addresses. */
  function LeafValue(addresses: map<GlobalRef, word>, e: Constant): nat
    requires Wf(e)
  {
    var (g, off) := Expand(e);
    if g.Some? then (off + AddressIn(addresses, g)) % W32 else off
  }

  /** LLVM's value of a scalar part of an initialiser. */
  function ScalarMeaning(addresses: map<GlobalRef, word>, init: Init): nat
    requires WfInit(init) && TyOf(init).TScalar?
  {
    if init.Leaf? then Meaning(addresses, init.e) else 0
  }

  /** Whether the bytes laid down for a scalar can hold LLVM's value. */
  predicate Representable(init: Init)
    requires WfInit(init)
  {
    init.Leaf? && init.t.I64? ==> Survives(init.e)
  }

  function ScalarBytes(addresses: map<GlobalRef, word>, init: Init): nat
    requires WfInit(init) && TyOf(init).TScalar?
  {
    if init.Leaf? then LeafValue(addresses, init.e) else 0
  }

  lemma {:induction false} ZerosAreZero(n: nat)
    ensures LeBytes(0, n) == Zeros(n)
  {
    if n > 0 {
      ZerosAreZero(n - 1);
      assert Zeros(n) == [0] + Zeros(n - 1);
    }
  }

  /** What is laid down for a scalar is LLVM's value exactly when that is representable: always,
      except for 64-bit constants that lost their upper half on the way. */
  lemma ScalarExact(addresses: map<GlobalRef, word>, init: Init)
    requires WfInit(init) && TyOf(init).TScalar?
    ensures ScalarBytes(addresses, init) % TyOf(init).t.Modulus() == ScalarMeaning(addresses, init) <==> Representable(init)
  {
    if init.Leaf? {
      var t, e := init.t, init.e;
      ExpandIsSum(e);
      if t.I64? {
        ExpandExact(addresses, e);
        DivModUnique(Sum(e) % W64, W64, 0, Sum(e) % W64);
      } else {
        ExpandLowWord(addresses, e);
        LeafLowWord(addresses, e);
        NarrowWord(LeafValue(addresses, e), t);
        NarrowWord(Meaning(addresses, e), t);
        DivModUnique(Meaning(addresses, e), t.Modulus(), 0, Meaning(addresses, e));
      }
    } else {
      DivModUnique(0, TyOf(init).t.Modulus(), 0, 0);
    }
  }

  lemma LeafLowWord(addresses: map<GlobalRef, word>, e: Constant)
    requires Wf(e)
    ensures LeafValue(addresses, e) % W32 == Expanded(addresses, e) % W32
  {
    ModMod(Expanded(addresses, e), W32, 1);
    DivModUnique(Expanded(addresses, e) % W32, W32, 0, Expanded(addresses, e) % W32);
  }

  /** Where the bytes of field i and its padding end. */
  function FieldLimit(tys: seq<Ty>, packed: bool, i: nat): nat
    requires i < |tys|
  {
    if i + 1 < |tys| then ElementOffset(tys, packed, i + 1) else AllocSize(TStruct(tys, packed))
  }

  lemma PaddingFits(tys: seq<Ty>, packed: bool, i: nat)
    requires i < |tys|
    ensures ElementOffset(tys, packed, i) + AllocSize(tys[i]) <= FieldLimit(tys, packed, i)
  {
    hide RoundUp, Align;
    assert FieldsEnd(tys, packed, i + 1) == ElementOffset(tys, packed, i) + AllocSize(tys[i]);
  }

  function Padding(tys: seq<Ty>, packed: bool, i: nat): (n: nat)
    requires i < |tys|
    ensures ElementOffset(tys, packed, i) + AllocSize(tys[i]) + n == FieldLimit(tys, packed, i)
  {
    PaddingFits(tys, packed, i);
    FieldLimit(tys, packed, i) - ElementOffset(tys, packed, i) - AllocSize(tys[i])
  }

  /** The image of an initialiser. With no addresses known it is what is first written. */
  function Bytes(addresses: map<GlobalRef, word>, init: Init): (b: seq<byte>)
    requires WfInit(init)
    ensures |b| == AllocSize(TyOf(init))
    decreases init
  {
    match init
    case Zero(ty) => Zeros(AllocSize(ty))
    case Elements(elem, elems) => ElementBytes(addresses, elem, elems)
    case Data(t, values) => NumberBytes(t, values)
    case Fields(fields, packed) => (StartIsZero(fields, packed); FieldBytes(addresses, fields, packed, 0))
    case Leaf(t, e) => LeBytes(LeafValue(addresses, e), SizeOf(t))
  }

  lemma OneMore(n: nat, a: nat)
    ensures (n + 1) * a == a + n * a
  {
  }

  function ElementBytes(addresses: map<GlobalRef, word>, elem: Ty, elems: seq<Init>): (b: seq<byte>)
    requires forall i | 0 <= i < |elems| :: WfInit(elems[i]) && TyOf(elems[i]) == elem
    ensures |b| == |elems| * AllocSize(elem)
    decreases elems
  {
    if elems == [] then [] else
    OneMore(|elems| - 1, AllocSize(elem));
    Bytes(addresses, elems[0]) + ElementBytes(addresses, elem, elems[1..])
  }

  function NumberBytes(t: Type, values: seq<nat>): (b: seq<byte>)
    ensures |b| == |values| * SizeOf(t)
  {
    if values == [] then [] else LeBytes(values[0], SizeOf(t)) + NumberBytes(t, values[1..])
  }

  function StartOf(fields: seq<Init>, packed: bool, i: nat): nat
    requires i <= |fields|
  {
    if i < |fields| then ElementOffset(TysOf(fields), packed, i) else AllocSize(TStruct(TysOf(fields), packed))
  }

  lemma StartIsZero(fields: seq<Init>, packed: bool)
    ensures StartOf(fields, packed, 0) == 0
  {
    if fields == [] {
      EmptyStruct(packed);
    } else {
      FirstField(TysOf(fields), packed);
    }
  }

  lemma EmptyStruct(packed: bool)
    ensures AllocSize(TStruct([], packed)) == 0
  {
    assert FieldsEnd([], packed, 0) == 0;
  }

  lemma FirstField(tys: seq<Ty>, packed: bool)
    requires tys != []
    ensures ElementOffset(tys, packed, 0) == 0
  {
  }

  /** Field i and everything behind it. */
  function FieldBytes(addresses: map<GlobalRef, word>, fields: seq<Init>, packed: bool, i: nat): (b: seq<byte>)
    requires i <= |fields| && forall j | 0 <= j < |fields| :: WfInit(fields[j])
    ensures StartOf(fields, packed, i) + |b| == AllocSize(TStruct(TysOf(fields), packed))
    decreases fields, |fields| - i
  {
    if i == |fields| then []
    else Bytes(addresses, fields[i]) + Zeros(Padding(TysOf(fields), packed, i)) + FieldBytes(addresses, fields, packed, i + 1)
  }

  /** The address fields of an initialiser placed at offset off of the data segment. */
  function Relocs(init: Init, off: nat): seq<GlobalReloc>
    requires WfInit(init)
    decreases init
  {
    match init
    case Elements(elem, elems) => ElementRelocs(elem, elems, off)
    case Fields(fields, packed) => FieldRelocs(fields, packed, 0, off)
    case Leaf(_, e) => if Expand(e).0.Some? then [(InData(off), Expand(e).0.value)] else []
    case _ => []
  }

  function ElementRelocs(elem: Ty, elems: seq<Init>, off: nat): seq<GlobalReloc>
    requires forall i | 0 <= i < |elems| :: WfInit(elems[i]) && TyOf(elems[i]) == elem
    decreases elems
  {
    if elems == [] then [] else Relocs(elems[0], off) + ElementRelocs(elem, elems[1..], off + AllocSize(elem))
  }

  /** Relocations of field i and those behind it, in a struct placed at off. */
  function FieldRelocs(fields: seq<Init>, packed: bool, i: nat, off: nat): seq<GlobalReloc>
    requires i <= |fields| && forall j | 0 <= j < |fields| :: WfInit(fields[j])
    decreases fields, |fields| - i
  {
    if i == |fields| then []
    else Relocs(fields[i], off + StartOf(fields, packed, i)) + FieldRelocs(fields, packed, i + 1, off)
  }

  // ----- write_global -----

  lemma LeIs(x: word)
    ensures Le(x) == LeBytes(x, 4)
  {
    assert LeBytes(x, 4) == [x % W8] + LeBytes(x / W8, 3);
    assert LeBytes(x / W8, 3) == [x / W8 % W8] + LeBytes(x / W8 / W8, 2);
    assert LeBytes(x / W8 / W8, 2) == [x / W8 / W8 % W8] + LeBytes(x / W8 / W8 / W8, 1);
    assert LeBytes(x / W8 / W8 / W8, 1) == [x / W8 / W8 / W8 % W8] + LeBytes(x / W8 / W8 / W8 / W8, 0);
    assert x / W8 / W8 == x / W16 && x / W8 / W8 / W8 == x / (W16 * W8);
  }

  lemma PendingLeaf(e: Constant)
    requires Wf(e) && (Expand(e).0.Some? ==> Expand(e).1 < W32)
    ensures LeafValue(map[], e) == Expand(e).1
  {
  }

  /** Lay an initialiser down at the end of the data segment. */
  method WriteGlobal(cb: CodeBuf, init: Init)
    requires cb.Separate() && WfInit(init)
    modifies cb`globalRelocs, cb.data, cb.data.buf
    ensures cb.Separate() && cb.data.contents == old(cb.data.contents) + Bytes(map[], init)
    ensures cb.globalRelocs == old(cb.globalRelocs) + Relocs(init, |old(cb.data.contents)|)
    decreases init
  {
    match init {
      case Zero(ty) =>
        var _ := cb.data.PutAllocSpace(AllocSize(ty));
      case Elements(elem, elems) => WriteElements(cb, elem, elems);
      case Data(t, values) => cb.data.PutBytes(NumberBytes(t, values));
      case Fields(fields, packed) => WriteFields(cb, fields, packed);
      case Leaf(t, e) => WriteLeaf(cb, t, e);
    }
  }

  /** A scalar; one that refers to a global is also recorded for relocation. */
  method WriteLeaf(cb: CodeBuf, t: Type, e: Constant)
    requires cb.Separate() && WfInit(Leaf(t, e))
    modifies cb`globalRelocs, cb.data, cb.data.buf
    ensures cb.Separate() && cb.data.contents == old(cb.data.contents) + LeBytes(LeafValue(map[], e), SizeOf(t))
    ensures cb.globalRelocs == old(cb.globalRelocs)
              + if Expand(e).0.Some? then [(InData(|old(cb.data.contents)|), Expand(e).0.value)] else []
  {
    hide Expand, LeBytes, LeafValue, Le;
    PendingLeaf(e);
    var (global, offset) := Expand(e);
    if global.Some? {
      LeIs(offset);
      cb.globalRelocs := cb.globalRelocs + [(InData(cb.data.current), global.value)];
      cb.data.PutUint32(offset);
    } else {
      cb.data.PutBytes(LeBytes(offset, SizeOf(t)));
    }
  }

  method WriteElements(cb: CodeBuf, elem: Ty, elems: seq<Init>)
    requires cb.Separate() && forall i | 0 <= i < |elems| :: WfInit(elems[i]) && TyOf(elems[i]) == elem
    modifies cb`globalRelocs, cb.data, cb.data.buf
    ensures cb.Separate() && cb.data.contents == old(cb.data.contents) + ElementBytes(map[], elem, elems)
    ensures cb.globalRelocs == old(cb.globalRelocs) + ElementRelocs(elem, elems, |old(cb.data.contents)|)
    decreases elems
  {
    hide Bytes, Relocs, AllocSize, TyOf, WfInit, ElementBytes, ElementRelocs, CodeBuf.Separate;
    var i := 0;
    assert elems[0..] == elems;
    while i < |elems|
      invariant 0 <= i <= |elems| && cb.Separate()
      invariant cb.data.contents + ElementBytes(map[], elem, elems[i..]) == old(cb.data.contents) + ElementBytes(map[], elem, elems)
      invariant cb.globalRelocs + ElementRelocs(elem, elems[i..], |cb.data.contents|)
                == old(cb.globalRelocs) + ElementRelocs(elem, elems, |old(cb.data.contents)|)
    {
      ElementStep(elem, elems, i, |cb.data.contents|);
      WriteGlobal(cb, elems[i]);
      i := i + 1;
    }
    assert elems[i..] == [];
    NoElements(elem, |cb.data.contents|);
  }

  lemma ElementStep(elem: Ty, elems: seq<Init>, i: nat, off: nat)
    requires i < |elems| && forall j | 0 <= j < |elems| :: WfInit(elems[j]) && TyOf(elems[j]) == elem
    ensures ElementBytes(map[], elem, elems[i..]) == Bytes(map[], elems[i]) + ElementBytes(map[], elem, elems[i + 1..])
    ensures ElementRelocs(elem, elems[i..], off)
            == Relocs(elems[i], off) + ElementRelocs(elem, elems[i + 1..], off + |Bytes(map[], elems[i])|)
  {
    hide Bytes, Relocs, AllocSize, TyOf, WfInit;
    assert elems[i..][0] == elems[i] && elems[i..][1..] == elems[i + 1..];
  }

  lemma NoElements(elem: Ty, off: nat)
    ensures ElementBytes(map[], elem, []) == [] && ElementRelocs(elem, [], off) == []
  {
  }

  lemma NextStart(fields: seq<Init>, packed: bool, i: nat)
    requires i < |fields|
    ensures var tys := TysOf(fields);
      var next := if i == |fields| - 1 then AllocSize(TStruct(tys, packed)) else ElementOffset(tys, packed, i + 1);
      && next == StartOf(fields, packed, i + 1)
      && next - StartOf(fields, packed, i) - AllocSize(tys[i]) == Padding(tys, packed, i)
      && AllocSize(tys[i]) == AllocSize(TyOf(fields[i]))
  {
    hide AllocSize, ElementOffset, TyOf;
  }

  lemma FieldStep(fields: seq<Init>, packed: bool, i: nat, off: nat)
    requires (forall j | 0 <= j < |fields| :: WfInit(fields[j])) && i < |fields|
    ensures FieldBytes(map[], fields, packed, i)
            == Bytes(map[], fields[i]) + Zeros(Padding(TysOf(fields), packed, i)) + FieldBytes(map[], fields, packed, i + 1)
    ensures FieldRelocs(fields, packed, i, off)
            == Relocs(fields[i], off + StartOf(fields, packed, i)) + FieldRelocs(fields, packed, i + 1, off)
  {
    hide Bytes, Relocs, AllocSize, WfInit, ElementOffset, TyOf;
  }

  lemma LastField(fields: seq<Init>, packed: bool, off: nat)
    requires forall j | 0 <= j < |fields| :: WfInit(fields[j])
    ensures FieldBytes(map[], fields, packed, |fields|) == [] && FieldRelocs(fields, packed, |fields|, off) == []
  {
    hide Bytes, Relocs, AllocSize, WfInit;
  }

  method PutPadding(cb: CodeBuf, size: nat)
    requires cb.Separate()
    modifies cb.data
    ensures cb.Separate() && cb.data.contents == old(cb.data.contents) + Zeros(size)
  {
    var _ := cb.data.PutAllocSpace(size);
  }

  /** Field i and the padding behind it. */
  method WriteField(cb: CodeBuf, fields: seq<Init>, packed: bool, i: nat, prevOffset: nat) returns (nextOffset: nat)
    requires cb.Separate() && (forall j | 0 <= j < |fields| :: WfInit(fields[j])) && i < |fields| && prevOffset == StartOf(fields, packed, i)
    modifies cb`globalRelocs, cb.data, cb.data.buf
    ensures cb.Separate() && nextOffset == StartOf(fields, packed, i + 1)
    ensures cb.data.contents == old(cb.data.contents) + Bytes(map[], fields[i]) + Zeros(Padding(TysOf(fields), packed, i))
    ensures cb.globalRelocs == old(cb.globalRelocs) + Relocs(fields[i], |old(cb.data.contents)|)
    decreases fields, 0
  {
    hide Bytes, Relocs, AllocSize, WfInit, ElementOffset, TyOf, StartOf, Padding, Zeros, CodeBuf.Separate;
    var tys := TysOf(fields);
    WriteGlobal(cb, fields[i]);
    nextOffset := if i == |fields| - 1 then AllocSize(TStruct(tys, packed)) else ElementOffset(tys, packed, i + 1);
    var fieldSize := AllocSize(tys[i]);
    NextStart(fields, packed, i);
    PutPadding(cb, nextOffset - prevOffset - fieldSize);
  }

  method WriteFields(cb: CodeBuf, fields: seq<Init>, packed: bool)
    requires cb.Separate() && forall j | 0 <= j < |fields| :: WfInit(fields[j])
    modifies cb`globalRelocs, cb.data, cb.data.buf
    ensures cb.Separate() && cb.data.contents == old(cb.data.contents) + FieldBytes(map[], fields, packed, 0)
    ensures cb.globalRelocs == old(cb.globalRelocs) + FieldRelocs(fields, packed, 0, |old(cb.data.contents)|)
    decreases fields, 1
  {
    hide Bytes, Relocs, AllocSize, WfInit, ElementOffset, FieldBytes, FieldRelocs, TyOf, StartOf, Padding, Zeros,
      CodeBuf.Separate;
    ghost var start := |cb.data.contents|;
    StartIsZero(fields, packed);
    var prevOffset, i := 0, 0;
    while i < |fields|
      invariant 0 <= i <= |fields| && cb.Separate()
      invariant prevOffset == StartOf(fields, packed, i) && |cb.data.contents| == start + prevOffset
      invariant cb.data.contents + FieldBytes(map[], fields, packed, i) == old(cb.data.contents) + FieldBytes(map[], fields, packed, 0)
      invariant cb.globalRelocs + FieldRelocs(fields, packed, i, start) == old(cb.globalRelocs) + FieldRelocs(fields, packed, 0, start)
    {
      FieldStep(fields, packed, i, start);
      NextStart(fields, packed, i);
      prevOffset := WriteField(cb, fields, packed, i, prevOffset);
      i := i + 1;
    }
    LastField(fields, packed, start);
  }

  // ----- Reading the image -----

  predicate Reaches(init: Init, path: seq<int>) {
    PathOk(TyOf(init), path) && InBounds(TyOf(init), path)
  }

  lemma ReachesElement(elem: Ty, elems: seq<Init>, path: seq<int>)
    requires WfInit(Elements(elem, elems)) && Reaches(Elements(elem, elems), path) && path != []
    ensures 0 <= path[0] < |elems| && WfInit(elems[path[0]]) && Reaches(elems[path[0]], path[1..])
    ensures Offset(TArray(|elems|, elem), path) == path[0] * AllocSize(elem) + Offset(elem, path[1..])
    ensures TypeAt(TArray(|elems|, elem), path) == TypeAt(elem, path[1..])
  {
    hide AllocSize;
  }

  lemma ReachesField(fields: seq<Init>, packed: bool, path: seq<int>)
    requires WfInit(Fields(fields, packed)) && Reaches(Fields(fields, packed), path) && path != []
    ensures 0 <= path[0] < |fields| && WfInit(fields[path[0]]) && Reaches(fields[path[0]], path[1..])
    ensures var tys := TysOf(fields);
      && Offset(TStruct(tys, packed), path) == ElementOffset(tys, packed, path[0]) + Offset(tys[path[0]], path[1..])
      && TypeAt(TStruct(tys, packed), path) == TypeAt(tys[path[0]], path[1..])
  {
    hide ElementOffset;
  }

  lemma NumberType(t: Type, values: seq<nat>, path: seq<int>)
    requires WfInit(Data(t, values)) && Reaches(Data(t, values), path) && path != []
    ensures 0 <= path[0] < |values| && TypeAt(TArray(|values|, TScalar(t)), path) == TScalar(t)
  {
    assert PathOk(TScalar(t), path[1..]);
  }

  /** The initialiser of the object a path leads to. */
  function ObjectAt(init: Init, path: seq<int>): (r: Init)
    requires WfInit(init) && Reaches(init, path)
    ensures WfInit(r) && TyOf(r) == TypeAt(TyOf(init), path)
    decreases init
  {
    if path == [] then init else
    match init
    case Zero(ty) => Zero(TypeAt(ty, path))
    case Elements(elem, elems) => ReachesElement(elem, elems, path); ObjectAt(elems[path[0]], path[1..])
    case Data(t, values) => NumberType(t, values, path); Leaf(t, Int(t, values[path[0]]))
    case Fields(fields, packed) => ReachesField(fields, packed, path); ObjectAt(fields[path[0]], path[1..])
  }

  lemma PartOfPart(s: seq<byte>, a: nat, m: seq<byte>, b: nat, sub: seq<byte>)
    requires BytesAt(s, a, m) && BytesAt(m, b, sub)
    ensures BytesAt(s, a + b, sub)
  {
    forall j | 0 <= j < |sub| ensures s[a + b + j] == sub[j] {
      assert s[a + (b + j)] == m[b + j];
    }
  }

  lemma PartOfTail(head: seq<byte>, rest: seq<byte>, at: nat, sub: seq<byte>)
    requires BytesAt(rest, at, sub)
    ensures BytesAt(head + rest, |head| + at, sub)
  {
  }

  lemma PartOfHead(head: seq<byte>, rest: seq<byte>)
    ensures BytesAt(head + rest, 0, head)
  {
  }

  /** Reading at the offset of any in-bounds path gives exactly that object's image. */
  lemma {:induction false} ImageAt(addresses: map<GlobalRef, word>, init: Init, path: seq<int>)
    requires WfInit(init) && Reaches(init, path)
    ensures Offset(TyOf(init), path) >= 0
    ensures BytesAt(Bytes(addresses, init), Offset(TyOf(init), path), Bytes(addresses, ObjectAt(init, path)))
    decreases init
  {
    hide AllocSize, ElementOffset, LeafValue, LeBytes, StartOf, BytesAt, FieldBytes, ElementBytes;
    OffsetInside(TyOf(init), path);
    if path == [] {
      WholePart(Bytes(addresses, init));
    } else {
      match init {
        case Zero(ty) => ZeroPart(AllocSize(ty), Offset(ty, path), AllocSize(TypeAt(ty, path)));
        case Elements(elem, elems) =>
          ReachesElement(elem, elems, path);
          ImageAt(addresses, elems[path[0]], path[1..]);
          ElementsAt(addresses, elem, elems, path[0]);
          PartOfPart(Bytes(addresses, init), path[0] * AllocSize(elem), Bytes(addresses, elems[path[0]]),
                     Offset(elem, path[1..]), Bytes(addresses, ObjectAt(init, path)));
        case Data(t, values) =>
          NumberLeaf(addresses, t, values, path);
          NumbersAt(t, values, path[0]);
        case Fields(fields, packed) =>
          ReachesField(fields, packed, path);
          ImageAt(addresses, fields[path[0]], path[1..]);
          FieldsAt(addresses, fields, packed, 0, path[0]);
          FieldsPlace(addresses, fields, packed, path[0]);
          PartOfPart(Bytes(addresses, init), ElementOffset(TysOf(fields), packed, path[0]), Bytes(addresses, fields[path[0]]),
                     Offset(TyOf(fields[path[0]]), path[1..]), Bytes(addresses, ObjectAt(init, path)));
      }
    }
  }

  lemma WholePart(s: seq<byte>)
    ensures BytesAt(s, 0, s)
  {
  }

  lemma ZeroPart(n: nat, at: nat, k: nat)
    requires at + k <= n
    ensures BytesAt(Zeros(n), at, Zeros(k))
  {
  }

  lemma {:induction false} ElementsAt(addresses: map<GlobalRef, word>, elem: Ty, elems: seq<Init>, i: nat)
    requires (forall j | 0 <= j < |elems| :: WfInit(elems[j]) && TyOf(elems[j]) == elem) && i < |elems|
    ensures 0 <= i * AllocSize(elem)
    ensures BytesAt(ElementBytes(addresses, elem, elems), i * AllocSize(elem), Bytes(addresses, elems[i]))
  {
    hide AllocSize, Bytes, WfInit, TyOf, BytesAt;
    IndexInside(i, |elems|, AllocSize(elem));
    var head, rest := Bytes(addresses, elems[0]), ElementBytes(addresses, elem, elems[1..]);
    if i == 0 {
      PartOfHead(head, rest);
    } else {
      ElementsAt(addresses, elem, elems[1..], i - 1);
      OneMore(i - 1, AllocSize(elem));
      PartOfTail(head, rest, (i - 1) * AllocSize(elem), Bytes(addresses, elems[i]));
    }
  }

  lemma {:induction false} NumbersAt(t: Type, values: seq<nat>, i: nat)
    requires i < |values|
    ensures BytesAt(NumberBytes(t, values), i * SizeOf(t), LeBytes(values[i], SizeOf(t)))
  {
    hide LeBytes, BytesAt, SizeOf;
    var head, rest := LeBytes(values[0], SizeOf(t)), NumberBytes(t, values[1..]);
    if i == 0 {
      PartOfHead(head, rest);
    } else {
      NumbersAt(t, values[1..], i - 1);
      OneMore(i - 1, SizeOf(t));
      PartOfTail(head, rest, (i - 1) * SizeOf(t), LeBytes(values[i], SizeOf(t)));
    }
  }

  lemma NumberLeaf(addresses: map<GlobalRef, word>, t: Type, values: seq<nat>, path: seq<int>)
    requires WfInit(Data(t, values)) && Reaches(Data(t, values), path) && path != []
    ensures 0 <= path[0] < |values| && path[1..] == []
    ensures Offset(TArray(|values|, TScalar(t)), path) == path[0] * SizeOf(t)
    ensures Bytes(addresses, Leaf(t, Int(t, values[path[0]]))) == LeBytes(values[path[0]], SizeOf(t))
  {
    hide LeBytes;
    assert PathOk(TScalar(t), path[1..]);
    assert AllocSize(TScalar(t)) == SizeOf(t) && Offset(TScalar(t), []) == 0;
    assert LeafValue(addresses, Int(t, values[path[0]])) == values[path[0]];
  }

  /** Field j, seen from field i on. */
  lemma {:induction false} FieldsAt(addresses: map<GlobalRef, word>, fields: seq<Init>, packed: bool, i: nat, j: nat)
    requires (forall l | 0 <= l < |fields| :: WfInit(fields[l])) && i <= j < |fields|
    ensures StartOf(fields, packed, i) <= ElementOffset(TysOf(fields), packed, j)
    ensures BytesAt(FieldBytes(addresses, fields, packed, i),
                    ElementOffset(TysOf(fields), packed, j) - StartOf(fields, packed, i), Bytes(addresses, fields[j]))
    decreases j - i
  {
    hide AllocSize, ElementOffset, Bytes, WfInit, TyOf, BytesAt;
    var head, gap, rest := Bytes(addresses, fields[i]), Zeros(Padding(TysOf(fields), packed, i)), FieldBytes(addresses, fields, packed, i + 1);
    assert FieldBytes(addresses, fields, packed, i) == head + (gap + rest) == (head + gap) + rest;
    if i == j {
      PartOfHead(head, gap + rest);
    } else {
      FieldsAt(addresses, fields, packed, i + 1, j);
      var at := ElementOffset(TysOf(fields), packed, j) - StartOf(fields, packed, i + 1);
      PartOfTail(head + gap, rest, at, Bytes(addresses, fields[j]));
    }
  }

  lemma FieldsPlace(addresses: map<GlobalRef, word>, fields: seq<Init>, packed: bool, j: nat)
    requires WfInit(Fields(fields, packed)) && j < |fields|
    ensures StartOf(fields, packed, 0) == 0 && Bytes(addresses, Fields(fields, packed)) == FieldBytes(addresses, fields, packed, 0)
    ensures AllocSize(TysOf(fields)[j]) == AllocSize(TyOf(fields[j]))
  {
    hide AllocSize, ElementOffset;
    StartIsZero(fields, packed);
  }

  // ----- Padding -----

  /** Whether a byte of an object belongs to one of its scalars. */
  predicate InScalar(ty: Ty, pos: int)
    decreases ty
  {
    match ty
    case TScalar(t) => 0 <= pos < SizeOf(t)
    case TArray(n, elem) => 0 <= pos < n * AllocSize(elem) && AllocSize(elem) > 0 && InScalar(elem, pos % AllocSize(elem))
    case TStruct(fields, packed) =>
      exists i | 0 <= i < |fields| ::
        && ElementOffset(fields, packed, i) <= pos < ElementOffset(fields, packed, i) + AllocSize(fields[i])
        && InScalar(fields[i], pos - ElementOffset(fields, packed, i))
  }

  /** Every byte that belongs to no scalar is zero. */
  lemma {:induction false} PaddingIsZero(addresses: map<GlobalRef, word>, init: Init, pos: nat)
    requires WfInit(init) && pos < AllocSize(TyOf(init)) && !InScalar(TyOf(init), pos)
    ensures Bytes(addresses, init)[pos] == 0
    decreases init
  {
    hide AllocSize, ElementOffset, LeafValue, LeBytes, StartOf;
    match init {
      case Zero(ty) =>
      case Elements(elem, elems) =>
        ArraySize(|elems|, elem);
        ElementPadding(addresses, elem, elems, pos);
      case Data(t, values) => NumbersCover(t, |values|, pos);
      case Fields(fields, packed) =>
        StartIsZero(fields, packed);
        FieldPadding(addresses, fields, packed, 0, pos);
      case Leaf(t, e) => ScalarSize(t);
    }
  }

  lemma ArraySize(n: nat, elem: Ty)
    ensures AllocSize(TArray(n, elem)) == n * AllocSize(elem)
  {
  }

  lemma ScalarSize(t: Type)
    ensures AllocSize(TScalar(t)) == SizeOf(t)
  {
  }

  lemma NumbersCover(t: Type, n: nat, pos: nat)
    requires pos < AllocSize(TArray(n, TScalar(t)))
    ensures InScalar(TArray(n, TScalar(t)), pos)
  {
  }

  lemma {:induction false} ElementPadding(addresses: map<GlobalRef, word>, elem: Ty, elems: seq<Init>, pos: nat)
    requires forall j | 0 <= j < |elems| :: WfInit(elems[j]) && TyOf(elems[j]) == elem
    requires pos < |elems| * AllocSize(elem) && (AllocSize(elem) > 0 ==> !InScalar(elem, pos % AllocSize(elem)))
    ensures ElementBytes(addresses, elem, elems)[pos] == 0
    decreases elems
  {
    hide AllocSize, InScalar, WfInit, TyOf;
    var a := AllocSize(elem);
    if elems != [] {
      OneMore(|elems| - 1, a);
      if pos < a {
        DivModUnique(pos, a, 0, pos);
        PaddingIsZero(addresses, elems[0], pos);
      } else {
        NoEmpty(|elems|, a);
        AddMultiple(pos, a, -1);
        ElementPadding(addresses, elem, elems[1..], pos - a);
      }
    }
  }

  lemma NoEmpty(n: nat, a: nat)
    requires 0 < n * a
    ensures a > 0
  {
  }

  lemma NotInField(tys: seq<Ty>, packed: bool, i: nat, pos: int)
    requires i < |tys| && !InScalar(TStruct(tys, packed), pos)
    requires ElementOffset(tys, packed, i) <= pos < ElementOffset(tys, packed, i) + AllocSize(tys[i])
    ensures !InScalar(tys[i], pos - ElementOffset(tys, packed, i))
  {
    hide AllocSize, ElementOffset;
  }

  lemma {:induction false} FieldPadding(addresses: map<GlobalRef, word>, fields: seq<Init>, packed: bool, i: nat, pos: nat)
    requires (forall l | 0 <= l < |fields| :: WfInit(fields[l])) && i <= |fields|
    requires StartOf(fields, packed, i) <= pos < AllocSize(TStruct(TysOf(fields), packed))
    requires !InScalar(TStruct(TysOf(fields), packed), pos)
    ensures FieldBytes(addresses, fields, packed, i)[pos - StartOf(fields, packed, i)] == 0
    decreases fields, |fields| - i
  {
    hide AllocSize, ElementOffset, Bytes, WfInit, InScalar, TyOf, Padding, TysOf, Zeros;
    if i < |fields| {
      var tys := TysOf(fields);
      var at, n := ElementOffset(tys, packed, i), AllocSize(tys[i]);
      if pos < at + n {
        NotInField(tys, packed, i, pos);
        PaddingIsZero(addresses, fields[i], pos - at);
      } else if pos >= FieldLimit(tys, packed, i) {
        FieldPadding(addresses, fields, packed, i + 1, pos);
      }
    }
  }

  // ----- Examples -----

  /** An initialiser of the padded struct of test.ll. */
  const FIELDS := [Leaf(I8, Int(I8, 1)), Leaf(I32, Int(I32, 0x1234_5678)), Leaf(I8, Int(I8, 3))]

  lemma FieldTypes()
    ensures TysOf(FIELDS) == MIXED && WfInit(Fields(FIELDS, false)) && WfInit(Fields(FIELDS, true))
  {
    assert FIELDS[1..][1..] == [Leaf(I8, Int(I8, 3))];
  }

  lemma SmallNumbers()
    ensures LeBytes(1, 1) == [1] && LeBytes(3, 1) == [3] && LeBytes(1, 2) == [1, 0] && LeBytes(0x203, 2) == [3, 2]
    ensures LeBytes(0x1234_5678, 4) == [0x78, 0x56, 0x34, 0x12]
  {
    assert LeBytes(0x12, 1) == [0x12] && LeBytes(0x1234, 2) == [0x34, 0x12] && LeBytes(0x12_3456, 3) == [0x56, 0x34, 0x12];
    assert LeBytes(2, 1) == [2] && LeBytes(0, 1) == [0];
  }

  lemma ThreeZeros()
    ensures Zeros(3) == [0, 0, 0] && Zeros(0) == []
  {
    assert Zeros(1) == [0] && Zeros(2) == [0, 0];
  }

  lemma StructTail(addresses: map<GlobalRef, word>)
    ensures forall j | 0 <= j < |FIELDS| :: WfInit(FIELDS[j])
    ensures FieldBytes(addresses, FIELDS, false, 1) == [0x78, 0x56, 0x34, 0x12, 3, 0, 0, 0]
  {
    hide LeBytes, ElementOffset, AllocSize;
    FieldTypes();
    PaddedStruct();
    SmallNumbers();
    ThreeZeros();
  }

  lemma StructHead(addresses: map<GlobalRef, word>)
    ensures WfInit(FIELDS[0]) && Bytes(addresses, FIELDS[0]) == [1] && |TysOf(FIELDS)| == 3
    ensures Padding(TysOf(FIELDS), false, 0) == 3
  {
    hide LeBytes, ElementOffset;
    FieldTypes();
    PaddedStruct();
    SmallNumbers();
  }

  /** The struct's image, with its padding. */
  lemma StructImage(addresses: map<GlobalRef, word>)
    ensures WfInit(Fields(FIELDS, false))
    ensures Bytes(addresses, Fields(FIELDS, false)) == [1, 0, 0, 0, 0x78, 0x56, 0x34, 0x12, 3, 0, 0, 0]
  {
    hide LeBytes, ElementOffset, AllocSize, Padding, StartOf, TysOf;
    FieldTypes();
    StructHead(addresses);
    StructTail(addresses);
    ThreeZeros();
    assert FieldBytes(addresses, FIELDS, false, 0) == [1] + [0, 0, 0] + [0x78, 0x56, 0x34, 0x12, 3, 0, 0, 0];
  }

  /** An array of halfwords, and an array of arrays. */
  lemma ArrayImage(addresses: map<GlobalRef, word>)
    ensures WfInit(Data(I16, [1, 0x203])) && Bytes(addresses, Data(I16, [1, 0x203])) == [1, 0, 3, 2]
    ensures Reaches(Data(I16, [1, 0x203]), [1]) && ObjectAt(Data(I16, [1, 0x203]), [1]) == Leaf(I16, Int(I16, 0x203))
    ensures var row := TArray(2, TScalar(I16));
      && WfInit(Elements(row, [Zero(row), Data(I16, [1, 0x203])]))
      && Bytes(addresses, Elements(row, [Zero(row), Data(I16, [1, 0x203])])) == [0, 0, 0, 0, 1, 0, 3, 2]
  {
    hide LeBytes, AllocSize;
    SmallNumbers();
    ThreeZeros();
    var row := TArray(2, TScalar(I16));
    assert AllocSize(row) == 4 by { RowSize(); }
    assert Zeros(4) == [0, 0, 0, 0];
    assert Bytes(addresses, Zero(row)) == [0, 0, 0, 0];
    assert [1, 0x203][1..] == [0x203];
    assert NumberBytes(I16, [0x203]) == [3, 2];
    var rows := [Zero(row), Data(I16, [1, 0x203])];
    assert rows[1..] == [Data(I16, [1, 0x203])] && rows[1..][1..] == [];
    assert ElementBytes(addresses, row, rows[1..]) == [1, 0, 3, 2];
  }

  lemma RowSize()
    ensures AllocSize(TArray(2, TScalar(I16))) == 4
  {
  }

  /** A pointer to the last field of a padded struct: the field's offset is laid down and, once the
      struct's address is known, relocated. */
  lemma PointerImage(addresses: map<GlobalRef, word>, g: GlobalRef, off: nat)
    requires g in addresses && addresses[g] + 8 < W32
    ensures var init := Leaf(Ptr, Gep(Global(g), TStruct(MIXED, false), [0, 2]));
      WfInit(init) && Relocs(init, off) == [(InData(off), g)] && Bytes(addresses, init) == LeBytes(addresses[g] + 8, 4)
  {
    hide LeBytes, Wf, Expand;
    FieldOfGlobal(g);
    DivModUnique(8 + addresses[g], W32, 0, 8 + addresses[g]);
  }
}
