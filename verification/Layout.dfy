/** Data layout for i386: sizes, alignments and offsets of LLVM types. */
module Layout {
  import opened Words
  import opened IrOps
  import opened Ir

  datatype Ty = TScalar(t: Type) | TArray(n: nat, elem: Ty) | TStruct(fields: seq<Ty>, packed: bool)

  /** ABI alignment; 64-bit integers are aligned to 4. */
  function Align(ty: Ty): (a: nat)
    ensures a > 0
  {
    match ty
    case TScalar(t) => if t.I64? then 4 else SizeOf(t)
    case TArray(_, elem) => Align(elem)
    case TStruct(fields, packed) => if packed then 1 else MaxAlign(fields)
  }

  function MaxAlign(fields: seq<Ty>): (a: nat)
    ensures a > 0
  {
    if fields == [] then 1
    else
      var a, b := Align(fields[0]), MaxAlign(fields[1..]);
      if a < b then b else a
  }

  function RoundUp(x: nat, a: nat): (r: nat)
    requires a > 0
    ensures x <= r < x + a && r % a == 0
  {
    RoundUpIs(x, a);
    (x + a - 1) / a * a
  }

  lemma RoundUpIs(x: nat, a: nat)
    requires a > 0
    ensures var r := (x + a - 1) / a * a; x <= r < x + a && r % a == 0
  {
    var q := (x + a - 1) / a;
    assert x + a - 1 == a * q + (x + a - 1) % a;
    assert q * a == a * q;
    DivModUnique(q * a, a, q, 0);
  }

  /** Where field i may start, given where the previous field ends. */
  function FieldAt(end: nat, field: Ty, packed: bool): (o: nat)
    ensures end <= o
  {
    if packed then end else RoundUp(end, Align(field))
  }

  /** StructLayout::getElementOffset; the entry past the last field is where the fields end. */
  function FieldsEnd(fields: seq<Ty>, packed: bool, i: nat): nat
    requires i <= |fields|
    decreases fields, i, 0
  {
    if i == 0 then 0 else ElementOffset(fields, packed, i - 1) + AllocSize(fields[i - 1])
  }

  function ElementOffset(fields: seq<Ty>, packed: bool, i: nat): nat
    requires i < |fields|
    decreases fields, i, 1
  {
    FieldAt(FieldsEnd(fields, packed, i), fields[i], packed)
  }

  /** getTypeAllocSize: the distance between consecutive array elements. */
  function AllocSize(ty: Ty): nat
    decreases ty
  {
    match ty
    case TScalar(t) => SizeOf(t)
    case TArray(n, elem) => n * AllocSize(elem)
    case TStruct(fields, packed) => RoundUp(FieldsEnd(fields, packed, |fields|), Align(ty))
  }

  // ----- Paths into a type -----

  /** Array elements may be reached with any index; struct fields must exist. */
  predicate PathOk(ty: Ty, path: seq<int>)
    decreases ty
  {
    path == [] ||
    match ty
    case TScalar(_) => false
    case TArray(_, elem) => PathOk(elem, path[1..])
    case TStruct(fields, _) => 0 <= path[0] < |fields| && PathOk(fields[path[0]], path[1..])
  }

  function TypeAt(ty: Ty, path: seq<int>): Ty
    requires PathOk(ty, path)
    decreases ty
  {
    if path == [] then ty else
    match ty
    case TArray(_, elem) => TypeAt(elem, path[1..])
    case TStruct(fields, _) => TypeAt(fields[path[0]], path[1..])
  }

  /** The address of the object a path leads to, relative to the whole. */
  function Offset(ty: Ty, path: seq<int>): int
    requires PathOk(ty, path)
    decreases ty
  {
    if path == [] then 0 else
    match ty
    case TArray(_, elem) => path[0] * AllocSize(elem) + Offset(elem, path[1..])
    case TStruct(fields, packed) => ElementOffset(fields, packed, path[0]) + Offset(fields[path[0]], path[1..])
  }

  /** The typed address computation: the first index steps over whole objects. */
  function GepOffset(ty: Ty, idx: seq<int>): int
    requires idx != [] && PathOk(ty, idx[1..])
  {
    idx[0] * AllocSize(ty) + Offset(ty, idx[1..])
  }

  /** Stepping a pointer over whole objects is indexing an array of them. */
  lemma GepIsIndexing(ty: Ty, n: nat, i: int, path: seq<int>)
    requires PathOk(ty, path)
    ensures ([i] + path)[1..] == path && GepOffset(ty, [i] + path) == Offset(TArray(n, ty), [i] + path)
  {
    assert ([i] + path)[1..] == path;
  }

  predicate InBounds(ty: Ty, path: seq<int>)
    requires PathOk(ty, path)
    decreases ty
  {
    path == [] ||
    match ty
    case TArray(n, elem) => 0 <= path[0] < n && InBounds(elem, path[1..])
    case TStruct(fields, _) => InBounds(fields[path[0]], path[1..])
  }

  lemma {:induction false} FieldsMono(fields: seq<Ty>, packed: bool, i: nat, j: nat)
    requires i <= j <= |fields|
    ensures FieldsEnd(fields, packed, i) <= FieldsEnd(fields, packed, j)
  {
    if i < j {
      FieldsMono(fields, packed, i, j - 1);
    }
  }

  /** In-bounds objects lie inside the whole. */
  lemma {:induction false} OffsetInside(ty: Ty, path: seq<int>)
    requires PathOk(ty, path) && InBounds(ty, path)
    ensures 0 <= Offset(ty, path) && Offset(ty, path) + AllocSize(TypeAt(ty, path)) <= AllocSize(ty)
    decreases ty
  {
    if path != [] {
      match ty {
        case TArray(n, elem) =>
          OffsetInside(elem, path[1..]);
          IndexInside(path[0], n, AllocSize(elem));
        case TStruct(fields, packed) =>
          OffsetInside(fields[path[0]], path[1..]);
          FieldsMono(fields, packed, path[0] + 1, |fields|);
      }
    }
  }

  lemma IndexInside(i: int, n: nat, size: nat)
    requires 0 <= i < n
    ensures 0 <= i * size && i * size + size <= n * size
  {
    MulMono(size, i + 1, n);
    assert (i + 1) * size == i * size + size;
    assert size * (i + 1) == (i + 1) * size && size * n == n * size;
  }

  // ----- The layout string of test.ll -----

  /** Bytes and alignment of each scalar. */
  lemma ScalarLayout(t: Type)
    ensures (AllocSize(TScalar(t)), Align(TScalar(t)))
            == match t
               case I1 => (1, 1)
               case I8 => (1, 1)
               case I16 => (2, 2)
               case I32 => (4, 4)
               case Ptr => (4, 4)
               case I64 => (8, 4)
  {
  }

  /** x is the least multiple of a at or behind end. */
  ghost predicate LeastMultiple(x: nat, a: nat, end: nat)
    requires a > 0
  {
    end <= x && x % a == 0 && forall y | end <= y < x :: y % a != 0
  }

  lemma RoundUpLeast(end: nat, a: nat)
    requires a > 0
    ensures LeastMultiple(RoundUp(end, a), a, end)
  {
    hide RoundUp;
    forall y | end <= y < RoundUp(end, a) ensures y % a != 0 {
      if y % a == 0 {
        MultiplesApart(y, RoundUp(end, a), a);
      }
    }
  }

  lemma MultiplesApart(x: nat, y: nat, a: nat)
    requires a > 0 && x % a == 0 && y % a == 0 && x < y
    ensures x + a <= y
  {
    var p, q := x / a, y / a;
    assert x == a * p && y == a * q;
    if q <= p {
      MulMono(a, q, p);
    }
    MulMono(a, p + 1, q);
    assert a * (p + 1) == a * p + a;
  }

  lemma {:induction false} AlignValues(ty: Ty)
    ensures Align(ty) == 1 || Align(ty) == 2 || Align(ty) == 4
    decreases ty
  {
    match ty {
      case TScalar(t) =>
      case TArray(_, elem) => AlignValues(elem);
      case TStruct(fields, packed) =>
        if !packed {
          MaxAlignIs(fields);
        }
    }
  }

  /** The alignment of an unpacked struct is the largest of its fields', and a multiple of each. */
  lemma {:induction false} MaxAlignIs(fields: seq<Ty>)
    ensures var a := MaxAlign(fields);
      && (a == 1 || a == 2 || a == 4) && (a > 1 ==> exists i | 0 <= i < |fields| :: Align(fields[i]) == a)
      && forall i | 0 <= i < |fields| :: Align(fields[i]) <= a && a % Align(fields[i]) == 0
    decreases fields
  {
    if fields != [] {
      AlignValues(fields[0]);
      MaxAlignIs(fields[1..]);
      var a := MaxAlign(fields);
      forall i | 0 <= i < |fields| ensures Align(fields[i]) <= a && a % Align(fields[i]) == 0 {
        if i > 0 {
          assert fields[i] == fields[1..][i - 1];
        }
      }
      if a > 1 && a != Align(fields[0]) {
        var i :| 0 <= i < |fields[1..]| && Align(fields[1..][i]) == a;
        assert fields[i + 1] == fields[1..][i];
      }
    }
  }

  /** A field of an unpacked struct starts at the least multiple of its alignment at or behind the
      previous field's end; a packed struct has no padding. */
  lemma FieldPlaced(fields: seq<Ty>, packed: bool, i: nat)
    requires i < |fields|
    ensures var end := if i == 0 then 0 else ElementOffset(fields, packed, i - 1) + AllocSize(fields[i - 1]);
      if packed then ElementOffset(fields, packed, i) == end
      else LeastMultiple(ElementOffset(fields, packed, i), Align(fields[i]), end)
  {
    hide Align, RoundUp, AllocSize;
    RoundUpLeast(FieldsEnd(fields, packed, i), Align(fields[i]));
  }

  /** A struct ends at the least multiple of its alignment behind its last field, and an array's
      elements follow one another. */
  lemma AggregateSize(ty: Ty)
    ensures ty.TArray? ==> AllocSize(ty) == ty.n * AllocSize(ty.elem) && Align(ty) == Align(ty.elem)
    ensures ty.TStruct? ==>
      var end := if ty.fields == [] then 0
                 else ElementOffset(ty.fields, ty.packed, |ty.fields| - 1) + AllocSize(ty.fields[|ty.fields| - 1]);
      && LeastMultiple(AllocSize(ty), Align(ty), end)
      && (ty.packed ==> Align(ty) == 1 && AllocSize(ty) == end)
  {
    hide RoundUp, MaxAlign;
    if ty.TStruct? {
      RoundUpLeast(FieldsEnd(ty.fields, ty.packed, |ty.fields|), Align(ty));
    }
  }

  lemma {:induction false} SizeAligned(ty: Ty)
    ensures AllocSize(ty) % Align(ty) == 0
  {
    match ty {
      case TScalar(t) =>
      case TArray(n, elem) =>
        SizeAligned(elem);
        TimesAligned(n, AllocSize(elem), Align(elem));
      case TStruct(fields, packed) =>
    }
  }

  lemma TimesAligned(n: int, size: nat, a: nat)
    requires a > 0 && size % a == 0
    ensures (n * size) % a == 0
  {
    assert size == a * (size / a);
    assert n * (a * (size / a)) == a * (n * (size / a));
    DivModUnique(n * size, a, n * (size / a), 0);
  }

  /** Alignments are powers of two, so a multiple of one is a multiple of each smaller one. */
  lemma SumAligned(x: int, y: int, outer: nat, field: nat, inner: nat)
    requires (outer == 1 || outer == 2 || outer == 4) && (field == 1 || field == 2 || field == 4)
    requires inner == 1 || inner == 2 || inner == 4
    requires outer % field == 0 && field % inner == 0 && x % field == 0 && y % inner == 0
    ensures outer % inner == 0 && (x + y) % inner == 0
  {
    if inner == 4 {
      assert field == 4 && outer == 4;
    } else if inner == 2 {
      assert field != 1 && outer != 1;
    }
  }

  /** No packed struct on the way. */
  predicate Unpacked(ty: Ty, path: seq<int>)
    requires PathOk(ty, path)
    decreases ty
  {
    path == [] ||
    match ty
    case TArray(_, elem) => Unpacked(elem, path[1..])
    case TStruct(fields, packed) => !packed && Unpacked(fields[path[0]], path[1..])
  }

  /** Every object reached through unpacked structs lies at a multiple of its alignment. */
  lemma {:induction false} OffsetAligned(ty: Ty, path: seq<int>)
    requires PathOk(ty, path) && Unpacked(ty, path)
    ensures Align(ty) % Align(TypeAt(ty, path)) == 0 && Offset(ty, path) % Align(TypeAt(ty, path)) == 0
    decreases ty
  {
    hide MaxAlign, AllocSize, ElementOffset;
    if path != [] {
      AlignValues(ty);
      AlignValues(TypeAt(ty, path));
      match ty {
        case TArray(_, elem) =>
          OffsetAligned(elem, path[1..]);
          AlignValues(elem);
          SizeAligned(elem);
          TimesAligned(path[0], AllocSize(elem), Align(elem));
          SumAligned(path[0] * AllocSize(elem), Offset(elem, path[1..]), Align(ty), Align(elem), Align(TypeAt(ty, path)));
        case TStruct(fields, packed) =>
          var field := fields[path[0]];
          AlignValues(field);
          OffsetAligned(field, path[1..]);
          FieldPlaced(fields, packed, path[0]);
          MaxAlignIs(fields);
          SumAligned(ElementOffset(fields, packed, path[0]), Offset(field, path[1..]), Align(ty), Align(field),
                     Align(TypeAt(ty, path)));
      }
    }
  }

  const MIXED := [TScalar(I8), TScalar(I32), TScalar(I8)]

  /** A struct of test.ll that needs padding. */
  lemma PaddedStruct()
    ensures var ty := TStruct(MIXED, false);
      Offset(ty, [0]) == 0 && Offset(ty, [1]) == 4 && Offset(ty, [2]) == 8 && AllocSize(ty) == 12
  {
    assert FieldsEnd(MIXED, false, 1) == 1;
    assert FieldsEnd(MIXED, false, 2) == 8;
    assert FieldsEnd(MIXED, false, 3) == 9;
    assert MIXED[1..] == [TScalar(I32), TScalar(I8)] && MIXED[1..][1..] == [TScalar(I8)] && MIXED[1..][1..][1..] == [];
  }

  /** The same fields packed. */
  lemma PackedStruct()
    ensures var ty := TStruct(MIXED, true);
      Offset(ty, [0]) == 0 && Offset(ty, [1]) == 1 && Offset(ty, [2]) == 5 && AllocSize(ty) == 6
  {
    assert FieldsEnd(MIXED, true, 1) == 1;
    assert FieldsEnd(MIXED, true, 2) == 5;
    assert FieldsEnd(MIXED, true, 3) == 6;
  }
}
