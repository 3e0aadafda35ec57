/** The relocation passes turn what was first written into the resolved bytes: every jump field
    holds the distance to its block, every global field its addend plus the global's address, and
    nothing else changes. */
module Relocation {
  import opened Words
  import opened IrOps
  import opened Machine
  import opened Encoding
  import opened Ir
  import opened Codegen
  import opened Execution
  import opened Layout
  import opened Constants
  import opened Emission
  import opened Buffers
  import opened Globals

  // ----- One field -----

  lemma PatchMiddle(a: seq<byte>, x: word, c: seq<byte>, at: nat, y: word)
    requires at == |a|
    ensures Patch(a + Le(x) + c, at, y) == a + Le(y) + c
  {
    hide Le;
  }

  lemma AddMiddle(a: seq<byte>, x: word, c: seq<byte>, at: nat, y: word)
    requires at == |a|
    ensures AddAt(a + Le(x) + c, at, y) == a + Le((x + y) % W32) + c
  {
    var s := a + Le(x) + c;
    LeSum(x);
    assert s[at] == Le(x)[0] && s[at + 1] == Le(x)[1] && s[at + 2] == Le(x)[2] && s[at + 3] == Le(x)[3];
    assert LeAt(s, at) == x;
    PatchMiddle(a, x, c, at, (x + y) % W32);
  }

  // ----- Jumps -----

  /** An item once jump fields have been filled in. */
  function Jumped(pl: Place, labels: map<(nat, nat), word>, k: nat, it: Item, pos: nat): Instr {
    match it
    case JumpTo(b) => Jmp((Target(labels, (k, b)) - (pos + 5)) % W32)
    case JumpIf(cc, b) => Jcc(cc, (Target(labels, (k, b)) - (pos + 6)) % W32)
    case _ => Pending(pl, it, pos)
  }

  function JumpedBytes(pl: Place, labels: map<(nat, nat), word>, k: nat, items: seq<Item>, pos: nat): (b: seq<byte>)
    ensures |b| == Size(items)
  {
    if items == [] then []
    else Encode(Jumped(pl, labels, k, items[0], pos)) + JumpedBytes(pl, labels, k, items[1..], pos + ItemSize(items[0]))
  }

  predicate JumpsBelow(n: nat, jumps: seq<JumpReloc>) {
    forall j | 0 <= j < |jumps| :: 4 <= jumps[j].0 <= n
  }

  /** Applying `sites` and then `more` to `before` is applying `more` to `after`. */
  ghost predicate JumpsMake(base: nat, labels: map<(nat, nat), word>, before: seq<byte>, sites: seq<JumpReloc>, after: seq<byte>,
                            more: seq<JumpReloc>)
  {
    && JumpsIn(before, sites + more) && JumpsIn(after, more) && |before| == |after|
    && PatchJumps(base, labels, before, sites + more) == PatchJumps(base, labels, after, more)
  }

  lemma JumpsChain(base: nat, labels: map<(nat, nat), word>, before: seq<byte>, s1: seq<JumpReloc>, mid: seq<byte>,
                   s2: seq<JumpReloc>, after: seq<byte>, more: seq<JumpReloc>)
    requires JumpsMake(base, labels, before, s1, mid, s2 + more) && JumpsMake(base, labels, mid, s2, after, more)
    ensures JumpsMake(base, labels, before, s1 + s2, after, more)
  {
    hide JumpsIn, PatchJumps;
    assert s1 + s2 + more == s1 + (s2 + more);
  }

  lemma JumpsNone(base: nat, labels: map<(nat, nat), word>, code: seq<byte>, more: seq<JumpReloc>)
    requires JumpsBelow(|code|, more)
    ensures JumpsMake(base, labels, code, [], code, more)
  {
    hide PatchJumps;
    assert [] + more == more;
  }

  lemma JumpsOne(base: nat, labels: map<(nat, nat), word>, a: seq<byte>, c: seq<byte>, dest: (nat, nat), more: seq<JumpReloc>)
    requires JumpsBelow(|a| + 4 + |c|, more)
    ensures JumpsMake(base, labels, a + Le(0) + c, [(|a| + 4, dest)],
                      a + Le((Target(labels, dest) - (base + |a| + 4)) % W32) + c, more)
  {
    hide Patch, Target, Le;
    var all := [(|a| + 4, dest)] + more;
    assert all[0] == (|a| + 4, dest) && all[1..] == more;
    PatchMiddle(a, 0, c, |a|, (Target(labels, dest) - (base + |a| + 4)) % W32);
  }

  lemma ItemJumped(pl: Place, labels: map<(nat, nat), word>, k: nat, a: seq<byte>, it: Item, c: seq<byte>, more: seq<JumpReloc>)
    requires JumpsBelow(|a| + ItemSize(it) + |c|, more)
    ensures JumpsMake(pl.code, labels, a + Encode(Pending(pl, it, pl.code + |a|)) + c, ItemJumps(k, it, |a|),
                      a + Encode(Jumped(pl, labels, k, it, pl.code + |a|)) + c, more)
  {
    hide Le, Target, JumpsMake, JumpsBelow;
    match it {
      case JumpTo(b) => ItemJumpedTo(pl, labels, k, a, b, c, more);
      case JumpIf(cc, b) => ItemJumpedIf(pl, labels, k, a, cc, b, c, more);
      case _ =>
        PendingSize(pl, labels, k, it, pl.code + |a|);
        JumpsNone(pl.code, labels, a + Encode(Pending(pl, it, pl.code + |a|)) + c, more);
    }
  }

  lemma ItemJumpedTo(pl: Place, labels: map<(nat, nat), word>, k: nat, a: seq<byte>, b: nat, c: seq<byte>, more: seq<JumpReloc>)
    requires JumpsBelow(|a| + 5 + |c|, more)
    ensures JumpsMake(pl.code, labels, a + Encode(Jmp(0)) + c, [(|a| + 5, (k, b))],
                      a + Encode(Jmp((Target(labels, (k, b)) - (pl.code + |a| + 5)) % W32)) + c, more)
  {
    hide Le, Target, JumpsMake, JumpsBelow;
    var rel := (Target(labels, (k, b)) - (pl.code + |a| + 5)) % W32;
    JumpsOne(pl.code, labels, a + [0xe9], c, (k, b), more);
    assert a + Encode(Jmp(0)) + c == (a + [0xe9]) + Le(0) + c;
    assert a + Encode(Jmp(rel)) + c == (a + [0xe9]) + Le(rel) + c;
  }

  lemma ItemJumpedIf(pl: Place, labels: map<(nat, nat), word>, k: nat, a: seq<byte>, cc: Cond, b: nat, c: seq<byte>, more: seq<JumpReloc>)
    requires JumpsBelow(|a| + 6 + |c|, more)
    ensures JumpsMake(pl.code, labels, a + Encode(Jcc(cc, 0)) + c, [(|a| + 6, (k, b))],
                      a + Encode(Jcc(cc, (Target(labels, (k, b)) - (pl.code + |a| + 6)) % W32)) + c, more)
  {
    hide Le, Target, JumpsMake, JumpsBelow, CondCode;
    var op := [0x0f, 0x80 + CondCode(cc)];
    var rel := (Target(labels, (k, b)) - (pl.code + |a| + 6)) % W32;
    JumpsOne(pl.code, labels, a + op, c, (k, b), more);
    assert a + Encode(Jcc(cc, 0)) + c == (a + op) + Le(0) + c;
    assert a + Encode(Jcc(cc, rel)) + c == (a + op) + Le(rel) + c;
  }

  /** Applying the jumps of a list of items placed behind a and before c. */
  lemma {:induction false} ItemsJumped(pl: Place, labels: map<(nat, nat), word>, k: nat, a: seq<byte>, items: seq<Item>, c: seq<byte>,
                    more: seq<JumpReloc>)
    requires JumpsBelow(|a| + Size(items) + |c|, more)
    ensures JumpsMake(pl.code, labels, a + PendingBytes(pl, items, pl.code + |a|) + c, JumpSites(k, items, |a|),
                      a + JumpedBytes(pl, labels, k, items, pl.code + |a|) + c, more)
    decreases |items|
  {
    hide Encode, Pending, Jumped, ItemJumps, ItemSize, JumpsMake, JumpsBelow;
    if items == [] {
      JumpsNone(pl.code, labels, a + [] + c, more);
    } else {
      var it, tail, n := items[0], items[1..], ItemSize(items[0]);
      var one, done := Encode(Pending(pl, it, pl.code + |a|)), Encode(Jumped(pl, labels, k, it, pl.code + |a|));
      var rest, rest' := PendingBytes(pl, tail, pl.code + |a| + n), JumpedBytes(pl, labels, k, tail, pl.code + |a| + n);
      PendingSize(pl, labels, k, it, pl.code + |a|);
      SitesBelow(k, tail, |a| + n, more, |a| + Size(items) + |c|);
      ItemJumped(pl, labels, k, a, it, rest + c, JumpSites(k, tail, |a| + n) + more);
      ItemsJumped(pl, labels, k, a + done, tail, c, more);
      assert a + one + (rest + c) == a + (one + rest) + c;
      assert a + done + (rest + c) == (a + done) + rest + c;
      assert (a + done) + rest' + c == a + (done + rest') + c;
      JumpsChain(pl.code, labels, a + (one + rest) + c, ItemJumps(k, it, |a|), (a + done) + rest + c,
                 JumpSites(k, tail, |a| + n), a + (done + rest') + c, more);
    }
  }

  lemma PendingSize(pl: Place, labels: map<(nat, nat), word>, k: nat, it: Item, pos: nat)
    ensures |Encode(Pending(pl, it, pos))| == |Encode(Jumped(pl, labels, k, it, pos))| == ItemSize(it)
  {
  }

  /** Every jump field lies inside its item, the sites of later items behind those of earlier ones. */
  lemma {:induction false} SitesBelow(k: nat, items: seq<Item>, off: nat, more: seq<JumpReloc>, n: nat)
    requires off + Size(items) <= n && JumpsBelow(n, more)
    ensures JumpsBelow(n, JumpSites(k, items, off) + more)
    ensures forall j | 0 <= j < |JumpSites(k, items, off)| :: off + 4 < JumpSites(k, items, off)[j].0 <= off + Size(items)
    ensures forall i, j | 0 <= i < j < |JumpSites(k, items, off)| :: JumpSites(k, items, off)[i].0 + 4 < JumpSites(k, items, off)[j].0
    decreases |items|
  {
    hide Encode;
    if items != [] {
      SitesBelow(k, items[1..], off + ItemSize(items[0]), more, n);
    }
  }

  // ----- Globals -----

  predicate FixBelow(code: nat, data: nat, site: Site) {
    match site
    case InCode(at) => at + 4 <= code
    case InData(at) => at + 4 <= data
  }

  predicate FixesBelow(code: nat, data: nat, fixes: seq<GlobalReloc>) {
    forall j | 0 <= j < |fixes| :: FixBelow(code, data, fixes[j].0)
  }

  /** Applying `sites` and then `more` to `before` is applying `more` to `after`. */
  ghost predicate FixesMake(addresses: map<GlobalRef, word>, before: (seq<byte>, seq<byte>), sites: seq<GlobalReloc>,
                            after: (seq<byte>, seq<byte>), more: seq<GlobalReloc>)
  {
    && FixesIn(before.0, before.1, sites + more) && FixesIn(after.0, after.1, more)
    && |before.0| == |after.0| && |before.1| == |after.1|
    && PatchFixes(addresses, before.0, before.1, sites + more) == PatchFixes(addresses, after.0, after.1, more)
  }

  lemma FixesChain(addresses: map<GlobalRef, word>, before: (seq<byte>, seq<byte>), s1: seq<GlobalReloc>, mid: (seq<byte>, seq<byte>),
                   s2: seq<GlobalReloc>, after: (seq<byte>, seq<byte>), more: seq<GlobalReloc>)
    requires FixesMake(addresses, before, s1, mid, s2 + more) && FixesMake(addresses, mid, s2, after, more)
    ensures FixesMake(addresses, before, s1 + s2, after, more)
  {
    hide FixesIn, PatchFixes;
    assert s1 + s2 + more == s1 + (s2 + more);
  }

  lemma FixesNone(addresses: map<GlobalRef, word>, both: (seq<byte>, seq<byte>), more: seq<GlobalReloc>)
    requires FixesBelow(|both.0|, |both.1|, more)
    ensures FixesMake(addresses, both, [], both, more)
  {
    hide PatchFixes;
    assert [] + more == more;
  }

  lemma FixCode(addresses: map<GlobalRef, word>, a: seq<byte>, x: word, c: seq<byte>, data: seq<byte>, g: GlobalRef, more: seq<GlobalReloc>)
    requires FixesBelow(|a| + 4 + |c|, |data|, more)
    ensures FixesMake(addresses, (a + Le(x) + c, data), [(InCode(|a|), g)],
                      (a + Le((x + Address(addresses, g)) % W32) + c, data), more)
  {
    hide AddAt, Address, Le;
    var all := [(InCode(|a|), g)] + more;
    assert all[0] == (InCode(|a|), g) && all[1..] == more;
    AddMiddle(a, x, c, |a|, Address(addresses, g));
  }

  lemma FixData(addresses: map<GlobalRef, word>, code: seq<byte>, a: seq<byte>, x: word, c: seq<byte>, g: GlobalRef, more: seq<GlobalReloc>)
    requires FixesBelow(|code|, |a| + 4 + |c|, more)
    ensures FixesMake(addresses, (code, a + Le(x) + c), [(InData(|a|), g)],
                      (code, a + Le((x + Address(addresses, g)) % W32) + c), more)
  {
    hide AddAt, Address, Le;
    var all := [(InData(|a|), g)] + more;
    assert all[0] == (InData(|a|), g) && all[1..] == more;
    AddMiddle(a, x, c, |a|, Address(addresses, g));
  }

  /** An item once both kinds of fields have been filled in. */
  function Placed(pl: Place, labels: map<(nat, nat), word>, addresses: map<GlobalRef, word>, k: nat, it: Item, pos: nat): Instr {
    match it
    case MovGlobal(r, g, off) => MovImm(r, (off + Address(addresses, g)) % W32)
    case _ => Jumped(pl, labels, k, it, pos)
  }

  function PlacedBytes(pl: Place, labels: map<(nat, nat), word>, addresses: map<GlobalRef, word>, k: nat, items: seq<Item>, pos: nat)
    : (b: seq<byte>)
    ensures |b| == Size(items)
  {
    if items == [] then []
    else Encode(Placed(pl, labels, addresses, k, items[0], pos))
         + PlacedBytes(pl, labels, addresses, k, items[1..], pos + ItemSize(items[0]))
  }

  lemma PlacedSize(pl: Place, labels: map<(nat, nat), word>, addresses: map<GlobalRef, word>, k: nat, it: Item, pos: nat)
    ensures |Encode(Placed(pl, labels, addresses, k, it, pos))| == |Encode(Jumped(pl, labels, k, it, pos))| == ItemSize(it)
  {
  }

  lemma ItemFixed(pl: Place, labels: map<(nat, nat), word>, addresses: map<GlobalRef, word>, k: nat, a: seq<byte>, it: Item,
                  c: seq<byte>, data: seq<byte>, more: seq<GlobalReloc>)
    requires FixesBelow(|a| + ItemSize(it) + |c|, |data|, more)
    ensures FixesMake(addresses, (a + Encode(Jumped(pl, labels, k, it, pl.code + |a|)) + c, data), ItemFixes(it, |a|),
                      (a + Encode(Placed(pl, labels, addresses, k, it, pl.code + |a|)) + c, data), more)
  {
    hide Address, FixesMake, FixesBelow;
    if it.MovGlobal? {
      GlobalFixed(addresses, a, it.r, it.g, it.off, c, data, more);
    } else {
      PlacedSize(pl, labels, addresses, k, it, pl.code + |a|);
      FixesNone(addresses, (a + Encode(Jumped(pl, labels, k, it, pl.code + |a|)) + c, data), more);
    }
  }

  lemma GlobalFixed(addresses: map<GlobalRef, word>, a: seq<byte>, r: Reg, g: GlobalRef, off: word, c: seq<byte>, data: seq<byte>,
                    more: seq<GlobalReloc>)
    requires FixesBelow(|a| + 5 + |c|, |data|, more)
    ensures FixesMake(addresses, (a + Encode(MovImm(r, off)) + c, data), [(InCode(|a| + 1), g)],
                      (a + Encode(MovImm(r, (off + Address(addresses, g)) % W32)) + c, data), more)
  {
    hide Address, FixesMake, FixesBelow, Le;
    var x := (off + Address(addresses, g)) % W32;
    FixCode(addresses, a + [0xb8 + r], off, c, data, g, more);
    assert a + Encode(MovImm(r, off)) + c == (a + [0xb8 + r]) + Le(off) + c;
    assert a + Encode(MovImm(r, x)) + c == (a + [0xb8 + r]) + Le(x) + c;
  }

  /** Global fields lie inside their items, later ones behind earlier ones. */
  lemma {:induction false} FixesInside(items: seq<Item>, off: nat, more: seq<GlobalReloc>, n: nat, d: nat)
    requires off + Size(items) <= n && FixesBelow(n, d, more)
    ensures FixesBelow(n, d, FixSites(items, off) + more)
    ensures forall j | 0 <= j < |FixSites(items, off)| ::
      FixSites(items, off)[j].0.InCode? && off < FixSites(items, off)[j].0.at && FixSites(items, off)[j].0.at + 4 <= off + Size(items)
    ensures forall i, j | 0 <= i < j < |FixSites(items, off)| :: FixSites(items, off)[i].0.at + 4 < FixSites(items, off)[j].0.at
    decreases |items|
  {
    hide Encode;
    if items != [] {
      FixesInside(items[1..], off + ItemSize(items[0]), more, n, d);
    }
  }

  /** Applying the global fields of a list of items placed behind a and before c. */
  lemma {:induction false} ItemsFixed(pl: Place, labels: map<(nat, nat), word>, addresses: map<GlobalRef, word>, k: nat, a: seq<byte>,
                   items: seq<Item>, c: seq<byte>, data: seq<byte>, more: seq<GlobalReloc>)
    requires FixesBelow(|a| + Size(items) + |c|, |data|, more)
    ensures FixesMake(addresses, (a + JumpedBytes(pl, labels, k, items, pl.code + |a|) + c, data), FixSites(items, |a|),
                      (a + PlacedBytes(pl, labels, addresses, k, items, pl.code + |a|) + c, data), more)
    decreases |items|
  {
    hide Encode, Placed, Jumped, ItemFixes, ItemSize, FixesMake, FixesBelow;
    if items == [] {
      FixesNone(addresses, (a + [] + c, data), more);
    } else {
      var it, tail, n := items[0], items[1..], ItemSize(items[0]);
      var one, done := Encode(Jumped(pl, labels, k, it, pl.code + |a|)), Encode(Placed(pl, labels, addresses, k, it, pl.code + |a|));
      var rest := JumpedBytes(pl, labels, k, tail, pl.code + |a| + n);
      var rest' := PlacedBytes(pl, labels, addresses, k, tail, pl.code + |a| + n);
      PlacedSize(pl, labels, addresses, k, it, pl.code + |a|);
      FixesInside(tail, |a| + n, more, |a| + Size(items) + |c|, |data|);
      ItemFixed(pl, labels, addresses, k, a, it, rest + c, data, FixSites(tail, |a| + n) + more);
      ItemsFixed(pl, labels, addresses, k, a + done, tail, c, data, more);
      assert a + one + (rest + c) == a + (one + rest) + c;
      assert a + done + (rest + c) == (a + done) + rest + c;
      assert (a + done) + rest' + c == a + (done + rest') + c;
      FixesChain(addresses, (a + (one + rest) + c, data), ItemFixes(it, |a|), ((a + done) + rest + c, data),
                 FixSites(tail, |a| + n), (a + (done + rest') + c, data), more);
    }
  }

  // ----- Initialisers -----

  /** Relocations of an initialiser lie inside it. */
  lemma {:induction false} RelocsInside(init: Init, off: nat, more: seq<GlobalReloc>, n: nat, d: nat)
    requires WfInit(init) && off + AllocSize(TyOf(init)) <= d && FixesBelow(n, d, more)
    ensures FixesBelow(n, d, Relocs(init, off) + more)
    decreases init
  {
    hide AllocSize, FixesBelow;
    match init {
      case Elements(elem, elems) =>
        ArraySize(|elems|, elem);
        ElementRelocsInside(elem, elems, off, more, n, d);
      case Fields(fields, packed) => FieldRelocsInside(fields, packed, 0, off, more, n, d);
      case Leaf(t, e) =>
        ScalarSize(t);
        LeafInside(t, e, off, more, n, d);
      case _ => assert [] + more == more;
    }
  }

  lemma LeafInside(t: Type, e: Constant, off: nat, more: seq<GlobalReloc>, n: nat, d: nat)
    requires WfInit(Leaf(t, e)) && off + SizeOf(t) <= d && FixesBelow(n, d, more)
    ensures FixesBelow(n, d, Relocs(Leaf(t, e), off) + more)
  {
    hide Expand;
  }

  lemma {:induction false} ElementRelocsInside(elem: Ty, elems: seq<Init>, off: nat, more: seq<GlobalReloc>, n: nat, d: nat)
    requires forall i | 0 <= i < |elems| :: WfInit(elems[i]) && TyOf(elems[i]) == elem
    requires off + |elems| * AllocSize(elem) <= d && FixesBelow(n, d, more)
    ensures FixesBelow(n, d, ElementRelocs(elem, elems, off) + more)
    decreases elems
  {
    hide AllocSize, FixesBelow, WfInit, Relocs;
    if elems == [] {
      assert [] + more == more;
    } else {
      OneMore(|elems| - 1, AllocSize(elem));
      var rest := ElementRelocs(elem, elems[1..], off + AllocSize(elem));
      ElementRelocsInside(elem, elems[1..], off + AllocSize(elem), more, n, d);
      NotNegative(|elems| - 1, AllocSize(elem));
      RelocsInside(elems[0], off, rest + more, n, d);
      assert Relocs(elems[0], off) + (rest + more) == ElementRelocs(elem, elems, off) + more;
    }
  }

  lemma NotNegative(n: nat, a: nat)
    ensures 0 <= n * a
  {
  }

  lemma {:induction false} FieldRelocsInside(fields: seq<Init>, packed: bool, i: nat, off: nat, more: seq<GlobalReloc>, n: nat, d: nat)
    requires (forall j | 0 <= j < |fields| :: WfInit(fields[j])) && i <= |fields|
    requires off + AllocSize(TStruct(TysOf(fields), packed)) <= d && FixesBelow(n, d, more)
    ensures FixesBelow(n, d, FieldRelocs(fields, packed, i, off) + more)
    decreases fields, |fields| - i
  {
    hide AllocSize, FixesBelow, WfInit, Relocs, ElementOffset;
    if i == |fields| {
      assert [] + more == more;
    } else {
      var rest := FieldRelocs(fields, packed, i + 1, off);
      FieldRelocsInside(fields, packed, i + 1, off, more, n, d);
      PaddingFits(TysOf(fields), packed, i);
      LimitInside(fields, packed, i);
      RelocsInside(fields[i], off + StartOf(fields, packed, i), rest + more, n, d);
      assert Relocs(fields[i], off + StartOf(fields, packed, i)) + (rest + more) == FieldRelocs(fields, packed, i, off) + more;
    }
  }

  lemma LimitInside(fields: seq<Init>, packed: bool, i: nat)
    requires i < |fields|
    ensures FieldLimit(TysOf(fields), packed, i) <= AllocSize(TStruct(TysOf(fields), packed))
  {
    hide RoundUp, Align;
    var tys := TysOf(fields);
    if i + 1 < |fields| {
      FieldsMono(tys, packed, i + 2, |tys|);
      assert FieldsEnd(tys, packed, i + 2) == ElementOffset(tys, packed, i + 1) + AllocSize(tys[i + 1]);
    }
  }

  /** Applying the address fields of an initialiser placed behind a and before c. */
  lemma {:induction false} InitFixed(addresses: map<GlobalRef, word>, code: seq<byte>, a: seq<byte>, init: Init, c: seq<byte>,
                                     more: seq<GlobalReloc>)
    requires WfInit(init) && FixesBelow(|code|, |a| + AllocSize(TyOf(init)) + |c|, more)
    ensures FixesMake(addresses, (code, a + Bytes(map[], init) + c), Relocs(init, |a|), (code, a + Bytes(addresses, init) + c), more)
    decreases init
  {
    hide AllocSize, FixesBelow, FixesMake, LeafValue, LeBytes, ElementOffset;
    match init {
      case Elements(elem, elems) =>
        ArraySize(|elems|, elem);
        ElementsFixed(addresses, code, a, elem, elems, c, more);
      case Fields(fields, packed) =>
        StartIsZero(fields, packed);
        FieldsFixed(addresses, code, a, fields, packed, 0, c, |a|, more);
      case Leaf(t, e) => LeafFixed(addresses, code, a, t, e, c, more);
      case _ => FixesNone(addresses, (code, a + Bytes(map[], init) + c), more);
    }
  }

  lemma LeafFixed(addresses: map<GlobalRef, word>, code: seq<byte>, a: seq<byte>, t: Type, e: Constant, c: seq<byte>,
                  more: seq<GlobalReloc>)
    requires WfInit(Leaf(t, e)) && FixesBelow(|code|, |a| + AllocSize(TScalar(t)) + |c|, more)
    ensures FixesMake(addresses, (code, a + LeBytes(LeafValue(map[], e), SizeOf(t)) + c), Relocs(Leaf(t, e), |a|),
                      (code, a + LeBytes(LeafValue(addresses, e), SizeOf(t)) + c), more)
  {
    hide FixesBelow, FixesMake, LeBytes, Expand, Le;
    ScalarSize(t);
    PendingLeaf(e);
    var (g, off) := Expand(e);
    if g.Some? {
      LeIs(off);
      LeIs(LeafValue(addresses, e));
      FixData(addresses, code, a, off, c, g.value, more);
    } else {
      FixesNone(addresses, (code, a + LeBytes(off, SizeOf(t)) + c), more);
    }
  }

  lemma {:induction false} ElementsFixed(addresses: map<GlobalRef, word>, code: seq<byte>, a: seq<byte>, elem: Ty, elems: seq<Init>,
                                         c: seq<byte>, more: seq<GlobalReloc>)
    requires forall i | 0 <= i < |elems| :: WfInit(elems[i]) && TyOf(elems[i]) == elem
    requires FixesBelow(|code|, |a| + |elems| * AllocSize(elem) + |c|, more)
    ensures FixesMake(addresses, (code, a + ElementBytes(map[], elem, elems) + c), ElementRelocs(elem, elems, |a|),
                      (code, a + ElementBytes(addresses, elem, elems) + c), more)
    decreases elems
  {
    hide AllocSize, FixesBelow, FixesMake, WfInit, Bytes, Relocs, TyOf;
    if elems == [] {
      FixesNone(addresses, (code, a + [] + c), more);
    } else {
      var size, tail := AllocSize(elem), elems[1..];
      var one, done := Bytes(map[], elems[0]), Bytes(addresses, elems[0]);
      var rest, rest' := ElementBytes(map[], elem, tail), ElementBytes(addresses, elem, tail);
      var sites := ElementRelocs(elem, tail, |a| + size);
      OneMore(|elems| - 1, size);
      NotNegative(|elems| - 1, size);
      ElementRelocsInside(elem, tail, |a| + size, more, |code|, |a| + |elems| * size + |c|);
      InitFixed(addresses, code, a, elems[0], rest + c, sites + more);
      ElementsFixed(addresses, code, a + done, elem, tail, c, more);
      assert a + one + (rest + c) == a + (one + rest) + c;
      assert a + done + (rest + c) == (a + done) + rest + c;
      assert (a + done) + rest' + c == a + (done + rest') + c;
      FixesChain(addresses, (code, a + (one + rest) + c), Relocs(elems[0], |a|), (code, (a + done) + rest + c),
                 sites, (code, a + (done + rest') + c), more);
    }
  }

  lemma {:induction false} FieldsFixed(addresses: map<GlobalRef, word>, code: seq<byte>, a: seq<byte>, fields: seq<Init>, packed: bool,
                                       i: nat, c: seq<byte>, off: nat, more: seq<GlobalReloc>)
    requires (forall j | 0 <= j < |fields| :: WfInit(fields[j])) && i <= |fields|
    requires |a| == off + StartOf(fields, packed, i)
    requires FixesBelow(|code|, off + AllocSize(TStruct(TysOf(fields), packed)) + |c|, more)
    ensures FixesMake(addresses, (code, a + FieldBytes(map[], fields, packed, i) + c), FieldRelocs(fields, packed, i, off),
                      (code, a + FieldBytes(addresses, fields, packed, i) + c), more)
    decreases fields, |fields| - i
  {
    hide AllocSize, FixesBelow, FixesMake, WfInit, Bytes, Relocs, TyOf, ElementOffset, TysOf, Zeros;
    if i == |fields| {
      FixesNone(addresses, (code, a + [] + c), more);
    } else {
      var one, done := Bytes(map[], fields[i]), Bytes(addresses, fields[i]);
      var gap := Zeros(Padding(TysOf(fields), packed, i));
      var rest, rest' := FieldBytes(map[], fields, packed, i + 1), FieldBytes(addresses, fields, packed, i + 1);
      var sites := FieldRelocs(fields, packed, i + 1, off);
      FieldRelocsInside(fields, packed, i + 1, off, more, |code|, off + AllocSize(TStruct(TysOf(fields), packed)) + |c|);
      InitFixed(addresses, code, a, fields[i], gap + rest + c, sites + more);
      FieldsFixed(addresses, code, a + done + gap, fields, packed, i + 1, c, off, more);
      assert a + one + (gap + rest + c) == a + (one + gap + rest) + c;
      assert a + done + (gap + rest + c) == (a + done + gap) + rest + c;
      assert (a + done + gap) + rest' + c == a + (done + gap + rest') + c;
      FixesChain(addresses, (code, a + (one + gap + rest) + c), Relocs(fields[i], |a|), (code, (a + done + gap) + rest + c),
                 sites, (code, a + (done + gap + rest') + c), more);
    }
  }
}
