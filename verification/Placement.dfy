/** Every instruction's code stands at its computed address. */
module Placement {
  import opened Words
  import opened IrOps
  import opened Machine
  import opened Encoding
  import opened Ir
  import opened Codegen
  import opened Execution
  import opened Relation

  lemma {:induction false} ResolvedAppend(w: World, k: nat, a: seq<Item>, b: seq<Item>, pos: nat)
    ensures ResolvedBytes(w, k, a + b, pos) == ResolvedBytes(w, k, a, pos) + ResolvedBytes(w, k, b, pos + Size(a))
  {
    hide Encode, Resolve;
    if a == [] {
      assert a + b == b;
    } else {
      assert (a + b)[0] == a[0] && (a + b)[1..] == a[1..] + b;
      ResolvedAppend(w, k, a[1..], b, pos + ItemSize(a[0]));
    }
  }

  lemma BytesAtParts(code: seq<byte>, q: nat, a: seq<byte>, b: seq<byte>)
    requires BytesAt(code, q, a + b)
    ensures BytesAt(code, q, a) && BytesAt(code, q + |a|, b)
  {
    forall j | 0 <= j < |a| ensures code[q + j] == a[j] {
      assert code[q + j] == (a + b)[j];
    }
    forall j | 0 <= j < |b| ensures code[q + |a| + j] == b[j] {
      assert code[q + (|a| + j)] == (a + b)[|a| + j];
    }
  }

  lemma ItemsAtParts(w: World, k: nat, a: seq<Item>, b: seq<Item>, pos: nat)
    requires ItemsAt(w, k, a + b, pos)
    ensures ItemsAt(w, k, a, pos) && ItemsAt(w, k, b, pos + Size(a))
  {
    hide ResolvedBytes, BytesAt, Size;
    ResolvedAppend(w, k, a, b, pos);
    BytesAtParts(w.code, pos - w.base, ResolvedBytes(w, k, a, pos), ResolvedBytes(w, k, b, pos + Size(a)));
  }

  lemma CodeOfFn(w: World, k: nat)
    requires Linked(w) && k < |w.p.fns|
    ensures Shaped(w.p)
    ensures AddressOf(w.p, Fun(k)) == w.base + FnStart(w.p, w.pool0, k)
    ensures ItemsAt(w, k, FnItems(w.p, w.pool0, k, |w.p.fns[k].body|), w.base + FnStart(w.p, w.pool0, k))
  {
    hide ItemsAt, FnItems, FnStart, WfFn, DataOk, LabelsOk, WorldOk, PlanOk, AddressOf, Size;
  }

  function ItemsOf(p: Program, pool0: int, k: nat, i: nat): seq<Item>
    requires Shaped(p) && k < |p.fns| && i < |p.fns[k].body|
  {
    InstItems(p.fns[k], i, (pool0 + 8 * PoolIndex(p, k, i)) % W32, OutSize(p.fns[k], |p.fns[k].body|))
  }

  lemma {:induction false} FnSplit(p: Program, pool0: int, k: nat, i: nat, n: nat) returns (rest: seq<Item>)
    requires Shaped(p) && k < |p.fns| && i <= n <= |p.fns[k].body|
    ensures FnItems(p, pool0, k, n) == FnItems(p, pool0, k, i) + rest
  {
    hide InstItems, PoolIndex, Prolog, OutSize;
    if i == n {
      rest := [];
    } else {
      rest := FnSplit(p, pool0, k, i, n - 1);
      rest := rest + ItemsOf(p, pool0, k, n - 1);
    }
  }

  /** Instruction i of function k stands at Pc(i), and the next one right behind it. */
  lemma InstAt(w: World, k: nat, i: nat) returns (rest: seq<Item>)
    requires Linked(w) && k < |w.p.fns| && i < |w.p.fns[k].body|
    ensures ItemsAt(w, k, ItemsOf(w.p, w.pool0, k, i) + rest, Pc(w, k, i))
    ensures Pc(w, k, i + 1) == Pc(w, k, i) + Size(ItemsOf(w.p, w.pool0, k, i))
  {
    hide InstItems, PoolIndex, Prolog, OutSize, ItemsAt, Linked, Size, FnStart, AddressOf;
    CodeOfFn(w, k);
    var n, p, z := |w.p.fns[k].body|, w.p, w.pool0;
    var items := ItemsOf(p, z, k, i);
    rest := FnSplit(p, z, k, i + 1, n);
    assert FnItems(p, z, k, n) == FnItems(p, z, k, i) + (items + rest);
    ItemsAtParts(w, k, FnItems(p, z, k, i), items + rest, w.base + FnStart(p, z, k));
    SizeAppend(FnItems(p, z, k, i), items);
  }

  /** The prolog stands at the function's address. */
  lemma PrologAt(w: World, k: nat) returns (rest: seq<Item>)
    requires Linked(w) && k < |w.p.fns|
    ensures ItemsAt(w, k, Prolog(w.p.fns[k]) + rest, AddressOf(w.p, Fun(k)))
    ensures AddressOf(w.p, Fun(k)) + Size(Prolog(w.p.fns[k])) == Pc(w, k, 0)
  {
    hide InstItems, PoolIndex, Prolog, OutSize, ItemsAt, Linked, Size, FnStart, AddressOf;
    CodeOfFn(w, k);
    rest := FnSplit(w.p, w.pool0, k, 0, |w.p.fns[k].body|);
  }

  /** The pool holds instruction i's constants from its pool address on. */
  lemma {:induction false} PoolSlice(p: Program, k: nat, i: nat)
    requires k < |p.fns| && i < |p.fns[k].body| && |p.fns[k].parent| == |p.fns[k].body|
    ensures PoolIndex(p, k, i) + |InstPool(p.fns[k], i)| <= |Pool(p)|
    ensures forall j | 0 <= j < |InstPool(p.fns[k], i)| :: Pool(p)[PoolIndex(p, k, i) + j] == InstPool(p.fns[k], i)[j]
  {
    hide InstPool;
    var f := p.fns[k];
    var a := FnPoolSplit(f, i + 1, |f.body|);
    var b := ModulePoolSplit(p, k + 1, |p.fns|);
    assert Pool(p) == ModulePool(p, k) + (FnPool(f, i) + InstPool(f, i) + a) + b;
  }

  lemma {:induction false} FnPoolSplit(f: Fn, i: nat, n: nat) returns (rest: seq<nat>)
    requires i <= n <= |f.body|
    ensures FnPool(f, n) == FnPool(f, i) + rest
  {
    hide InstPool;
    if i == n {
      rest := [];
    } else {
      rest := FnPoolSplit(f, i, n - 1);
      rest := rest + InstPool(f, n - 1);
    }
  }

  lemma {:induction false} ModulePoolSplit(p: Program, k: nat, n: nat) returns (rest: seq<nat>)
    requires k <= n <= |p.fns|
    ensures ModulePool(p, n) == ModulePool(p, k) + rest
  {
    hide FnPool;
    if k == n {
      rest := [];
    } else {
      rest := ModulePoolSplit(p, k, n - 1);
      rest := rest + FnPool(p.fns[n - 1], |p.fns[n - 1].body|);
    }
  }
}
