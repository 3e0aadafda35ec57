/** Decoding the finished code gives back the intended instructions, and every label and jump
    target is an instruction boundary. */
module Decoding {
  import opened Words
  import opened IrOps
  import opened Machine
  import opened Encoding
  import opened Ir
  import opened Codegen
  import opened Execution
  import opened Relation
  import opened Placement
  import opened Emission
  import opened CodeBuffer
  import opened Translate
  import opened Translation
  import opened References
  import opened Linking

  /** Decode n instructions from offset q on; also the offset behind the last one. */
  function DecodeList(code: seq<byte>, q: nat, n: nat): Option<(seq<Instr>, nat)>
    decreases n
  {
    if n == 0 then Some(([], q)) else
    match Decode(code, q)
    case None => None
    case Some((i, size)) =>
      match DecodeList(code, q + size, n - 1)
      case None => None
      case Some((rest, end)) => Some(([i] + rest, end))
  }

  /** The instructions that items become at address pos. */
  function Intended(w: World, k: nat, items: seq<Item>, pos: nat): (r: seq<Instr>)
    ensures |r| == |items|
  {
    if items == [] then [] else [Resolve(w, k, items[0], pos)] + Intended(w, k, items[1..], pos + ItemSize(items[0]))
  }

  lemma ResolvedEncodable(f: Fn, w: World, k: nat, it: Item, pos: nat, vars: nat, fns: nat)
    requires ItemKnown(f, vars, fns, it)
    ensures Encodable(Resolve(w, k, it, pos))
  {
  }

  /** Decoding the bytes of a list of items gives exactly their instructions. */
  lemma {:induction false} DecodeItems(w: World, k: nat, f: Fn, items: seq<Item>, pos: nat, vars: nat, fns: nat)
    requires ItemsKnown(f, vars, fns, items) && ItemsAt(w, k, items, pos)
    ensures DecodeList(w.code, pos - w.base, |items|) == Some((Intended(w, k, items, pos), pos - w.base + Size(items)))
    decreases |items|
  {
    hide Encode, Decode, Resolve, ItemKnown, ItemSize, ItemsAt, BytesAt;
    AtOrAfter(w, k, items, pos);
    if items != [] {
      var it := items[0];
      ResolvedEncodable(f, w, k, it, pos, vars, fns);
      assert items == [it] + items[1..];
      ItemsAtParts(w, k, [it], items[1..], pos);
      OneItemAt(w, k, it, pos);
      ResolveSize(w, k, it, pos);
      DecodeInvertsEncode(Resolve(w, k, it, pos), w.code, pos - w.base);
      TwoSizesOne(it);
      DecodeItems(w, k, f, items[1..], pos + ItemSize(it), vars, fns);
    }
  }

  lemma AtOrAfter(w: World, k: nat, items: seq<Item>, pos: nat)
    requires ItemsAt(w, k, items, pos)
    ensures w.base <= pos
  {
  }

  lemma TwoSizesOne(it: Item)
    ensures Size([it]) == ItemSize(it)
  {
    assert [it][1..] == [];
  }

  lemma OneItemAt(w: World, k: nat, it: Item, pos: nat)
    requires ItemsAt(w, k, [it], pos)
    ensures BytesAt(w.code, pos - w.base, Encode(Resolve(w, k, it, pos)))
  {
    hide Encode, Resolve, ItemSize, BytesAt;
    assert [it][1..] == [];
    assert ResolvedBytes(w, k, [it], pos) == Encode(Resolve(w, k, it, pos)) + [] == Encode(Resolve(w, k, it, pos));
  }

  lemma FunctionCode(w: World, cb: CodeBuf, p: Program, vars: seq<Variable>, k: nat, i: nat) returns (rest: seq<Item>)
    requires WfModule(p, vars) && Relocated(cb, p, vars) && Hosts(w, cb, p, vars) && k < |p.fns| && i <= |p.fns[k].body|
    ensures Shaped(w.p) && ItemsAt(w, k, FnItems(w.p, w.pool0, k, i) + rest, w.base + FnStart(w.p, w.pool0, k))
    ensures FnItems(w.p, w.pool0, k, |p.fns[k].body|) == FnItems(w.p, w.pool0, k, i) + rest
    ensures ItemsKnown(p.fns[k], |vars|, |p.fns|, FnItems(w.p, w.pool0, k, |p.fns[k].body|)) && w.p.fns == p.fns
  {
    hide WfFn, FnDeclared, VariablesDeclared, Relocated, WorldOk, PlanOk, FnItems, FnStart, ItemsAt, LabelsOk,
      DataOk, Blocks, VariablesSize, ItemsKnown;
    ImageIsLinked(w, cb, p, vars);
    assert WfFn(w.p.fns[k]) && FnDeclared(w.p.fns[k], |vars|, |p.fns|);
    FnItemsKnown(w.p, w.pool0, k, |p.fns[k].body|, |vars|);
    CodeOfFn(w, k);
    rest := FnSplit(w.p, w.pool0, k, i, |p.fns[k].body|);
  }

  /** The whole function decodes to what was intended. */
  lemma FunctionDecodes(w: World, cb: CodeBuf, p: Program, vars: seq<Variable>, k: nat)
    requires WfModule(p, vars) && Relocated(cb, p, vars) && Hosts(w, cb, p, vars) && k < |p.fns|
    ensures Shaped(w.p) && w.p.fns == p.fns
    ensures var items, at := FnItems(w.p, w.pool0, k, |p.fns[k].body|), FnStart(w.p, w.pool0, k);
      DecodeList(w.code, at, |items|) == Some((Intended(w, k, items, w.base + at), at + Size(items)))
  {
    hide WfModule, Relocated, Hosts, FnItems, FnStart, DecodeList, Intended, Size, ItemsAt, ItemsKnown;
    var rest := FunctionCode(w, cb, p, vars, k, |p.fns[k].body|);
    assert rest == [];
    var items := FnItems(w.p, w.pool0, k, |p.fns[k].body|);
    assert items + rest == items;
    DecodeItems(w, k, p.fns[k], items, w.base + FnStart(w.p, w.pool0, k), |vars|, |p.fns|);
  }

  lemma PrefixKnown(f: Fn, vars: nat, fns: nat, a: seq<Item>, b: seq<Item>)
    requires ItemsKnown(f, vars, fns, a + b)
    ensures ItemsKnown(f, vars, fns, a)
  {
    hide ItemKnown;
    forall j | 0 <= j < |a| ensures ItemKnown(f, vars, fns, a[j]) {
      assert (a + b)[j] == a[j];
    }
  }

  /** Every block's label, and with it every jump target, is where decoding the function from its
      start reaches after the items that precede the block. */
  lemma LabelOnBoundary(w: World, cb: CodeBuf, p: Program, vars: seq<Variable>, k: nat, b: nat)
    requires WfModule(p, vars) && Relocated(cb, p, vars) && Hosts(w, cb, p, vars) && k < |p.fns| && b < |p.fns[k].starts|
    ensures Shaped(w.p) && w.p.fns == p.fns && p.fns[k].starts[b] < |p.fns[k].body|
    ensures var items, at := FnItems(w.p, w.pool0, k, p.fns[k].starts[b]), FnStart(w.p, w.pool0, k);
      DecodeList(w.code, at, |items|) == Some((Intended(w, k, items, w.base + at), Label(w, k, b) - w.base))
  {
    hide WfModule, Relocated, Hosts, FnItems, FnStart, DecodeList, Intended, Size, ItemsAt, ItemsKnown, Label,
      Decode, Linked;
    BlockStarts(p, vars, k, b);
    var f := p.fns[k];
    var rest := FunctionCode(w, cb, p, vars, k, f.starts[b]);
    var items := FnItems(w.p, w.pool0, k, f.starts[b]);
    PrefixKnown(f, |vars|, |p.fns|, items, rest);
    ItemsAtParts(w, k, items, rest, w.base + FnStart(w.p, w.pool0, k));
    DecodeItems(w, k, f, items, w.base + FnStart(w.p, w.pool0, k), |vars|, |p.fns|);
    LabelIs(w, cb, p, vars, k, b);
  }

  lemma BlockStarts(p: Program, vars: seq<Variable>, k: nat, b: nat)
    requires WfModule(p, vars) && k < |p.fns| && b < |p.fns[k].starts|
    ensures p.fns[k].starts[b] < |p.fns[k].body|
  {
    hide WfFn, FnDeclared, VariablesDeclared;
    assert Blocks(p.fns[k]);
  }

  lemma LabelIs(w: World, cb: CodeBuf, p: Program, vars: seq<Variable>, k: nat, b: nat)
    requires WfModule(p, vars) && Relocated(cb, p, vars) && Hosts(w, cb, p, vars) && k < |p.fns| && b < |p.fns[k].starts|
    requires Shaped(w.p) && w.p.fns == p.fns && p.fns[k].starts[b] < |p.fns[k].body|
    ensures Label(w, k, b) == w.base + FnStart(w.p, w.pool0, k) + Size(FnItems(w.p, w.pool0, k, p.fns[k].starts[b]))
  {
    hide WfModule, Relocated, Hosts, FnItems, FnStart, Size, Label, CodeOk, DataOk, WorldOk, PlanOk, WfFn;
    ImageIsLinked(w, cb, p, vars);
  }

  /** The select's local jump skips exactly the second move: it lands on the final spill. */
  lemma SelectTarget(f: Fn, i: nat, c: Value, a: Value, b: Value)
    ensures var items := SelectItems(f, i, c, a, b);
      && items[3].Ins? && items[3].i.Jcc?
      && Size(items[..4]) + items[3].i.rel == Size(items[..5]) && items[5] == Spill(f, ECX, i, 0)
  {
    hide MovePart, Spill;
    var items := SelectItems(f, i, c, a, b);
    assert items[..5] == items[..4] + [items[4]];
    SizeAppend(items[..4], [items[4]]);
    TwoSizesOne(items[4]);
    DivModUnique(ItemSize(items[4]), W32, 0, ItemSize(items[4]));
  }
}
