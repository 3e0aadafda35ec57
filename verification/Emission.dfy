/** What the code buffer holds before relocation, item by item, and what the two relocation
    passes make of it. */
module Emission {
  import opened Words
  import opened IrOps
  import opened Machine
  import opened Encoding
  import opened Ir
  import opened Codegen

  /** A field still to be filled in, in the code or in the data segment. */
  datatype Site = InCode(at: nat) | InData(at: nat)

  /** A jump is recorded by the end of its field, and its target by function and block. */
  type JumpReloc = (nat, (nat, nat))

  type GlobalReloc = (Site, GlobalRef)

  /** The contents of a CodeBuf as a value. */
  datatype Buf = Buf(code: seq<byte>, data: seq<byte>, slots: map<(nat, Ref), int>, labels: map<(nat, nat), word>,
                     globals: map<GlobalRef, word>, jumps: seq<JumpReloc>, fixes: seq<GlobalReloc>)

  /** Where the buffers and the helpers are. */
  datatype Place = Place(code: nat, data: nat, helpers: map<Helper, word>)

  function HelperAt(pl: Place, h: Helper): word {
    if h in pl.helpers then pl.helpers[h] else 0
  }

  // ----- Before relocation -----

  /** An item as first written at address pos: jump fields are zero, global fields hold their addend. */
  function Pending(pl: Place, it: Item, pos: nat): Instr {
    match it
    case Ins(i) => i
    case JumpTo(_) => Jmp(0)
    case JumpIf(cc, _) => Jcc(cc, 0)
    case MovGlobal(r, _, off) => MovImm(r, off)
    case CallHelper(h) => CallRel((HelperAt(pl, h) - (pos + 5)) % W32)
  }

  function PendingBytes(pl: Place, items: seq<Item>, pos: nat): (b: seq<byte>)
    ensures |b| == Size(items)
  {
    if items == [] then []
    else Encode(Pending(pl, items[0], pos)) + PendingBytes(pl, items[1..], pos + ItemSize(items[0]))
  }

  function ItemJumps(k: nat, it: Item, off: nat): seq<JumpReloc> {
    match it
    case JumpTo(b) => [(off + 5, (k, b))]
    case JumpIf(_, b) => [(off + 6, (k, b))]
    case _ => []
  }

  function ItemFixes(it: Item, off: nat): seq<GlobalReloc> {
    match it
    case MovGlobal(_, g, _) => [(InCode(off + 1), g)]
    case _ => []
  }

  function JumpSites(k: nat, items: seq<Item>, off: nat): seq<JumpReloc> {
    if items == [] then [] else ItemJumps(k, items[0], off) + JumpSites(k, items[1..], off + ItemSize(items[0]))
  }

  function FixSites(items: seq<Item>, off: nat): seq<GlobalReloc> {
    if items == [] then [] else ItemFixes(items[0], off) + FixSites(items[1..], off + ItemSize(items[0]))
  }

  function Le64(x: nat): (b: seq<byte>)
    ensures |b| == 8
  {
    Le(x % W32) + Le(x / W32 % W32)
  }

  function PoolBytes(pool: seq<nat>): (b: seq<byte>)
    ensures |b| == 8 * |pool|
  {
    if pool == [] then [] else Le64(pool[0]) + PoolBytes(pool[1..])
  }

  /** Appending items of function k, and the constants they refer to. */
  function Emit(pl: Place, k: nat, items: seq<Item>, pool: seq<nat>, e: Buf): Buf {
    e.(code := e.code + PendingBytes(pl, items, pl.code + |e.code|),
       data := e.data + PoolBytes(pool),
       jumps := e.jumps + JumpSites(k, items, |e.code|),
       fixes := e.fixes + FixSites(items, |e.code|))
  }

  // ----- Appending -----

  lemma {:induction false} PendingAppend(pl: Place, a: seq<Item>, b: seq<Item>, pos: nat)
    ensures PendingBytes(pl, a + b, pos) == PendingBytes(pl, a, pos) + PendingBytes(pl, b, pos + Size(a))
  {
    hide Encode, Pending, ItemSize;
    if a == [] {
      assert a + b == b;
    } else {
      assert (a + b)[0] == a[0] && (a + b)[1..] == a[1..] + b;
      PendingAppend(pl, a[1..], b, pos + ItemSize(a[0]));
    }
  }

  lemma {:induction false} JumpsAppend(k: nat, a: seq<Item>, b: seq<Item>, off: nat)
    ensures JumpSites(k, a + b, off) == JumpSites(k, a, off) + JumpSites(k, b, off + Size(a))
  {
    hide ItemJumps, ItemSize;
    if a == [] {
      assert a + b == b;
    } else {
      assert (a + b)[0] == a[0] && (a + b)[1..] == a[1..] + b;
      JumpsAppend(k, a[1..], b, off + ItemSize(a[0]));
    }
  }

  lemma {:induction false} FixesAppend(a: seq<Item>, b: seq<Item>, off: nat)
    ensures FixSites(a + b, off) == FixSites(a, off) + FixSites(b, off + Size(a))
  {
    hide ItemFixes, ItemSize;
    if a == [] {
      assert a + b == b;
    } else {
      assert (a + b)[0] == a[0] && (a + b)[1..] == a[1..] + b;
      FixesAppend(a[1..], b, off + ItemSize(a[0]));
    }
  }

  lemma {:induction false} PoolAppend(a: seq<nat>, b: seq<nat>)
    ensures PoolBytes(a + b) == PoolBytes(a) + PoolBytes(b)
  {
    hide Le64;
    if a == [] {
      assert a + b == b;
    } else {
      assert (a + b)[0] == a[0] && (a + b)[1..] == a[1..] + b;
      PoolAppend(a[1..], b);
    }
  }

  /** Emitting one list after another is emitting their concatenation. */
  lemma EmitAppend(pl: Place, k: nat, a: seq<Item>, p: seq<nat>, b: seq<Item>, q: seq<nat>, e: Buf)
    ensures Emit(pl, k, b, q, Emit(pl, k, a, p, e)) == Emit(pl, k, a + b, p + q, e)
  {
    hide PendingBytes, JumpSites, FixSites, PoolBytes, Size;
    PendingAppend(pl, a, b, pl.code + |e.code|);
    JumpsAppend(k, a, b, |e.code|);
    FixesAppend(a, b, |e.code|);
    PoolAppend(p, q);
  }

  lemma EmitNone(pl: Place, k: nat, e: Buf)
    ensures Emit(pl, k, [], [], e) == e
  {
  }

  // ----- Relocation -----

  function Target(labels: map<(nat, nat), word>, b: (nat, nat)): word {
    if b in labels then labels[b] else 0
  }

  function Address(globals: map<GlobalRef, word>, g: GlobalRef): word {
    if g in globals then globals[g] else 0
  }

  predicate JumpsIn(code: seq<byte>, jumps: seq<JumpReloc>) {
    forall j | 0 <= j < |jumps| :: 4 <= jumps[j].0 <= |code|
  }

  /** apply_jump_relocs: each field becomes its target minus the address of its end. */
  function PatchJumps(base: nat, labels: map<(nat, nat), word>, code: seq<byte>, jumps: seq<JumpReloc>): (c: seq<byte>)
    requires JumpsIn(code, jumps)
    ensures |c| == |code|
    decreases |jumps|
  {
    if jumps == [] then code
    else PatchJumps(base, labels, Patch(code, jumps[0].0 - 4, (Target(labels, jumps[0].1) - (base + jumps[0].0)) % W32), jumps[1..])
  }

  predicate FixIn(code: seq<byte>, data: seq<byte>, site: Site) {
    match site
    case InCode(at) => at + 4 <= |code|
    case InData(at) => at + 4 <= |data|
  }

  predicate FixesIn(code: seq<byte>, data: seq<byte>, fixes: seq<GlobalReloc>) {
    forall j | 0 <= j < |fixes| :: FixIn(code, data, fixes[j].0)
  }

  function AddAt(code: seq<byte>, at: nat, v: word): (c: seq<byte>)
    requires at + 4 <= |code|
    ensures |c| == |code|
  {
    Patch(code, at, (LeAt(code, at) + v) % W32)
  }

  /** apply_global_relocs: each field is increased by its global's address. */
  function PatchFixes(globals: map<GlobalRef, word>, code: seq<byte>, data: seq<byte>, fixes: seq<GlobalReloc>)
    : (c: (seq<byte>, seq<byte>))
    requires FixesIn(code, data, fixes)
    ensures |c.0| == |code| && |c.1| == |data|
    decreases |fixes|
  {
    if fixes == [] then (code, data)
    else match fixes[0].0
         case InCode(at) => PatchFixes(globals, AddAt(code, at, Address(globals, fixes[0].1)), data, fixes[1..])
         case InData(at) => PatchFixes(globals, code, AddAt(data, at, Address(globals, fixes[0].1)), fixes[1..])
  }

  lemma JumpStep(base: nat, labels: map<(nat, nat), word>, code: seq<byte>, jumps: seq<JumpReloc>, i: nat)
    requires i < |jumps| && JumpsIn(code, jumps[i..])
    ensures 4 <= jumps[i].0 <= |code|
    ensures var c := Patch(code, jumps[i].0 - 4, (Target(labels, jumps[i].1) - (base + jumps[i].0)) % W32);
      JumpsIn(c, jumps[i + 1..])
      && PatchJumps(base, labels, code, jumps[i..]) == PatchJumps(base, labels, c, jumps[i + 1..])
  {
    hide Patch, Target;
    assert jumps[i..][0] == jumps[i] && jumps[i..][1..] == jumps[i + 1..];
  }

  /** The buffers after one global relocation. */
  function FixOne(globals: map<GlobalRef, word>, code: seq<byte>, data: seq<byte>, fix: GlobalReloc): (c: (seq<byte>, seq<byte>))
    requires FixIn(code, data, fix.0)
    ensures |c.0| == |code| && |c.1| == |data|
  {
    match fix.0
    case InCode(at) => (AddAt(code, at, Address(globals, fix.1)), data)
    case InData(at) => (code, AddAt(data, at, Address(globals, fix.1)))
  }

  lemma FixStep(globals: map<GlobalRef, word>, code: seq<byte>, data: seq<byte>, fixes: seq<GlobalReloc>, i: nat)
    requires i < |fixes| && FixesIn(code, data, fixes[i..])
    ensures FixIn(code, data, fixes[i].0)
    ensures var c := FixOne(globals, code, data, fixes[i]);
      FixesIn(c.0, c.1, fixes[i + 1..])
      && PatchFixes(globals, code, data, fixes[i..]) == PatchFixes(globals, c.0, c.1, fixes[i + 1..])
  {
    hide AddAt, Address;
    assert fixes[i..][0] == fixes[i] && fixes[i..][1..] == fixes[i + 1..];
  }
}
