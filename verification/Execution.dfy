/** Fetch, decode and execute over the emitted bytes, and the same run seen as a run over the
    code generator's items. */
module Execution {
  import opened Words
  import opened IrOps
  import opened Machine
  import opened Encoding
  import opened Ir
  import opened Codegen

  /** The machine's surroundings. `junk` and `scratch` stand for what a C helper leaves in
      caller-saved registers and below its argument area; both are arbitrary. */
  datatype World = World(p: Program, base: nat, pool0: nat, code: seq<byte>,
                         helperAt: map<word, Helper>, helperAddr: map<Helper, word>,
                         labels: map<(nat, nat), word>, junk: int -> word, scratch: Mem,
                         top: int, hostEbp: word, hostSaved: (word, word, word), hostRet: word)

  // ----- runtime_helpers.c -----

  /** uint64_t or int64_t arithmetic as C defines it; None is a trap or undefined behaviour. */
  function HelperValue(op: BinOp, a: nat, b: nat): (r: Option<nat>)
    requires a < W64 && b < W64
    ensures r.Some? ==> r.value < W64
  {
    var sa, sb := Signed(W64, a), Signed(W64, b);
    match op
    case Add => Some((a + b) % W64)
    case Sub => Some((a - b) % W64)
    case Mul => Some((a * b) % W64)
    case UDiv => if b == 0 then None else (DivLess(a, b, W64); Some(a / b))
    case URem => if b == 0 then None else Some(a % b)
    case SDiv => if sb == 0 || (sa == -W64 / 2 && sb == -1) then None else Some(TruncDiv(sa, sb) % W64)
    case SRem => if sb == 0 || (sa == -W64 / 2 && sb == -1) then None else Some(TruncRem(sa, sb) % W64)
    case And => (Pow2Widths(); Some(Bitwise(AndBits, a, b, 64)))
    case Or => (Pow2Widths(); Some(Bitwise(OrBits, a, b, 64)))
    case Xor => (Pow2Widths(); Some(Bitwise(XorBits, a, b, 64)))
    case Shl => if b >= 64 then None else Some(ShiftUp(a, b) % W64)
    case LShr => if b >= 64 then None else Some(ShiftDown(a, b))
    case AShr => if b >= 64 then None else Some(ShiftDown(sa, b) % W64)
  }

  function HelperTest(p: Pred, a: nat, b: nat): word {
    var sa, sb := Signed(W64, a), Signed(W64, b);
    match p
    case Eq => if a == b then 1 else 0
    case Ne => if a != b then 1 else 0
    case Ugt => if a > b then 1 else 0
    case Uge => if a >= b then 1 else 0
    case Ult => if a < b then 1 else 0
    case Ule => if a <= b then 1 else 0
    case Sgt => if sa > sb then 1 else 0
    case Sge => if sa >= sb then 1 else 0
    case Slt => if sa < sb then 1 else 0
    case Sle => if sa <= sb then 1 else 0
  }

  function Scribble(m: Mem, scratch: Mem, lo: int, hi: int): (r: Mem)
    ensures forall a :: Byte(r, a) == if lo <= a < hi && a in scratch then scratch[a] else Byte(m, a)
  {
    map a | a in m.Keys + scratch.Keys :: if lo <= a < hi && a in scratch then scratch[a] else Byte(m, a)
  }

  /** A whole helper call: it reads its pointer arguments at esp, may use the stack below the end
      of its argument area, and returns with only eax, ecx, edx and its result cell changed. */
  function HelperCall(w: World, h: Helper, s: State): State
    requires s.State?
  {
    var esp := s.regs[ESP];
    if esp + 12 > W32 then Fault else
    var x, y, z := Read32(s.mem, esp), Read32(s.mem, esp + 4), Read32(s.mem, esp + 8);
    match h
    case HArith(op) =>
      if x + 8 > W32 || y + 8 > W32 || z + 8 > W32 then Fault else
      (match HelperValue(op, Read64(s.mem, y), Read64(s.mem, z))
       case None => Fault
       case Some(v) =>
         s.Set(EAX, w.junk(s.eip)).Set(ECX, w.junk(s.eip + 1)).Set(EDX, w.junk(s.eip + 2)).Clear()
         .(mem := Write64(Scribble(s.mem, w.scratch, w.p.limit, esp + 12), x, v)))
    case HCompare(p) =>
      if x + 8 > W32 || y + 8 > W32 then Fault else
      s.Set(EAX, HelperTest(p, Read64(s.mem, x), Read64(s.mem, y)))
      .Set(ECX, w.junk(s.eip)).Set(EDX, w.junk(s.eip + 1)).Clear()
      .(mem := Scribble(s.mem, w.scratch, w.p.limit, esp + 8))
  }

  // ----- The machine on bytes -----

  /** Fetch, decode and execute one instruction; a call to a helper's address runs the helper. */
  function MachineStep(w: World, s: State): State {
    if s.Fault? || s.eip < w.base then Fault else
    match Decode(w.code, s.eip - w.base)
    case None => Fault
    case Some((i, n)) =>
      var s' := s.(eip := s.eip + n);
      if i.CallRel? && (s'.eip + i.rel) % W32 in w.helperAt then HelperCall(w, w.helperAt[(s'.eip + i.rel) % W32], s')
      else Exec(i, s')
  }

  function Steps(w: World, n: nat, s: State): State {
    if n == 0 then s else Steps(w, n - 1, MachineStep(w, s))
  }

  lemma {:induction false} StepsAdd(w: World, m: nat, n: nat, s: State)
    ensures Steps(w, m + n, s) == Steps(w, n, Steps(w, m, s))
  {
    hide MachineStep;
    if m > 0 {
      StepsAdd(w, m - 1, n, MachineStep(w, s));
    }
  }

  // ----- Resolving items -----

  function HelperAddr(w: World, h: Helper): word {
    if h in w.helperAddr then w.helperAddr[h] else 0
  }

  /** Absolute address of block b of function k. */
  function Label(w: World, k: nat, b: nat): word {
    if (k, b) in w.labels then w.labels[(k, b)] else 0
  }

  /** The instruction an item becomes once it is placed at pos and every address is known. */
  function Resolve(w: World, k: nat, it: Item, pos: nat): Instr
  {
    match it
    case Ins(i) => i
    case JumpTo(b) => Jmp((Label(w, k, b) - (pos + 5)) % W32)
    case JumpIf(cc, b) => Jcc(cc, (Label(w, k, b) - (pos + 6)) % W32)
    case MovGlobal(r, g, off) => MovImm(r, (off + AddressOf(w.p, g)) % W32)
    case CallHelper(h) => CallRel((HelperAddr(w, h) - (pos + 5)) % W32)
  }

  function ResolvedBytes(w: World, k: nat, items: seq<Item>, pos: nat): (b: seq<byte>)
    ensures |b| == Size(items)
  {
    if items == [] then []
    else Encode(Resolve(w, k, items[0], pos)) + ResolvedBytes(w, k, items[1..], pos + ItemSize(items[0]))
  }

  predicate ItemOk(it: Item) {
    match it
    case Ins(i) => Encodable(i) && !i.CallRel?
    case _ => true
  }

  /** The resolved bytes of items stand at address pos. */
  ghost predicate ItemsAt(w: World, k: nat, items: seq<Item>, pos: nat)
  {
    w.base <= pos && BytesAt(w.code, pos - w.base, ResolvedBytes(w, k, items, pos))
  }

  /** The part of the surroundings that concerns control transfer. */
  predicate WorldOk(w: World) {
    && w.base + |w.code| < W32
    && (forall h | h in w.helperAddr :: w.helperAddr[h] in w.helperAt && w.helperAt[w.helperAddr[h]] == h)
    && (forall op: BinOp :: HArith(op) in w.helperAddr)
    && (forall p: Pred :: HCompare(p) in w.helperAddr)
  }

  /** One item's effect; s.eip is already past it. */
  function ExecItem(w: World, k: nat, it: Item, s: State): State
    requires s.State?
  {
    match it
    case Ins(i) => Exec(i, s)
    case JumpTo(b) => s.(eip := Label(w, k, b))
    case JumpIf(cc, b) =>
      if s.flags.Undefined? then Fault
      else if Holds(cc, s.flags) then s.(eip := Label(w, k, b)) else s
    case MovGlobal(r, g, off) => s.Set(r, (off + AddressOf(w.p, g)) % W32)
    case CallHelper(h) => HelperCall(w, h, s)
  }

  /** Relative displacements reach their absolute targets. */
  lemma RelTarget(target: word, next: nat)
    ensures (next + (target - next) % W32) % W32 == target
  {
    ModAdd(next, (target - next) % W32, W32);
    ModAdd(next, target - next, W32);
  }

  lemma ResolveSize(w: World, k: nat, it: Item, pos: nat)
    ensures |Encode(Resolve(w, k, it, pos))| == ItemSize(it)
  {
  }

  /** Executing a resolved item, with pos + its size already in eip, has the item's effect. */
  lemma ResolvedStep(w: World, k: nat, it: Item, s: State)
    requires WorldOk(w) && ItemOk(it)
    requires s.State? && s.eip >= ItemSize(it)
    ensures var i := Resolve(w, k, it, s.eip - ItemSize(it));
      Encodable(i)
      && ExecItem(w, k, it, s) ==
         if i.CallRel? && (s.eip + i.rel) % W32 in w.helperAt then HelperCall(w, w.helperAt[(s.eip + i.rel) % W32], s)
         else Exec(i, s)
  {
    hide HelperCall, Label, AddressOf;
    match it {
      case Ins(_) =>
      case JumpTo(b) => RelTarget(Label(w, k, b), s.eip);
      case JumpIf(_, b) => RelTarget(Label(w, k, b), s.eip);
      case MovGlobal(_, _, _) =>
      case CallHelper(h) =>
        RelTarget(HelperAddr(w, h), s.eip);
        assert h in w.helperAddr by { if h.HArith? { assert HArith(h.op) in w.helperAddr; } else { assert HCompare(h.pred) in w.helperAddr; } }
    }
  }

  /** Running the bytes of one item is executing the item. */
  lemma StepIsItem(w: World, k: nat, items: seq<Item>, s: State)
    requires WorldOk(w) && items != [] && ItemOk(items[0])
    requires s.State? && s.eip >= 0 && ItemsAt(w, k, items, s.eip)
    ensures var next := s.eip + ItemSize(items[0]);
      && MachineStep(w, s) == ExecItem(w, k, items[0], s.(eip := next))
      && ItemsAt(w, k, items[1..], next)
  {
    hide Exec, ExecItem, HelperCall, Encode, Decode, Resolve, Encodable, ItemOk, Label;
    var it, pos := items[0], s.eip;
    var i := Resolve(w, k, it, pos);
    var e := Encode(i);
    var rest := ResolvedBytes(w, k, items[1..], pos + |e|);
    ResolveSize(w, k, it, pos);
    var all := ResolvedBytes(w, k, items, pos);
    assert all == e + rest;
    var q := pos - w.base;
    assert BytesAt(w.code, q, e) by {
      forall j | 0 <= j < |e| ensures w.code[q + j] == e[j] {
        assert w.code[q + j] == all[j];
      }
    }
    assert BytesAt(w.code, q + |e|, rest) by {
      forall j | 0 <= j < |rest| ensures w.code[q + |e| + j] == rest[j] {
        assert w.code[q + (|e| + j)] == all[|e| + j];
      }
    }
    ResolvedStep(w, k, it, s.(eip := pos + |e|));
    DecodeInvertsEncode(i, w.code, q);
  }

  // ----- Straight-line runs -----

  predicate Straight(it: Item) {
    match it
    case Ins(i) => !(i.Jcc? || i.Jmp? || i.CallRel? || i.CallEax? || i.Ret? || i.Hlt?) && Encodable(i)
    case JumpTo(_) => false
    case JumpIf(_, _) => false
    case _ => true
  }

  predicate AllStraight(items: seq<Item>) {
    forall j | 0 <= j < |items| :: Straight(items[j])
  }

  /** Run items one after another. */
  function Run(w: World, k: nat, items: seq<Item>, s: State): State
  {
    if items == [] || s.Fault? then s
    else Run(w, k, items[1..], ExecItem(w, k, items[0], s.(eip := s.eip + ItemSize(items[0]))))
  }

  lemma {:induction false} RunAppend(w: World, k: nat, a: seq<Item>, b: seq<Item>, s: State)
    ensures Run(w, k, a + b, s) == Run(w, k, b, Run(w, k, a, s))
  {
    hide ExecItem;
    if a == [] {
      assert a + b == b;
    } else if s.State? {
      assert (a + b)[1..] == a[1..] + b;
      RunAppend(w, k, a[1..], b, ExecItem(w, k, a[0], s.(eip := s.eip + ItemSize(a[0]))));
    }
  }

  lemma StraightEip(w: World, k: nat, it: Item, s: State)
    requires s.State? && Straight(it)
    ensures ItemOk(it)
    ensures var s' := ExecItem(w, k, it, s); s'.State? ==> s'.eip == s.eip
  {
  }

  /** A straight-line run over items is a run of the machine over their bytes, falling through. */
  lemma {:induction false} RunIsSteps(w: World, k: nat, items: seq<Item>, rest: seq<Item>, s: State)
    requires WorldOk(w) && AllStraight(items)
    requires s.State? && s.eip >= 0 && ItemsAt(w, k, items + rest, s.eip)
    requires Run(w, k, items, s).State?
    ensures Steps(w, |items|, s) == Run(w, k, items, s)
    ensures Run(w, k, items, s).eip == s.eip + Size(items)
    ensures ItemsAt(w, k, rest, s.eip + Size(items))
  {
    hide ExecItem, MachineStep, ItemsAt, Straight;
    if items == [] {
      assert items + rest == rest;
    } else {
      var all := items + rest;
      assert all[0] == items[0] && all[1..] == items[1..] + rest;
      var next := s.(eip := s.eip + ItemSize(items[0]));
      StraightEip(w, k, items[0], next);
      StepIsItem(w, k, all, s);
      RunIsSteps(w, k, items[1..], rest, MachineStep(w, s));
    }
  }
}
