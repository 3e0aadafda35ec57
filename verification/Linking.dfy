/** The image that translate leaves behind is what the simulation assumes: every function's
    resolved code at its address, every label at its instruction, constants and variables in the
    data segment. */
module Linking {
  import opened Words
  import opened IrOps
  import opened Machine
  import opened Abi
  import opened Encoding
  import opened Ir
  import opened Codegen
  import opened Execution
  import opened Relation
  import opened Frames
  import opened Placement
  import opened Emission
  import opened Buffers
  import opened CodeBuffer
  import opened Layout
  import opened Globals
  import opened Translate
  import opened Relocation
  import opened References
  import opened Translation
  import opened Correctness
  import Freshness

  /** The surroundings in which the finished image runs: the buffers are where they were mapped,
      apart from the stack. */
  ghost predicate Hosts(w: World, cb: CodeBuf, p: Program, vars: seq<Variable>)
    requires WfVariables(vars)
    reads cb, cb.code, cb.data
  {
    && w.p.fns == p.fns && w.p.address == cb.globals && PlanOk(w.p)
    && w.base == cb.code.base && w.code == cb.code.contents && w.labels == cb.labels && w.helperAddr == cb.helpers
    && w.pool0 == cb.data.base + VariablesSize(vars, |vars|)
    && (forall a :: a in w.p.globals <==> cb.data.base <= a < w.pool0)
    && WorldOk(w) && 0 <= w.p.limit <= w.top <= W32 && cb.data.base + |cb.data.contents| <= W32
    && (cb.data.base + |cb.data.contents| <= w.p.limit || w.top <= cb.data.base)
  }

  // ----- Placement does not depend on addresses -----

  lemma {:induction false} SamePools(p: Program, q: Program, k: nat)
    requires p.fns == q.fns && k <= |p.fns|
    ensures ModulePool(p, k) == ModulePool(q, k)
  {
    hide FnPool;
    if k > 0 {
      SamePools(p, q, k - 1);
    }
  }

  lemma {:induction false} SameItems(p: Program, q: Program, pool0: int, k: nat, n: nat)
    requires p.fns == q.fns && Shaped(p) && Shaped(q) && k < |p.fns| && n <= |p.fns[k].body|
    ensures FnItems(p, pool0, k, n) == FnItems(q, pool0, k, n)
  {
    hide InstItems, FnPool, OutSize, VarsSize;
    if n > 0 {
      SameItems(p, q, pool0, k, n - 1);
      SamePools(p, q, k);
    }
  }

  lemma {:induction false} SameStarts(p: Program, q: Program, pool0: int, k: nat)
    requires p.fns == q.fns && Shaped(p) && Shaped(q) && k <= |p.fns|
    ensures FnStart(p, pool0, k) == FnStart(q, pool0, k)
  {
    hide FnItems, Size;
    if k > 0 {
      SameStarts(p, q, pool0, k - 1);
      SameItems(p, q, pool0, k - 1, |p.fns[k - 1].body|);
    }
  }

  // ----- Code -----

  lemma ItemPlaced(w: World, pl: Place, k: nat, it: Item, pos: nat)
    requires pl.helpers == w.helperAddr
    ensures Relocation.Placed(pl, w.labels, w.p.address, k, it, pos) == Resolve(w, k, it, pos)
  {
  }

  lemma {:induction false} PlacedIsResolved(w: World, pl: Place, k: nat, items: seq<Item>, pos: nat)
    requires pl.helpers == w.helperAddr
    ensures PlacedBytes(pl, w.labels, w.p.address, k, items, pos) == ResolvedBytes(w, k, items, pos)
    decreases |items|
  {
    hide Encode, Relocation.Placed, Resolve, ItemSize;
    if items != [] {
      ItemPlaced(w, pl, k, items[0], pos);
      PlacedIsResolved(w, pl, k, items[1..], pos + ItemSize(items[0]));
    }
  }

  lemma {:induction false} StartsMono(p: Program, pool0: int, i: nat, j: nat)
    requires Shaped(p) && i <= j <= |p.fns|
    ensures FnStart(p, pool0, i) <= FnStart(p, pool0, j)
  {
    hide FnItems, Size;
    if i < j {
      StartsMono(p, pool0, i, j - 1);
    }
  }

  /** Function k's bytes inside the code of the first n functions. */
  lemma {:induction false} FunctionAt(pl: Place, labels: map<(nat, nat), word>, addresses: map<GlobalRef, word>, p: Program,
                                      pool0: int, n: nat, k: nat)
    requires Shaped(p) && k < n <= |p.fns|
    ensures BytesAt(PlacedCode(pl, labels, addresses, p, pool0, n), FnStart(p, pool0, k),
                    PlacedBytes(pl, labels, addresses, k, WholeFn(p, pool0, k), pl.code + FnStart(p, pool0, k)))
  {
    hide FnItems, Size, FnStart, PlacedBytes, WholeFn, BytesAt;
    var head := PlacedCode(pl, labels, addresses, p, pool0, n - 1);
    var tail := PlacedBytes(pl, labels, addresses, n - 1, WholeFn(p, pool0, n - 1), pl.code + FnStart(p, pool0, n - 1));
    if k == n - 1 {
      PartOfHead(tail, []);
      assert tail + [] == tail;
      PartOfTail(head, tail, 0, tail);
    } else {
      FunctionAt(pl, labels, addresses, p, pool0, n - 1, k);
      PartOfHead(head, tail);
      PartOfPart(head + tail, 0, head, FnStart(p, pool0, k),
                 PlacedBytes(pl, labels, addresses, k, WholeFn(p, pool0, k), pl.code + FnStart(p, pool0, k)));
    }
  }

  lemma {:induction false} SizeMono(p: Program, pool0: int, k: nat, i: nat, n: nat)
    requires Shaped(p) && k < |p.fns| && i <= n <= |p.fns[k].body|
    ensures Size(FnItems(p, pool0, k, i)) <= Size(FnItems(p, pool0, k, n))
  {
    hide InstItems, PoolIndex, Prolog, OutSize;
    if i < n {
      SizeMono(p, pool0, k, i, n - 1);
      SizeAppend(FnItems(p, pool0, k, n - 1),
                 InstItems(p.fns[k], n - 1, (pool0 + 8 * PoolIndex(p, k, n - 1)) % W32, OutSize(p.fns[k], |p.fns[k].body|)));
    }
  }

  lemma CodeLinked(w: World, cb: CodeBuf, p: Program, vars: seq<Variable>)
    requires WfModule(p, vars) && Relocated(cb, p, vars) && Hosts(w, cb, p, vars) && Shaped(w.p)
    ensures CodeOk(w)
  {
    hide WfFn, FnItems, FnStart, ResolvedBytes, PlacedBytes, PlacedCode, BytesAt, VariablesBytes, VariablesPlaced,
      BlocksPlaced, Pool, WorldOk, PlanOk, VariablesSize, FnDeclared, VariablesDeclared, Blocks;
    var pool0, pl, n := w.pool0, cb.Place(), |p.fns|;
    forall k | 0 <= k < n
      ensures AddressOf(w.p, Fun(k)) == w.base + FnStart(w.p, pool0, k)
      ensures ItemsAt(w, k, FnItems(w.p, pool0, k, |w.p.fns[k].body|), w.base + FnStart(w.p, pool0, k))
    {
      SameStarts(p, w.p, pool0, k);
      SameItems(p, w.p, pool0, k, |p.fns[k].body|);
      FunctionAt(pl, w.labels, w.p.address, p, pool0, n, k);
      PlacedIsResolved(w, pl, k, WholeFn(p, pool0, k), pl.code + FnStart(p, pool0, k));
      StartsMono(p, pool0, k, n);
      CodeFits(w, cb, p, vars);
      DivModUnique(w.base + FnStart(p, pool0, k), W32, 0, w.base + FnStart(p, pool0, k));
    }
  }

  lemma CodeFits(w: World, cb: CodeBuf, p: Program, vars: seq<Variable>)
    requires WfModule(p, vars) && Relocated(cb, p, vars) && Hosts(w, cb, p, vars)
    ensures w.base + FnStart(p, w.pool0, |p.fns|) == w.base + |w.code| < W32
  {
    hide WfFn, FnItems, FnStart, PlacedCode, WfInit, ModulePool, PoolBytes, VariablesBytes, VariablesPlaced,
      FunctionsPlaced, BlocksPlaced, Pool, PlanOk, VariablesSize, FnDeclared, VariablesDeclared, Blocks;
  }

  lemma LabelsLinked(w: World, cb: CodeBuf, p: Program, vars: seq<Variable>)
    requires WfModule(p, vars) && Relocated(cb, p, vars) && Hosts(w, cb, p, vars) && Shaped(w.p)
    ensures LabelsOk(w)
  {
    hide WfFn, FnItems, FnStart, PlacedCode, VariablesBytes, VariablesPlaced, FunctionsPlaced, Pool, WorldOk,
      PlanOk, VariablesSize, FnDeclared, VariablesDeclared, Blocks, Size, PcOffset;
    var pool0, n := w.pool0, |p.fns|;
    CodeFits(w, cb, p, vars);
    forall k, b | 0 <= k < n && 0 <= b < |p.fns[k].starts| && p.fns[k].starts[b] < |p.fns[k].body|
      ensures Label(w, k, b) == Pc(w, k, p.fns[k].starts[b])
    {
      var i := p.fns[k].starts[b];
      OffsetInCode(p, w.p, pool0, k, i);
      var a := w.base + PcOffset(p, pool0, k, i);
      DivModUnique(a, W32, 0, a);
    }
  }

  lemma OffsetInCode(p: Program, q: Program, pool0: int, k: nat, i: nat)
    requires p.fns == q.fns && Shaped(p) && Shaped(q) && k < |p.fns| && i <= |p.fns[k].body|
    ensures PcOffset(p, pool0, k, i) == PcOffset(q, pool0, k, i) <= FnStart(p, pool0, |p.fns|)
  {
    hide FnItems, FnStart, Size;
    SameStarts(p, q, pool0, k);
    SameItems(p, q, pool0, k, i);
    SizeMono(p, pool0, k, i, |p.fns[k].body|);
    StartGrows(p, pool0, k);
    StartsMono(p, pool0, k + 1, |p.fns|);
  }

  lemma DataLinked(w: World, cb: CodeBuf, p: Program, vars: seq<Variable>)
    requires WfModule(p, vars) && Relocated(cb, p, vars) && Hosts(w, cb, p, vars)
    ensures DataOk(w)
  {
    hide WfFn, FnItems, FnStart, PlacedCode, VariablesPlaced, FunctionsPlaced, BlocksPlaced, WorldOk, PlanOk,
      FnDeclared, VariablesDeclared, Blocks, ModulePool;
    SamePools(p, w.p, |p.fns|);
  }

  /** Relocation succeeded, so the image is linked. */
  lemma ImageIsLinked(w: World, cb: CodeBuf, p: Program, vars: seq<Variable>)
    requires WfModule(p, vars) && Relocated(cb, p, vars) && Hosts(w, cb, p, vars)
    ensures Linked(w)
  {
    hide WfFn, CodeOk, LabelsOk, DataOk, Relocated, WorldOk, PlanOk, FnDeclared, VariablesDeclared, Blocks,
      VariablesSize;
    assert Shaped(w.p);
    CodeLinked(w, cb, p, vars);
    LabelsLinked(w, cb, p, vars);
    DataLinked(w, cb, p, vars);
  }

  // ----- Data -----

  /** The data segment is in memory where it was mapped. */
  ghost predicate Loaded(cb: CodeBuf, mem: Mem)
    reads cb, cb.data
  {
    forall i | 0 <= i < |cb.data.contents| :: Byte(mem, cb.data.base + i) == cb.data.contents[i]
  }

  lemma ConstantSmall(f: Fn, v: Value)
    requires WfFn(f) && WfValue(f, v, I64)
    ensures forall x | x in PoolOf(f, v) :: x < W64
  {
    hide WfFn;
    RootWf(f, v, I64);
  }

  lemma {:induction false} ArgsSmall(f: Fn, args: seq<Value>)
    requires WfFn(f) && forall j | 0 <= j < |args| :: WfValue(f, args[j], TypeOf(f, args[j]))
    ensures forall x | x in ArgsPool(f, args) :: x < W64
  {
    hide WfFn, WfValue, PoolOf, TypeOf;
    if args != [] {
      if TypeOf(f, args[0]).I64? {
        ConstantSmall(f, args[0]);
      }
      ArgsSmall(f, args[1..]);
    }
  }

  lemma InstPoolSmall(f: Fn, i: nat)
    requires WfFn(f) && i < |f.body|
    ensures forall x | x in InstPool(f, i) :: x < W64
  {
    hide WfFn, WfValue, PoolOf, WfTarget, ArgsPool;
    InstOf(f, i);
    match f.body[i] {
      case Bin(_, ty, a, b) =>
        if ty.I64? {
          ConstantSmall(f, a);
          ConstantSmall(f, b);
        }
      case ICmp(_, ty, a, b) =>
        if ty.I64? {
          ConstantSmall(f, a);
          ConstantSmall(f, b);
        }
      case StoreMem(ty, v, _) =>
        if ty.I64? {
          ConstantSmall(f, v);
        }
      case CallFn(_, _, args) => ArgsSmall(f, args);
      case _ =>
    }
  }

  lemma {:induction false} FnPoolSmall(f: Fn, n: nat)
    requires WfFn(f) && n <= |f.body|
    ensures forall x | x in FnPool(f, n) :: x < W64
  {
    hide WfFn, InstPool;
    if n > 0 {
      FnPoolSmall(f, n - 1);
      InstPoolSmall(f, n - 1);
    }
  }

  lemma {:induction false} PoolSmall(p: Program, n: nat)
    requires n <= |p.fns| && forall k | 0 <= k < |p.fns| :: WfFn(p.fns[k])
    ensures forall x | x in ModulePool(p, n) :: x < W64
  {
    hide WfFn, FnPool;
    if n > 0 {
      PoolSmall(p, n - 1);
      FnPoolSmall(p.fns[n - 1], |p.fns[n - 1].body|);
    }
  }

  lemma {:induction false} PoolEntry(pool: seq<nat>, j: nat)
    requires j < |pool|
    ensures BytesAt(PoolBytes(pool), 8 * j, Le64(pool[j]))
  {
    hide Le64, BytesAt;
    var tail := PoolBytes(pool[1..]);
    if j == 0 {
      PartOfHead(Le64(pool[0]), tail);
    } else {
      PoolEntry(pool[1..], j - 1);
      PartOfTail(Le64(pool[0]), tail, 8 * (j - 1), Le64(pool[j]));
    }
  }

  lemma WordFrom(mem: Mem, a: int, x: word)
    requires forall i | 0 <= i < 4 :: Byte(mem, a + i) == Le(x)[i]
    ensures Read32(mem, a) == x
  {
    LeSum(x);
    assert Byte(mem, a + 0) == Le(x)[0] && Byte(mem, a + 1) == Le(x)[1] && Byte(mem, a + 2) == Le(x)[2] && Byte(mem, a + 3) == Le(x)[3];
  }

  lemma DoubleFrom(mem: Mem, a: int, x: nat)
    requires x < W64 && forall i | 0 <= i < 8 :: Byte(mem, a + i) == Le64(x)[i]
    ensures Read64(mem, a) == x
  {
    hide Le, Read32;
    forall i | 0 <= i < 4 ensures Byte(mem, a + i) == Le(x % W32)[i] {
      assert Byte(mem, a + i) == Le64(x)[i];
    }
    forall i | 0 <= i < 4 ensures Byte(mem, a + 4 + i) == Le(x / W32 % W32)[i] {
      assert Byte(mem, a + (4 + i)) == Le64(x)[4 + i];
    }
    WordFrom(mem, a, x % W32);
    WordFrom(mem, a + 4, x / W32 % W32);
    DivModUnique(x / W32, W32, 0, x / W32);
  }

  /** What the data segment holds and where. */
  lemma DataFacts(w: World, cb: CodeBuf, p: Program, vars: seq<Variable>)
    requires WfModule(p, vars) && Relocated(cb, p, vars) && Hosts(w, cb, p, vars)
    ensures cb.data.contents == VariablesBytes(cb.globals, vars, |vars|) + PoolBytes(Pool(p))
    ensures w.pool0 == cb.data.base + |VariablesBytes(cb.globals, vars, |vars|)| && w.p.fns == p.fns
    ensures forall a :: a in w.p.globals <==> cb.data.base <= a < w.pool0
  {
    hide WfFn, FnItems, FnStart, PlacedCode, VariablesPlaced, FunctionsPlaced, BlocksPlaced, WorldOk, PlanOk,
      FnDeclared, VariablesDeclared, Blocks, ModulePool, PoolBytes, VariablesBytes, VariablesSize;
  }

  /** Pooled 64-bit constants are in memory. */
  lemma PoolLoaded(w: World, cb: CodeBuf, p: Program, vars: seq<Variable>, mem: Mem)
    requires WfModule(p, vars) && Relocated(cb, p, vars) && Hosts(w, cb, p, vars) && Loaded(cb, mem)
    ensures PoolOk(w, mem)
  {
    hide WfFn, FnItems, FnStart, PlacedCode, VariablesPlaced, FunctionsPlaced, BlocksPlaced, WorldOk, PlanOk,
      FnDeclared, VariablesDeclared, Blocks, ModulePool, PoolBytes, VariablesBytes, VariablesSize, Read64, BytesAt;
    SamePools(p, w.p, |p.fns|);
    PoolSmall(p, |p.fns|);
    var pool, head := Pool(p), VariablesBytes(cb.globals, vars, |vars|);
    forall j | 0 <= j < |pool| ensures Read64(mem, w.pool0 + 8 * j) == pool[j] {
      PoolEntry(pool, j);
      PartOfTail(head, PoolBytes(pool), 8 * j, Le64(pool[j]));
      BytesInMemory(cb, mem, |head| + 8 * j, Le64(pool[j]), w.pool0 + 8 * j);
      assert pool[j] in pool;
      DoubleFrom(mem, w.pool0 + 8 * j, pool[j]);
    }
  }

  lemma BytesInMemory(cb: CodeBuf, mem: Mem, at: nat, b: seq<byte>, a: int)
    requires Loaded(cb, mem) && BytesAt(cb.data.contents, at, b) && a == cb.data.base + at
    ensures forall i | 0 <= i < |b| :: Byte(mem, a + i) == b[i]
  {
    forall i | 0 <= i < |b| ensures Byte(mem, a + i) == b[i] {
      assert Byte(mem, cb.data.base + (at + i)) == cb.data.contents[at + i];
    }
  }

  /** The program's memory before it starts: the variables' images. */
  function InitialMemory(base: nat, image: seq<byte>): (m: Mem)
    ensures forall a :: a in m <==> base <= a < base + |image|
    ensures forall a | a in m :: m[a] == image[a - base]
  {
    var n := |image|;
    if n == 0 then map[] else InitialMemory(base, image[..n - 1])[base + n - 1 := image[n - 1]]
  }

  /** A host call: esp at the return address, arguments above it, room below. */
  ghost predicate HostCall(w: World, k: nat, vals: seq<nat>, m: State)
    requires k < |w.p.fns|
  {
    && m.State? && m.eip == AddressOf(w.p, Fun(k)) && m.regs[EBP] == w.hostEbp && Saved(m) == w.hostSaved
    && Read32(m.mem, m.regs[ESP]) == w.hostRet
    && m.regs[ESP] as int + 4 + StackBytes(w.p.fns[k].params) <= w.top
    && w.p.limit <= m.regs[ESP] as int - 4 - Vars(w.p.fns[k]) - Out(w.p.fns[k]) - 8
    && vals == StackArgs(m.mem, m.regs[ESP] as int + 4, w.p.fns[k].params)
  }

  lemma EnteredFrom(w: World, k: nat, vals: seq<nat>, prog: Mem, m: State)
    requires k < |w.p.fns| && HostCall(w, k, vals, m) && PoolOk(w, m.mem)
    requires forall a | a in prog :: a in w.p.globals && Byte(m.mem, a) == prog[a]
    ensures Entered(w, k, vals, prog, m)
  {
    hide PoolOk, Vars, Out, StackBytes, StackArgs, Read32, AddressOf;
  }

  lemma ImageEntered(w: World, cb: CodeBuf, p: Program, vars: seq<Variable>, k: nat, vals: seq<nat>, m: State)
    requires WfModule(p, vars) && Relocated(cb, p, vars) && Hosts(w, cb, p, vars) && k < |w.p.fns|
    requires HostCall(w, k, vals, m) && Loaded(cb, m.mem)
    ensures Entered(w, k, vals, InitialMemory(cb.data.base, VariablesBytes(cb.globals, vars, |vars|)), m)
  {
    hide WfFn, FnDeclared, VariablesDeclared, Blocks, Relocated, HostCall, Entered, Hosts, PoolOk, VariablesBytes,
      Loaded, PoolBytes, ModulePool, WfInit, InitialMemory, VariablesSize;
    DataFacts(w, cb, p, vars);
    IsState(w, k, vals, m);
    PoolLoaded(w, cb, p, vars, m.mem);
    VariablesLoaded(w, cb, VariablesBytes(cb.globals, vars, |vars|), PoolBytes(Pool(p)), m.mem);
    EnteredFrom(w, k, vals, InitialMemory(cb.data.base, VariablesBytes(cb.globals, vars, |vars|)), m);
  }

  lemma IsState(w: World, k: nat, vals: seq<nat>, m: State)
    requires k < |w.p.fns| && HostCall(w, k, vals, m)
    ensures m.State?
  {
    hide Vars, Out, StackBytes, StackArgs, AddressOf;
  }

  lemma VariablesLoaded(w: World, cb: CodeBuf, image: seq<byte>, rest: seq<byte>, mem: Mem)
    requires Loaded(cb, mem) && cb.data.contents == image + rest && w.pool0 == cb.data.base + |image|
    requires forall a :: a in w.p.globals <==> cb.data.base <= a < w.pool0
    ensures var prog := InitialMemory(cb.data.base, image); forall a | a in prog :: a in w.p.globals && Byte(mem, a) == prog[a]
  {
    hide InitialMemory;
    var prog := InitialMemory(cb.data.base, image);
    forall a | a in prog ensures a in w.p.globals && Byte(mem, a) == prog[a] {
      var i := a - cb.data.base;
      assert Byte(mem, cb.data.base + i) == cb.data.contents[i];
    }
  }

  // ----- Variables -----

  lemma {:induction false} VariableAt(addresses: map<GlobalRef, word>, vars: seq<Variable>, n: nat, g: nat)
    requires WfVariables(vars) && g < n <= |vars|
    ensures BytesAt(VariablesBytes(addresses, vars, n), VariablesSize(vars, g), VariableBytes(addresses, vars[g]))
  {
    hide VariableBytes, BytesAt, WfInit, AllocSize;
    var head, tail := VariablesBytes(addresses, vars, n - 1), VariableBytes(addresses, vars[n - 1]);
    if g == n - 1 {
      PartOfHead(tail, []);
      assert tail + [] == tail;
      PartOfTail(head, tail, 0, tail);
    } else {
      VariableAt(addresses, vars, n - 1, g);
      PartOfHead(head, tail);
      PartOfPart(head + tail, 0, head, VariablesSize(vars, g), VariableBytes(addresses, vars[g]));
    }
  }

  /** Little-endian bytes in memory read back as the number. */
  lemma NumberFrom(mem: Mem, a: int, x: nat, t: Type)
    requires !t.I1? && forall i | 0 <= i < SizeOf(t) :: Byte(mem, a + i) == LeBytes(x, SizeOf(t))[i]
    ensures ReadMem(mem, a, t) == x % t.Modulus()
  {
    hide LeBytes, Le, Read32, Read16;
    match SizeOf(t) {
      case 1 => assert Byte(mem, a + 0) == LeBytes(x, 1)[0] == x % W8 by { OneByte(x); }
      case 2 =>
        TwoBytes(x);
        assert Byte(mem, a + 0) == LeBytes(x, 2)[0] && Byte(mem, a + 1) == LeBytes(x, 2)[1];
        ShortFrom(mem, a, x);
      case 4 =>
        FourBytes(x);
        WordFrom(mem, a, x % W32);
      case _ =>
        EightBytes(x);
        forall i | 0 <= i < 8 ensures Byte(mem, a + i) == Le64(x % W64)[i] {
          assert Byte(mem, a + i) == LeBytes(x, 8)[i];
        }
        DoubleFrom(mem, a, x % W64);
    }
  }

  lemma OneByte(x: nat)
    ensures LeBytes(x, 1) == [x % W8]
  {
    assert LeBytes(x / W8, 0) == [];
  }

  lemma TwoBytes(x: nat)
    ensures LeBytes(x, 2) == [x % W8, x / W8 % W8]
  {
    hide LeBytes;
    OneByte(x / W8);
    SplitBytes(x, 1);
  }

  lemma SplitBytes(x: nat, n: nat)
    ensures LeBytes(x, n + 1) == [x % W8] + LeBytes(x / W8, n)
  {
  }

  lemma ShortFrom(mem: Mem, a: int, x: nat)
    requires Byte(mem, a) == x % W8 && Byte(mem, a + 1) == x / W8 % W8
    ensures Read16(mem, a) == x % W16
  {
    var h := x / W8;
    assert x == W8 * h + x % W8 && h == W8 * (h / W8) + h % W8;
    DivModUnique(x, W16, h / W8, W8 * (h % W8) + x % W8);
  }

  /** The low four bytes are those of the low word. */
  lemma FourBytes(x: nat)
    ensures LeBytes(x, 4) == Le(x % W32)
  {
    hide Le;
    LeIs(x % W32);
    Pow2Widths();
    DivModUnique(x % W32, W32, 0, x % W32);
    LowBytes(x, x % W32, 4);
  }

  /** Bytes depend on the residue only. */
  lemma {:induction false} LowBytes(x: nat, y: nat, n: nat)
    requires x % Pow2(8 * n) == y % Pow2(8 * n)
    ensures LeBytes(x, n) == LeBytes(y, n)
  {
    if n > 0 {
      ByteSplit(x, n);
      ByteSplit(y, n);
      LowBytes(x / W8, y / W8, n - 1);
    }
  }

  lemma ByteSplit(x: nat, n: nat)
    requires n > 0
    ensures x % W8 == x % Pow2(8 * n) % W8 && (x / W8) % Pow2(8 * (n - 1)) == (x % Pow2(8 * n)) / W8
  {
    hide Pow2;
    Pow2Sum(8, 8 * (n - 1));
    Pow2Widths();
    var k := Pow2(8 * (n - 1));
    ModMod(x, W8, k);
    var h := x / W8;
    assert x == W8 * h + x % W8 && h == k * (h / k) + h % k;
    assert W8 * (k * (h / k)) == (W8 * k) * (h / k);
    var r := W8 * (h % k) + x % W8;
    assert r < W8 * k by { MulMono(W8, h % k + 1, k); }
    DivModUnique(x, W8 * k, h / k, r);
    DivModUnique(r, W8, h % k, x % W8);
  }

  lemma EightBytes(x: nat)
    ensures LeBytes(x, 8) == Le64(x % W64)
  {
    hide Le, LeBytes;
    HalfBytes(x);
    FourBytes(x);
    FourBytes(x / W32);
    ModMod(x, W32, W32);
    HighWord(x);
  }

  lemma HalfBytes(x: nat)
    ensures LeBytes(x, 8) == LeBytes(x, 4) + LeBytes(x / W32, 4)
  {
    hide LeBytes;
    SplitBytes(x, 7);
    SplitBytes(x / W8, 6);
    SplitBytes(x / W8 / W8, 5);
    SplitBytes(x / W8 / W8 / W8, 4);
    SplitBytes(x, 3);
    SplitBytes(x / W8, 2);
    SplitBytes(x / W8 / W8, 1);
    SplitBytes(x / W8 / W8 / W8, 0);
    assert LeBytes(x / W8 / W8 / W8 / W8, 0) == [];
    assert x / W8 / W8 / W8 / W8 == x / W32;
  }

  lemma HighWord(x: nat)
    ensures x % W64 / W32 % W32 == x / W32 % W32
  {
    var h := x / W32;
    assert x == W32 * h + x % W32 && h == W32 * (h / W32) + h % W32;
    DivModUnique(x, W64, h / W32, W32 * (h % W32) + x % W32);
    DivModUnique(W32 * (h % W32) + x % W32, W32, h % W32, x % W32);
    DivModUnique(h % W32, W32, 0, h % W32);
  }

  /** What the machine's memory holds for the scalar at a path of variable g, at the address that
      getelementptr arithmetic gives. */
  function ReadAtPath(w: World, g: nat, ty: Ty, path: seq<int>, mem: Mem): nat
    requires PathOk(ty, path) && TypeAt(ty, path).TScalar?
  {
    assert ([0] + path)[1..] == path;
    ReadMem(mem, AddressOf(w.p, Var(g)) + GepOffset(ty, [0] + path), TypeAt(ty, path).t)
  }

  /** Every scalar of every global variable can be read back from memory at the address that
      getelementptr arithmetic gives: the bytes are LLVM's value exactly when it is representable. */
  lemma VariableReads(w: World, cb: CodeBuf, p: Program, vars: seq<Variable>, mem: Mem, g: nat, path: seq<int>)
    requires WfModule(p, vars) && Relocated(cb, p, vars) && Hosts(w, cb, p, vars) && Loaded(cb, mem)
    requires g < |vars| && vars[g].Some? && Reaches(vars[g].value, path)
    requires TypeAt(TyOf(vars[g].value), path).TScalar? && !TypeAt(TyOf(vars[g].value), path).t.I1?
    ensures var scalar := ObjectAt(vars[g].value, path);
      ReadAtPath(w, g, TyOf(vars[g].value), path, mem) == ScalarMeaning(cb.globals, scalar) <==> Representable(scalar)
  {
    hide WfFn, FnDeclared, VariablesDeclared, Blocks, Relocated, Hosts, Loaded, WfInit, ReadAtPath, ObjectAt, PathOk,
      InBounds, ScalarBytes, ScalarMeaning, Representable, TypeAt;
    VariableBits(w, cb, p, vars, mem, g, path);
    ScalarExact(cb.globals, ObjectAt(vars[g].value, path));
  }

  /** The bytes of the scalar are in memory where its variable's address and its path say. */
  lemma ScalarInMemory(w: World, cb: CodeBuf, p: Program, vars: seq<Variable>, mem: Mem, g: nat, path: seq<int>) returns (a: int, bytes: seq<byte>)
    requires WfModule(p, vars) && Relocated(cb, p, vars) && Hosts(w, cb, p, vars) && Loaded(cb, mem)
    requires g < |vars| && vars[g].Some? && Reaches(vars[g].value, path) && TypeAt(TyOf(vars[g].value), path).TScalar?
    ensures a == AddressOf(w.p, Var(g)) + Offset(TyOf(vars[g].value), path) && bytes == Bytes(cb.globals, ObjectAt(vars[g].value, path))
    ensures forall i | 0 <= i < |bytes| :: Byte(mem, a + i) == bytes[i]
  {
    hide WfFn, FnDeclared, VariablesDeclared, Blocks, Relocated, Hosts, VariablesBytes, Loaded, PoolBytes, WfInit,
      Bytes, BytesAt, Offset, ObjectAt, PathOk, InBounds, VariablesSize;
    DataFacts(w, cb, p, vars);
    var init, scalar := vars[g].value, ObjectAt(vars[g].value, path);
    var image, pooled := VariablesBytes(cb.globals, vars, |vars|), PoolBytes(Pool(p));
    ImageAt(cb.globals, init, path);
    VariableAt(cb.globals, vars, |vars|, g);
    PartOfPart(image, VariablesSize(vars, g), Bytes(cb.globals, init), Offset(TyOf(init), path), Bytes(cb.globals, scalar));
    PartOfHead(image, pooled);
    var at := VariablesSize(vars, g) + Offset(TyOf(init), path);
    PartOfPart(image + pooled, 0, image, at, Bytes(cb.globals, scalar));
    NotEmpty(init, path);
    VariableAddress(w, cb, p, vars, g);
    a, bytes := AddressOf(w.p, Var(g)) + Offset(TyOf(init), path), Bytes(cb.globals, scalar);
    BytesInMemory(cb, mem, at, bytes, a);
  }

  /** The value read is the number laid down, relocated if it is a pointer. */
  lemma VariableBits(w: World, cb: CodeBuf, p: Program, vars: seq<Variable>, mem: Mem, g: nat, path: seq<int>)
    requires WfModule(p, vars) && Relocated(cb, p, vars) && Hosts(w, cb, p, vars) && Loaded(cb, mem)
    requires g < |vars| && vars[g].Some? && Reaches(vars[g].value, path)
    requires TypeAt(TyOf(vars[g].value), path).TScalar? && !TypeAt(TyOf(vars[g].value), path).t.I1?
    ensures var scalar := ObjectAt(vars[g].value, path);
      ReadAtPath(w, g, TyOf(vars[g].value), path, mem) == ScalarBytes(cb.globals, scalar) % TyOf(scalar).t.Modulus()
  {
    hide WfFn, FnDeclared, VariablesDeclared, Blocks, Relocated, Hosts, Loaded, WfInit, LeBytes, ReadMem,
      ScalarBytes, AddressOf;
    var init, scalar := vars[g].value, ObjectAt(vars[g].value, path);
    var a, bytes := ScalarInMemory(w, cb, p, vars, mem, g, path);
    ScalarIsBytes(cb.globals, scalar);
    NumberFrom(mem, a, ScalarBytes(cb.globals, scalar), TyOf(scalar).t);
    assert ([0] + path)[1..] == path;
  }

  /** An initialiser that is not representable: the 64-bit number 2^32 + 1, cast to a pointer and
      back. Its variable reads as 2^32 + 1 in the loaded image, and LLVM's value is 1. */
  lemma InitialiserLost(w: World, cb: CodeBuf, p: Program, vars: seq<Variable>, mem: Mem, g: nat, path: seq<int>)
    requires WfModule(p, vars) && Relocated(cb, p, vars) && Hosts(w, cb, p, vars) && Loaded(cb, mem)
    requires g < |vars| && vars[g].Some? && Reaches(vars[g].value, path) && ObjectAt(vars[g].value, path) == CutOff()
    ensures ReadAtPath(w, g, TyOf(vars[g].value), path, mem) == W32 + 1
    ensures WfInit(CutOff()) && ScalarMeaning(cb.globals, CutOff()) == 1
  {
    hide WfModule, Relocated, Hosts, Loaded, ReadAtPath, ObjectAt, PathOk, InBounds;
    CutOffIs(cb.globals);
    VariableBits(w, cb, p, vars, mem, g, path);
  }

  function CutOff(): Init {
    Leaf(I64, Constants.CastTo(Constants.CastTo(Constants.Int(I64, W32 + 1), Ptr), I64))
  }

  lemma CutOffIs(addresses: map<GlobalRef, word>)
    ensures WfInit(CutOff()) && TyOf(CutOff()) == TScalar(I64)
    ensures ScalarBytes(addresses, CutOff()) % W64 == W32 + 1 && ScalarMeaning(addresses, CutOff()) == 1
  {
    hide PathOk, GepOffset;
    Constants.TruncationLost(addresses);
    Constants.ExpandIsSum(CutOff().e);
    DivModUnique(W32 + 1, W64, 0, W32 + 1);
  }

  lemma NotEmpty(init: Init, path: seq<int>)
    requires WfInit(init) && Reaches(init, path) && TypeAt(TyOf(init), path).TScalar?
    ensures AllocSize(TyOf(init)) > 0
  {
    hide AllocSize, Offset, WfInit;
    OffsetInside(TyOf(init), path);
    ScalarSize(TypeAt(TyOf(init), path).t);
  }

  lemma ScalarIsBytes(addresses: map<GlobalRef, word>, init: Init)
    requires WfInit(init) && TyOf(init).TScalar?
    ensures Bytes(addresses, init) == LeBytes(ScalarBytes(addresses, init), SizeOf(TyOf(init).t))
  {
    hide LeBytes, LeafValue;
    ZerosAreZero(SizeOf(TyOf(init).t));
    ScalarSize(TyOf(init).t);
  }

  lemma VariableAddress(w: World, cb: CodeBuf, p: Program, vars: seq<Variable>, g: nat)
    requires WfModule(p, vars) && Relocated(cb, p, vars) && Hosts(w, cb, p, vars) && g < |vars| && vars[g].Some?
    requires AllocSize(TyOf(vars[g].value)) > 0
    ensures AddressOf(w.p, Var(g)) == cb.data.base + VariablesSize(vars, g)
  {
    hide WfFn, FnItems, FnStart, PlacedCode, FunctionsPlaced, BlocksPlaced, WorldOk, PlanOk, FnDeclared,
      VariablesDeclared, Blocks, ModulePool, PoolBytes, VariablesBytes, VariablesSize, WfInit, AllocSize;
    VariableInSpace(w, cb, p, vars, g);
    var a := cb.data.base + VariablesSize(vars, g);
    DivModUnique(a, W32, 0, a);
  }

  lemma VariableInSpace(w: World, cb: CodeBuf, p: Program, vars: seq<Variable>, g: nat)
    requires WfModule(p, vars) && Relocated(cb, p, vars) && Hosts(w, cb, p, vars) && g < |vars| && vars[g].Some?
    ensures cb.data.base + VariablesSize(vars, g) + AllocSize(TyOf(vars[g].value)) <= W32
  {
    hide WfFn, FnItems, FnStart, PlacedCode, FunctionsPlaced, BlocksPlaced, WorldOk, PlanOk, FnDeclared,
      VariablesDeclared, Blocks, ModulePool, PoolBytes, VariablesBytes, WfInit, AllocSize, VariablesPlaced;
    SizesMono(vars, g + 1, |vars|);
  }

  lemma {:induction false} SizesMono(vars: seq<Variable>, i: nat, j: nat)
    requires i <= j <= |vars|
    ensures VariablesSize(vars, i) <= VariablesSize(vars, j)
  {
    if i < j {
      SizesMono(vars, i, j - 1);
    }
  }

  /** Addresses at which helpers can be told apart. */
  predicate Distinct(helpers: map<Helper, word>) {
    forall g, h | g in helpers && h in helpers && helpers[g] == helpers[h] :: g == h
  }

  /** Whatever the buffers' addresses, the helpers' addresses, the stack's place and the host's
      registers: if they fit the address space and keep apart, the image has surroundings to run in,
      and a call that a host makes there is one. */
  lemma HostsExist(cb: CodeBuf, p: Program, vars: seq<Variable>, junk: int -> word, scratch: Mem, limit: int, top: int, m: State)
    returns (w: World)
    requires WfModule(p, vars) && Relocated(cb, p, vars) && HelpersKnown(cb.helpers) && Distinct(cb.helpers) && m.State?
    requires cb.code.base + |cb.code.contents| < W32 && cb.data.base + |cb.data.contents| <= W32
    requires 0 <= limit <= top <= W32 && (cb.data.base + |cb.data.contents| <= limit || top <= cb.data.base)
    ensures Hosts(w, cb, p, vars) && w.p.limit == limit && w.top == top && w.junk == junk && w.scratch == scratch
    ensures forall k | 0 <= k < |p.fns| ::
      var params := p.fns[k].params;
      (m.eip == AddressOf(w.p, Fun(k)) && m.regs[ESP] as int + 4 + StackBytes(params) <= top
       && limit <= m.regs[ESP] as int - 4 - Vars(p.fns[k]) - Out(p.fns[k]) - 8)
      ==> HostCall(w, k, StackArgs(m.mem, m.regs[ESP] as int + 4, params), m)
  {
    hide Relocated, VariablesSize, VariablesBytes, PoolBytes, Vars, Out, StackArgs, StackBytes, Read32, InitialMemory, WfFn,
      FnDeclared, VariablesDeclared, Blocks;
    var pool0 := cb.data.base + VariablesSize(vars, |vars|);
    var plan := seq(|p.fns|, k requires 0 <= k < |p.fns| => Plan(Vars(p.fns[k]), Out(p.fns[k])));
    var bytes := InitialMemory(cb.data.base, VariablesBytes(cb.globals, vars, |vars|)).Keys;
    var q := Program(p.fns, cb.globals, bytes, limit, plan);
    var helperAt := map h | h in cb.helpers :: cb.helpers[h] := h;
    w := World(q, cb.code.base, pool0, cb.code.contents, helperAt, cb.helpers, cb.labels, junk, scratch, top,
               m.regs[EBP], Saved(m), Read32(m.mem, m.regs[ESP]));
  }

  /** From source to result. Translate a well-formed module; if it fits, then for every call from
      the host whose program run ends without reading an overwritten name, the machine, started on
      the translated bytes, returns to the host with that run's result and memory. */
  lemma TranslatedProgramRuns(w: World, cb: CodeBuf, p: Program, vars: seq<Variable>, k: nat, vals: seq<nat>, m: State, n: nat,
                              s': IrState) returns (steps: nat, t: State)
    requires WfModule(p, vars) && Relocated(cb, p, vars) && Hosts(w, cb, p, vars) && k < |w.p.fns|
    requires HostCall(w, k, vals, m) && Loaded(cb, m.mem)
    requires var s := Start(w.p, k, vals, m.regs[ESP] as int - 4 - Vars(w.p.fns[k]),
                            InitialMemory(cb.data.base, VariablesBytes(cb.globals, vars, |vars|)));
      IrRun(w.p, false, n, s) == Some(s') && s'.Done? && IrRun(w.p, true, n, s).Some?
    ensures Steps(w, steps, m) == t && m.State? && ReturnsTo(m, w.p.fns[k].ret, s'.ret, t)
    ensures forall a | a in s'.mem :: Byte(t.mem, a) == s'.mem[a]
  {
    hide Linked, Entered, HostCall, Loaded, Relocated, Hosts, WfFn, FnDeclared, VariablesDeclared, Vars, Steps,
      IrRun, ReturnsTo, Start, VariablesBytes;
    ImageIsLinked(w, cb, p, vars);
    ImageEntered(w, cb, p, vars, k, vals, m);
    steps, t := CompiledProgram(w, k, vals, InitialMemory(cb.data.base, VariablesBytes(cb.globals, vars, |vars|)), m, n, s');
  }

  /** The same without any condition on the run, for a module with a certificate. */
  lemma CertifiedModuleRuns(w: World, cb: CodeBuf, p: Program, vars: seq<Variable>, certs: seq<Freshness.Certificate>, k: nat,
                            vals: seq<nat>, m: State, n: nat, s': IrState) returns (steps: nat, t: State)
    requires WfModule(p, vars) && Relocated(cb, p, vars) && Hosts(w, cb, p, vars) && k < |w.p.fns|
    requires Freshness.FreshProgram(w.p, certs) && HostCall(w, k, vals, m) && Loaded(cb, m.mem)
    requires IrRun(w.p, false, n, Start(w.p, k, vals, m.regs[ESP] as int - 4 - Vars(w.p.fns[k]),
                                       InitialMemory(cb.data.base, VariablesBytes(cb.globals, vars, |vars|)))) == Some(s') && s'.Done?
    ensures Steps(w, steps, m) == t && m.State? && ReturnsTo(m, w.p.fns[k].ret, s'.ret, t)
    ensures forall a | a in s'.mem :: Byte(t.mem, a) == s'.mem[a]
  {
    hide Linked, Entered, HostCall, Loaded, Relocated, Hosts, WfFn, FnDeclared, VariablesDeclared, Vars, Steps, IrRun,
      ReturnsTo, Start, VariablesBytes, Freshness.FreshProgram;
    ImageIsLinked(w, cb, p, vars);
    ImageEntered(w, cb, p, vars, k, vals, m);
    steps, t := CertifiedProgram(w, certs, k, vals, InitialMemory(cb.data.base, VariablesBytes(cb.globals, vars, |vars|)), m, n, s');
  }

  /** No certificate is needed for a module without phis and casts whose selects are on conditions of
      the boolean class. */
  lemma DirectModuleRuns(w: World, cb: CodeBuf, p: Program, vars: seq<Variable>, k: nat, vals: seq<nat>, m: State, n: nat,
                         s': IrState) returns (steps: nat, t: State)
    requires WfModule(p, vars) && Relocated(cb, p, vars) && Hosts(w, cb, p, vars) && k < |w.p.fns|
    requires (forall i | 0 <= i < |p.fns| :: Freshness.Direct(p.fns[i])) && HostCall(w, k, vals, m) && Loaded(cb, m.mem)
    requires IrRun(w.p, false, n, Start(w.p, k, vals, m.regs[ESP] as int - 4 - Vars(w.p.fns[k]),
                                       InitialMemory(cb.data.base, VariablesBytes(cb.globals, vars, |vars|)))) == Some(s') && s'.Done?
    ensures Steps(w, steps, m) == t && m.State? && ReturnsTo(m, w.p.fns[k].ret, s'.ret, t)
    ensures forall a | a in s'.mem :: Byte(t.mem, a) == s'.mem[a]
  {
    hide HostCall, Loaded, Relocated, WfFn, FnDeclared, VariablesDeclared, Blocks, Vars, Steps, IrRun, ReturnsTo, Start,
      VariablesBytes, Freshness.FreshProgram, Freshness.Direct, WorldOk, PlanOk;
    var certs := Freshness.DirectProgram(w.p);
    steps, t := CertifiedModuleRuns(w, cb, p, vars, certs, k, vals, m, n, s');
  }
}
