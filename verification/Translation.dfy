/** translate: global variables, then functions, then relocation, for a whole module. */
module Translation {
  import opened Words
  import opened IrOps
  import opened Machine
  import opened Encoding
  import opened Ir
  import opened Codegen
  import opened Relation
  import opened Emission
  import opened Buffers
  import opened CodeBuffer
  import opened Layout
  import opened Constants
  import opened Globals
  import opened Translate
  import opened Relocation
  import opened References

  // ----- What is written before relocation -----

  /** A global variable's initialiser; an undefined weak symbol has none and address 0. */
  type Variable = Option<Init>

  predicate WfVariables(vars: seq<Variable>) {
    forall g | 0 <= g < |vars| && vars[g].Some? :: WfInit(vars[g].value)
  }

  function VariableBytes(addresses: map<GlobalRef, word>, v: Variable): seq<byte>
    requires v.Some? ==> WfInit(v.value)
  {
    if v.Some? then Bytes(addresses, v.value) else []
  }

  /** The first n variables. */
  function VariablesBytes(addresses: map<GlobalRef, word>, vars: seq<Variable>, n: nat): (b: seq<byte>)
    requires WfVariables(vars) && n <= |vars|
    ensures |b| == VariablesSize(vars, n)
  {
    if n == 0 then [] else VariablesBytes(addresses, vars, n - 1) + VariableBytes(addresses, vars[n - 1])
  }

  function VariablesSize(vars: seq<Variable>, n: nat): nat
    requires n <= |vars|
  {
    if n == 0 then 0
    else VariablesSize(vars, n - 1) + if vars[n - 1].Some? then AllocSize(TyOf(vars[n - 1].value)) else 0
  }

  function VariableRelocs(v: Variable, off: nat): seq<GlobalReloc>
    requires v.Some? ==> WfInit(v.value)
  {
    if v.Some? then Relocs(v.value, off) else []
  }

  function VariablesRelocs(vars: seq<Variable>, n: nat): seq<GlobalReloc>
    requires WfVariables(vars) && n <= |vars|
  {
    if n == 0 then [] else VariablesRelocs(vars, n - 1) + VariableRelocs(vars[n - 1], VariablesSize(vars, n - 1))
  }

  function WholeFn(p: Program, pool0: int, k: nat): seq<Item>
    requires Shaped(p) && k < |p.fns|
  {
    FnItems(p, pool0, k, |p.fns[k].body|)
  }

  /** The code of the first n functions. */
  function CodeBytes(pl: Place, p: Program, pool0: int, n: nat): (b: seq<byte>)
    requires Shaped(p) && n <= |p.fns|
    ensures |b| == FnStart(p, pool0, n)
  {
    if n == 0 then []
    else CodeBytes(pl, p, pool0, n - 1) + PendingBytes(pl, WholeFn(p, pool0, n - 1), pl.code + FnStart(p, pool0, n - 1))
  }

  function CodeJumps(p: Program, pool0: int, n: nat): seq<JumpReloc>
    requires Shaped(p) && n <= |p.fns|
  {
    if n == 0 then [] else CodeJumps(p, pool0, n - 1) + JumpSites(n - 1, WholeFn(p, pool0, n - 1), FnStart(p, pool0, n - 1))
  }

  function CodeFixes(p: Program, pool0: int, n: nat): seq<GlobalReloc>
    requires Shaped(p) && n <= |p.fns|
  {
    if n == 0 then [] else CodeFixes(p, pool0, n - 1) + FixSites(WholeFn(p, pool0, n - 1), FnStart(p, pool0, n - 1))
  }

  // ----- What relocation makes of it -----

  function JumpedCode(pl: Place, labels: map<(nat, nat), word>, p: Program, pool0: int, n: nat): (b: seq<byte>)
    requires Shaped(p) && n <= |p.fns|
    ensures |b| == FnStart(p, pool0, n)
  {
    if n == 0 then []
    else JumpedCode(pl, labels, p, pool0, n - 1)
         + JumpedBytes(pl, labels, n - 1, WholeFn(p, pool0, n - 1), pl.code + FnStart(p, pool0, n - 1))
  }

  function PlacedCode(pl: Place, labels: map<(nat, nat), word>, addresses: map<GlobalRef, word>, p: Program, pool0: int, n: nat)
    : (b: seq<byte>)
    requires Shaped(p) && n <= |p.fns|
    ensures |b| == FnStart(p, pool0, n)
  {
    if n == 0 then []
    else PlacedCode(pl, labels, addresses, p, pool0, n - 1)
         + PlacedBytes(pl, labels, addresses, n - 1, WholeFn(p, pool0, n - 1), pl.code + FnStart(p, pool0, n - 1))
  }

  lemma StartGrows(p: Program, pool0: int, n: nat)
    requires Shaped(p) && n < |p.fns|
    ensures FnStart(p, pool0, n + 1) == FnStart(p, pool0, n) + Size(WholeFn(p, pool0, n))
  {
    hide FnItems, Size;
  }

  lemma StartZero(p: Program, pool0: int)
    requires Shaped(p)
    ensures FnStart(p, pool0, 0) == 0
  {
  }

  lemma {:induction false} JumpsInside(p: Program, pool0: int, n: nat, more: seq<JumpReloc>, d: nat)
    requires Shaped(p) && n <= |p.fns| && FnStart(p, pool0, n) <= d && JumpsBelow(d, more)
    ensures JumpsBelow(d, CodeJumps(p, pool0, n) + more)
  {
    hide FnItems, Size, JumpsBelow, FnStart;
    if n == 0 {
      assert [] + more == more;
    } else {
      StartGrows(p, pool0, n - 1);
      var sites := JumpSites(n - 1, WholeFn(p, pool0, n - 1), FnStart(p, pool0, n - 1));
      SitesBelow(n - 1, WholeFn(p, pool0, n - 1), FnStart(p, pool0, n - 1), more, d);
      JumpsInside(p, pool0, n - 1, sites + more, d);
      assert CodeJumps(p, pool0, n) + more == CodeJumps(p, pool0, n - 1) + (sites + more);
    }
  }

  /** All jumps of the module. */
  lemma {:induction false} CodeJumped(pl: Place, labels: map<(nat, nat), word>, p: Program, pool0: int, n: nat, c: seq<byte>,
                                      more: seq<JumpReloc>)
    requires Shaped(p) && n <= |p.fns| && JumpsBelow(FnStart(p, pool0, n) + |c|, more)
    ensures JumpsMake(pl.code, labels, CodeBytes(pl, p, pool0, n) + c, CodeJumps(p, pool0, n),
                      JumpedCode(pl, labels, p, pool0, n) + c, more)
    decreases n
  {
    hide FnItems, Size, JumpsBelow, JumpsMake, FnStart, WholeFn, PendingBytes, JumpedBytes, JumpSites;
    if n == 0 {
      StartZero(p, pool0);
      JumpsNone(pl.code, labels, [] + c, more);
    } else {
      StartGrows(p, pool0, n - 1);
      var items, start := WholeFn(p, pool0, n - 1), FnStart(p, pool0, n - 1);
      var sites := JumpSites(n - 1, items, start);
      var before, after := PendingBytes(pl, items, pl.code + start), JumpedBytes(pl, labels, n - 1, items, pl.code + start);
      var code, done := CodeBytes(pl, p, pool0, n - 1), JumpedCode(pl, labels, p, pool0, n - 1);
      SitesBelow(n - 1, items, start, more, start + Size(items) + |c|);
      CodeJumped(pl, labels, p, pool0, n - 1, before + c, sites + more);
      ItemsJumped(pl, labels, n - 1, done, items, c, more);
      assert code + (before + c) == (code + before) + c;
      assert done + (before + c) == done + before + c;
      JumpsChain(pl.code, labels, (code + before) + c, CodeJumps(p, pool0, n - 1), done + before + c, sites, done + after + c, more);
    }
  }

  lemma {:induction false} CodeFixesInside(p: Program, pool0: int, n: nat, more: seq<GlobalReloc>, c: nat, d: nat)
    requires Shaped(p) && n <= |p.fns| && FnStart(p, pool0, n) <= c && FixesBelow(c, d, more)
    ensures FixesBelow(c, d, CodeFixes(p, pool0, n) + more)
  {
    hide FnItems, Size, FixesBelow, FnStart;
    if n == 0 {
      assert [] + more == more;
    } else {
      StartGrows(p, pool0, n - 1);
      var sites := FixSites(WholeFn(p, pool0, n - 1), FnStart(p, pool0, n - 1));
      FixesInside(WholeFn(p, pool0, n - 1), FnStart(p, pool0, n - 1), more, c, d);
      CodeFixesInside(p, pool0, n - 1, sites + more, c, d);
      assert CodeFixes(p, pool0, n) + more == CodeFixes(p, pool0, n - 1) + (sites + more);
    }
  }

  /** All global fields of the code. */
  lemma {:induction false} CodeFixed(pl: Place, labels: map<(nat, nat), word>, addresses: map<GlobalRef, word>, p: Program, pool0: int,
                                     n: nat, c: seq<byte>, data: seq<byte>, more: seq<GlobalReloc>)
    requires Shaped(p) && n <= |p.fns| && FixesBelow(FnStart(p, pool0, n) + |c|, |data|, more)
    ensures FixesMake(addresses, (JumpedCode(pl, labels, p, pool0, n) + c, data), CodeFixes(p, pool0, n),
                      (PlacedCode(pl, labels, addresses, p, pool0, n) + c, data), more)
    decreases n
  {
    hide FnItems, Size, FixesBelow, FixesMake, FnStart, WholeFn, JumpedBytes, PlacedBytes, FixSites;
    if n == 0 {
      StartZero(p, pool0);
      FixesNone(addresses, ([] + c, data), more);
    } else {
      StartGrows(p, pool0, n - 1);
      var items, start := WholeFn(p, pool0, n - 1), FnStart(p, pool0, n - 1);
      var sites := FixSites(items, start);
      var before, after := JumpedBytes(pl, labels, n - 1, items, pl.code + start), PlacedBytes(pl, labels, addresses, n - 1, items, pl.code + start);
      var code, done := JumpedCode(pl, labels, p, pool0, n - 1), PlacedCode(pl, labels, addresses, p, pool0, n - 1);
      FixesInside(items, start, more, start + Size(items) + |c|, |data|);
      CodeFixed(pl, labels, addresses, p, pool0, n - 1, before + c, data, sites + more);
      ItemsFixed(pl, labels, addresses, n - 1, done, items, c, data, more);
      assert code + (before + c) == (code + before) + c;
      assert done + (before + c) == done + before + c;
      FixesChain(addresses, ((code + before) + c, data), CodeFixes(p, pool0, n - 1), (done + before + c, data), sites,
                 (done + after + c, data), more);
    }
  }

  lemma {:induction false} VariablesInside(vars: seq<Variable>, n: nat, more: seq<GlobalReloc>, c: nat, d: nat)
    requires WfVariables(vars) && n <= |vars| && VariablesSize(vars, n) <= d && FixesBelow(c, d, more)
    ensures FixesBelow(c, d, VariablesRelocs(vars, n) + more)
  {
    hide AllocSize, FixesBelow, WfInit, VariableRelocs;
    if n == 0 {
      assert [] + more == more;
    } else {
      var sites := VariableRelocs(vars[n - 1], VariablesSize(vars, n - 1));
      VariableInside(vars[n - 1], VariablesSize(vars, n - 1), more, c, d);
      VariablesInside(vars, n - 1, sites + more, c, d);
      assert VariablesRelocs(vars, n) + more == VariablesRelocs(vars, n - 1) + (sites + more);
    }
  }

  /** All address fields of the variables. */
  lemma {:induction false} VariablesFixed(addresses: map<GlobalRef, word>, code: seq<byte>, vars: seq<Variable>, n: nat, c: seq<byte>,
                                          more: seq<GlobalReloc>)
    requires WfVariables(vars) && n <= |vars| && FixesBelow(|code|, VariablesSize(vars, n) + |c|, more)
    ensures FixesMake(addresses, (code, VariablesBytes(map[], vars, n) + c), VariablesRelocs(vars, n),
                      (code, VariablesBytes(addresses, vars, n) + c), more)
    decreases n
  {
    hide AllocSize, FixesBelow, FixesMake, WfInit, Relocs, Bytes;
    if n == 0 {
      FixesNone(addresses, (code, [] + c), more);
    } else {
      var off, v := VariablesSize(vars, n - 1), vars[n - 1];
      var sites := VariableRelocs(v, off);
      var before, after := VariableBytes(map[], v), VariableBytes(addresses, v);
      var data, done := VariablesBytes(map[], vars, n - 1), VariablesBytes(addresses, vars, n - 1);
      VariableInside(v, off, more, |code|, VariablesSize(vars, n) + |c|);
      VariablesFixed(addresses, code, vars, n - 1, before + c, sites + more);
      VariableFixed(addresses, code, done, v, c, more);
      assert data + (before + c) == (data + before) + c;
      assert done + (before + c) == done + before + c;
      FixesChain(addresses, (code, (data + before) + c), VariablesRelocs(vars, n - 1), (code, done + before + c), sites,
                 (code, done + after + c), more);
    }
  }

  lemma VariableInside(v: Variable, off: nat, more: seq<GlobalReloc>, c: nat, d: nat)
    requires (v.Some? ==> WfInit(v.value) && off + AllocSize(TyOf(v.value)) <= d) && FixesBelow(c, d, more)
    ensures FixesBelow(c, d, VariableRelocs(v, off) + more)
  {
    hide AllocSize, FixesBelow, WfInit, Relocs;
    if v.Some? {
      RelocsInside(v.value, off, more, c, d);
    } else {
      assert [] + more == more;
    }
  }

  lemma VariableFixed(addresses: map<GlobalRef, word>, code: seq<byte>, a: seq<byte>, v: Variable, c: seq<byte>, more: seq<GlobalReloc>)
    requires v.Some? ==> WfInit(v.value)
    requires FixesBelow(|code|, |a| + (if v.Some? then AllocSize(TyOf(v.value)) else 0) + |c|, more)
    ensures FixesMake(addresses, (code, a + VariableBytes(map[], v) + c), VariableRelocs(v, |a|),
                      (code, a + VariableBytes(addresses, v) + c), more)
  {
    hide AllocSize, FixesBelow, FixesMake, WfInit, Relocs, Bytes;
    if v.Some? {
      InitFixed(addresses, code, a, v.value, c, more);
    } else {
      FixesNone(addresses, (code, a + [] + c), more);
    }
  }

  // ----- Global variables -----

  /** The first n variables have their addresses, in order, one behind the other. */
  ghost predicate VariablesPlaced(globals: map<GlobalRef, word>, base: nat, vars: seq<Variable>, n: nat)
    requires n <= |vars|
  {
    forall g | 0 <= g < n ::
      Var(g) in globals && globals[Var(g)] == if vars[g].Some? then (base + VariablesSize(vars, g)) % W32 else 0
  }

  lemma VariablesStep(vars: seq<Variable>, g: nat)
    requires WfVariables(vars) && g < |vars|
    ensures VariablesBytes(map[], vars, g + 1) == VariablesBytes(map[], vars, g) + VariableBytes(map[], vars[g])
    ensures VariablesRelocs(vars, g + 1) == VariablesRelocs(vars, g) + VariableRelocs(vars[g], VariablesSize(vars, g))
    ensures |VariablesBytes(map[], vars, g)| == VariablesSize(vars, g)
  {
    hide VariableBytes, VariableRelocs, AllocSize;
  }

  lemma PlaceStep(globals: map<GlobalRef, word>, base: nat, vars: seq<Variable>, g: nat)
    requires g < |vars| && VariablesPlaced(globals, base, vars, g)
    ensures VariablesPlaced(globals[Var(g) := if vars[g].Some? then (base + VariablesSize(vars, g)) % W32 else 0], base, vars, g + 1)
  {
    hide VariablesSize;
  }

  /** One iteration of the first loop of translate. */
  method WriteVariable(cb: CodeBuf, vars: seq<Variable>, g: nat)
    requires cb.Separate() && WfVariables(vars) && g < |vars| && VariablesPlaced(cb.globals, cb.data.base, vars, g)
    requires cb.data.contents == VariablesBytes(map[], vars, g) && cb.globalRelocs == VariablesRelocs(vars, g)
    modifies cb`globals, cb`globalRelocs, cb.data, cb.data.buf
    ensures cb.Separate() && VariablesPlaced(cb.globals, cb.data.base, vars, g + 1)
    ensures cb.data.contents == VariablesBytes(map[], vars, g + 1) && cb.globalRelocs == VariablesRelocs(vars, g + 1)
  {
    hide Bytes, Relocs, WfInit, AllocSize, TyOf, VariablesBytes, VariablesRelocs, VariablesSize, VariablesPlaced;
    VariablesStep(vars, g);
    PlaceStep(cb.globals, cb.data.base, vars, g);
    if vars[g].Some? {
      cb.globals := cb.globals[Var(g) := cb.data.CurrentPos()];
      WriteGlobal(cb, vars[g].value);
    } else {
      cb.globals := cb.globals[Var(g) := 0];
    }
  }

  /** The first loop of translate. */
  method WriteGlobals(cb: CodeBuf, vars: seq<Variable>)
    requires cb.Separate() && WfVariables(vars) && cb.Image() == Buf([], [], map[], map[], map[], [], [])
    modifies cb`globals, cb`globalRelocs, cb.data, cb.data.buf
    ensures cb.Separate() && cb.data.contents == VariablesBytes(map[], vars, |vars|)
    ensures cb.globalRelocs == VariablesRelocs(vars, |vars|)
    ensures VariablesPlaced(cb.globals, cb.data.base, vars, |vars|)
  {
    hide WfVariables, VariablesBytes, VariablesRelocs;
    var g := 0;
    NoVariables(vars);
    while g < |vars|
      invariant 0 <= g <= |vars| && cb.Separate() && VariablesPlaced(cb.globals, cb.data.base, vars, g)
      invariant cb.data.contents == VariablesBytes(map[], vars, g) && cb.globalRelocs == VariablesRelocs(vars, g)
    {
      WriteVariable(cb, vars, g);
      g := g + 1;
    }
  }

  lemma NoVariables(vars: seq<Variable>)
    requires WfVariables(vars)
    ensures VariablesBytes(map[], vars, 0) == [] && VariablesRelocs(vars, 0) == []
  {
  }

  // ----- Functions -----

  ghost predicate FunctionsPlaced(globals: map<GlobalRef, word>, base: nat, p: Program, pool0: int, n: nat)
    requires Shaped(p) && n <= |p.fns|
  {
    forall k | 0 <= k < n :: Fun(k) in globals && globals[Fun(k)] == (base + FnStart(p, pool0, k)) % W32
  }

  ghost predicate BlocksPlaced(labels: map<(nat, nat), word>, base: nat, p: Program, pool0: int, n: nat)
    requires Shaped(p) && n <= |p.fns|
  {
    forall k, b | 0 <= k < n && 0 <= b < |p.fns[k].starts| && p.fns[k].starts[b] <= |p.fns[k].body| ::
      (k, b) in labels && labels[(k, b)] == (base + PcOffset(p, pool0, k, p.fns[k].starts[b])) % W32
  }

  /** The buffers and tables when function n is next. */
  ghost predicate AtFunction(e: Buf, pl: Place, p: Program, pool0: int, vars: seq<Variable>, n: nat)
    requires Shaped(p) && n <= |p.fns| && WfVariables(vars)
  {
    && e.code == CodeBytes(pl, p, pool0, n)
    && e.data == VariablesBytes(map[], vars, |vars|) + PoolBytes(ModulePool(p, n))
    && e.jumps == CodeJumps(p, pool0, n) && e.fixes == VariablesRelocs(vars, |vars|) + CodeFixes(p, pool0, n)
    && VariablesPlaced(e.globals, pl.data, vars, |vars|) && FunctionsPlaced(e.globals, pl.code, p, pool0, n)
    && BlocksPlaced(e.labels, pl.code, p, pool0, n)
    && (forall q | q in e.labels :: q.0 < n) && (forall q | q in e.slots :: q.0 < n)
  }

  lemma PoolGrows(p: Program, n: nat)
    requires n < |p.fns|
    ensures ModulePool(p, n + 1) == ModulePool(p, n) + FnPool(p.fns[n], |p.fns[n].body|)
    ensures PoolIndex(p, n, 0) == |ModulePool(p, n)|
  {
  }

  /** The buffers after function n. */
  lemma FunctionAdded(pl: Place, p: Program, pool0: int, vars: seq<Variable>, n: nat, e: Buf, e': Buf)
    requires Shaped(p) && n < |p.fns| && WfVariables(vars) && AtFunction(e, pl, p, pool0, vars, n)
    requires e' == Tables(Emit(pl, n, WholeFn(p, pool0, n), FnPool(p.fns[n], |p.fns[n].body|), e), e'.slots, e'.labels, e'.globals)
    requires Grown(e.slots, e'.slots, n) && e'.globals == e.globals[Fun(n) := (pl.code + |e.code|) % W32]
    requires LabelsUpTo(e'.labels, pl.code + |e.code|, p, pool0, n, |p.fns[n].starts|, e.labels)
    ensures AtFunction(e', pl, p, pool0, vars, n + 1)
  {
    hide PendingBytes, JumpSites, FixSites, PoolBytes, FnStart, VariablesBytes, VariablesRelocs, WholeFn, FnPool,
      VariablesPlaced, ModulePool, FnItems;
    PoolGrows(p, n);
    PoolAppend(ModulePool(p, n), FnPool(p.fns[n], |p.fns[n].body|));
    VariablesStay(e.globals, pl.data, vars, n, (pl.code + |e.code|) % W32);
    LabelsAdded(pl, p, pool0, n, e.labels, e'.labels);
    assert VariablesRelocs(vars, |vars|) + CodeFixes(p, pool0, n) + FixSites(WholeFn(p, pool0, n), |e.code|)
        == VariablesRelocs(vars, |vars|) + CodeFixes(p, pool0, n + 1);
    assert VariablesBytes(map[], vars, |vars|) + PoolBytes(ModulePool(p, n)) + PoolBytes(FnPool(p.fns[n], |p.fns[n].body|))
        == VariablesBytes(map[], vars, |vars|) + PoolBytes(ModulePool(p, n + 1));
  }

  lemma VariablesStay(globals: map<GlobalRef, word>, base: nat, vars: seq<Variable>, k: nat, a: word)
    requires VariablesPlaced(globals, base, vars, |vars|)
    ensures VariablesPlaced(globals[Fun(k) := a], base, vars, |vars|)
  {
  }

  lemma LabelsAdded(pl: Place, p: Program, pool0: int, n: nat, labels: map<(nat, nat), word>, labels': map<(nat, nat), word>)
    requires Shaped(p) && n < |p.fns| && BlocksPlaced(labels, pl.code, p, pool0, n) && (forall q | q in labels :: q.0 < n)
    requires LabelsUpTo(labels', pl.code + FnStart(p, pool0, n), p, pool0, n, |p.fns[n].starts|, labels)
    ensures BlocksPlaced(labels', pl.code, p, pool0, n + 1) && (forall q | q in labels' :: q.0 < n + 1)
  {
    hide FnStart, FnItems, Size;
  }

  /** One iteration of the second loop of translate. */
  method TranslateOne(cb: CodeBuf, p: Program, ghost pool0: int, ghost vars: seq<Variable>, k: nat)
    requires Shaped(p) && k < |p.fns| && WfFn(p.fns[k]) && Blocks(p.fns[k]) && HelpersKnown(cb.helpers) && WfVariables(vars)
    requires cb.Separate() && AtFunction(cb.Image(), cb.Place(), p, pool0, vars, k)
    requires pool0 == cb.data.base + VariablesSize(vars, |vars|)
    modifies cb, cb.code, cb.code.buf, cb.data, cb.data.buf
    ensures cb.Separate() && AtFunction(cb.Image(), cb.Place(), p, pool0, vars, k + 1)
  {
    hide WfFn, HelpersKnown, WfVariables, FnItems, Emit, Translated, AtFunction, Blocks, Grown, LabelsUpTo,
      WholeFn, FnPool, VariablesSize, PoolIndex, Tables;
    ghost var e := cb.Image();
    FunctionReady(cb, p, pool0, vars, k);
    TranslateFunction(cb, p, pool0, k);
    FunctionDone(cb, p, pool0, k, e);
    FunctionAdded(cb.Place(), p, pool0, vars, k, e, cb.Image());
  }

  lemma FunctionReady(cb: CodeBuf, p: Program, pool0: int, vars: seq<Variable>, k: nat)
    requires Shaped(p) && k < |p.fns| && WfVariables(vars)
    requires cb.Separate() && AtFunction(cb.Image(), cb.Place(), p, pool0, vars, k)
    requires pool0 == cb.data.base + VariablesSize(vars, |vars|)
    ensures (forall r :: (k, r) !in cb.stackslots) && (forall b :: (k, b) !in cb.labels)
    ensures cb.data.base + cb.data.current == pool0 + 8 * PoolIndex(p, k, 0)
  {
    hide FnPool, CodeBytes, CodeJumps, CodeFixes, VariablesRelocs, VariablesPlaced, FunctionsPlaced, BlocksPlaced,
      ModulePool, PoolIndex;
    PoolGrows(p, k);
  }

  lemma FunctionDone(cb: CodeBuf, p: Program, pool0: int, k: nat, e: Buf)
    requires Shaped(p) && k < |p.fns| && Translated(cb, p, pool0, k, e)
    ensures cb.Separate() && Grown(e.slots, cb.stackslots, k)
    ensures var e' := cb.Image();
      && e' == Tables(Emit(cb.Place(), k, WholeFn(p, pool0, k), FnPool(p.fns[k], |p.fns[k].body|), e), e'.slots, e'.labels, e'.globals)
      && e'.globals == e.globals[Fun(k) := (cb.code.base + |e.code|) % W32]
      && LabelsUpTo(e'.labels, cb.code.base + |e.code|, p, pool0, k, |p.fns[k].starts|, e.labels)
  {
    hide FnItems, FnPool, Emit, LabelsUpTo, Grown, SlotsHold, Out, PoolIndex;
  }

  // ----- Lookups -----

  lemma {:induction false} JumpsKnown(p: Program, pool0: int, vars: nat, n: nat)
    requires Shaped(p) && n <= |p.fns| && forall k | 0 <= k < |p.fns| :: WfFn(p.fns[k]) && FnDeclared(p.fns[k], vars, |p.fns|)
    ensures forall j | 0 <= j < |CodeJumps(p, pool0, n)| ::
      var dest := CodeJumps(p, pool0, n)[j].1; dest.0 < n && dest.1 < |p.fns[dest.0].starts|
    ensures forall j | 0 <= j < |CodeFixes(p, pool0, n)| :: Exists(CodeFixes(p, pool0, n)[j].1, vars, |p.fns|)
  {
    hide WfFn, FnDeclared, FnItems, FnStart, JumpSites, FixSites;
    if n > 0 {
      JumpsKnown(p, pool0, vars, n - 1);
      var k := n - 1;
      FnItemsKnown(p, pool0, k, |p.fns[k].body|, vars);
      SitesKnown(p.fns[k], k, vars, |p.fns|, WholeFn(p, pool0, k), FnStart(p, pool0, k));
    }
  }

  ghost predicate VariablesDeclared(vars: seq<Variable>, fns: nat)
    requires WfVariables(vars)
  {
    forall g | 0 <= g < |vars| && vars[g].Some? :: InitDeclared(vars[g].value, |vars|, fns)
  }

  lemma {:induction false} VariablesKnown(vars: seq<Variable>, fns: nat, n: nat)
    requires WfVariables(vars) && VariablesDeclared(vars, fns) && n <= |vars|
    ensures forall j | 0 <= j < |VariablesRelocs(vars, n)| :: Exists(VariablesRelocs(vars, n)[j].1, |vars|, fns)
  {
    hide InitDeclared, WfInit, Relocs;
    if n > 0 {
      VariablesKnown(vars, fns, n - 1);
      if vars[n - 1].Some? {
        RelocsKnown(vars[n - 1].value, VariablesSize(vars, n - 1), |vars|, fns);
      }
    }
  }

  // ----- translate -----

  /** What LLVM's verifier and the generator's assertions demand of a module. */
  ghost predicate WfModule(p: Program, vars: seq<Variable>) {
    && Shaped(p) && WfVariables(vars) && VariablesDeclared(vars, |p.fns|)
    && forall k | 0 <= k < |p.fns| :: WfFn(p.fns[k]) && Blocks(p.fns[k]) && FnDeclared(p.fns[k], |vars|, |p.fns|)
  }

  /** The finished image. */
  ghost predicate Relocated(cb: CodeBuf, p: Program, vars: seq<Variable>)
    requires Shaped(p) && WfVariables(vars)
    reads cb, cb.code, cb.code.buf, cb.data, cb.data.buf
  {
    var pool0, pl, n := cb.data.base + VariablesSize(vars, |vars|), cb.Place(), |p.fns|;
    && cb.Separate() && !cb.code.full && !cb.data.full
    && cb.code.contents == PlacedCode(pl, cb.labels, cb.globals, p, pool0, n)
    && cb.data.contents == VariablesBytes(cb.globals, vars, |vars|) + PoolBytes(Pool(p))
    && VariablesPlaced(cb.globals, cb.data.base, vars, |vars|) && FunctionsPlaced(cb.globals, cb.code.base, p, pool0, n)
    && BlocksPlaced(cb.labels, cb.code.base, p, pool0, n)
  }

  /** Everything is emitted and nothing is relocated yet. */
  lemma ReadyToRelocate(cb: CodeBuf, p: Program, vars: seq<Variable>)
    requires WfModule(p, vars) && cb.Separate()
    requires AtFunction(cb.Image(), cb.Place(), p, cb.data.base + VariablesSize(vars, |vars|), vars, |p.fns|)
    ensures JumpsIn(cb.code.contents, cb.jumpRelocs) && FixesIn(cb.code.contents, cb.data.contents, cb.globalRelocs)
    ensures forall j | 0 <= j < |cb.jumpRelocs| :: cb.jumpRelocs[j].1 in cb.labels
    ensures forall j | 0 <= j < |cb.globalRelocs| :: cb.globalRelocs[j].1 in cb.globals
    ensures |cb.code.contents| == FnStart(p, cb.data.base + VariablesSize(vars, |vars|), |p.fns|)
    ensures |cb.data.contents| == VariablesSize(vars, |vars|) + 8 * |Pool(p)|
  {
    hide WfFn, FnDeclared, FnItems, FnStart, CodeJumps, CodeFixes, VariablesRelocs, CodeBytes, VariablesSize,
      VariablesDeclared, Blocks, VariablesPlaced, FunctionsPlaced, BlocksPlaced, FixesIn, JumpsIn, WfVariables,
      Exists;
    var pool0 := cb.data.base + VariablesSize(vars, |vars|);
    SitesInside(p, pool0, vars, cb.code.contents, cb.data.contents);
    SitesFound(cb.Image(), cb.Place(), p, pool0, vars);
  }

  /** Every field that a pass patches lies in its buffer. */
  lemma SitesInside(p: Program, pool0: int, vars: seq<Variable>, code: seq<byte>, data: seq<byte>)
    requires Shaped(p) && WfVariables(vars) && FnStart(p, pool0, |p.fns|) <= |code| && VariablesSize(vars, |vars|) <= |data|
    ensures JumpsIn(code, CodeJumps(p, pool0, |p.fns|))
    ensures FixesIn(code, data, VariablesRelocs(vars, |vars|) + CodeFixes(p, pool0, |p.fns|))
  {
    hide FnItems, FnStart, CodeJumps, CodeFixes, VariablesRelocs, VariablesSize, WfVariables;
    var n, c, d := |p.fns|, |code|, |data|;
    JumpsInside(p, pool0, n, [], c);
    assert CodeJumps(p, pool0, n) + [] == CodeJumps(p, pool0, n);
    CodeFixesInside(p, pool0, n, [], c, d);
    assert CodeFixes(p, pool0, n) + [] == CodeFixes(p, pool0, n);
    VariablesInside(vars, |vars|, CodeFixes(p, pool0, n), c, d);
  }

  /** Every label and global that a pass looks up is in its table. */
  lemma SitesFound(e: Buf, pl: Place, p: Program, pool0: int, vars: seq<Variable>)
    requires WfModule(p, vars)
    requires VariablesPlaced(e.globals, pl.data, vars, |vars|) && FunctionsPlaced(e.globals, pl.code, p, pool0, |p.fns|)
    requires BlocksPlaced(e.labels, pl.code, p, pool0, |p.fns|)
    ensures forall j | 0 <= j < |CodeJumps(p, pool0, |p.fns|)| :: CodeJumps(p, pool0, |p.fns|)[j].1 in e.labels
    ensures var fixes := VariablesRelocs(vars, |vars|) + CodeFixes(p, pool0, |p.fns|); forall j | 0 <= j < |fixes| :: fixes[j].1 in e.globals
  {
    hide WfFn, FnDeclared, FnStart, CodeJumps, CodeFixes, VariablesRelocs, VariablesDeclared, Blocks,
      VariablesPlaced, FunctionsPlaced, BlocksPlaced, WfVariables, Exists;
    JumpsKnown(p, pool0, |vars|, |p.fns|);
    VariablesKnown(vars, |p.fns|, |vars|);
    LabelsFound(e, pl, p, pool0, vars);
  }

  lemma LabelsFound(e: Buf, pl: Place, p: Program, pool0: int, vars: seq<Variable>)
    requires Shaped(p) && (forall k | 0 <= k < |p.fns| :: Blocks(p.fns[k]))
    requires VariablesPlaced(e.globals, pl.data, vars, |vars|) && FunctionsPlaced(e.globals, pl.code, p, pool0, |p.fns|)
    requires BlocksPlaced(e.labels, pl.code, p, pool0, |p.fns|)
    ensures forall k, b | 0 <= k < |p.fns| && 0 <= b < |p.fns[k].starts| :: (k, b) in e.labels
    ensures forall g | Exists(g, |vars|, |p.fns|) :: g in e.globals
  {
    hide PcOffset, FnStart, VariablesSize;
    forall k, b | 0 <= k < |p.fns| && 0 <= b < |p.fns[k].starts| ensures (k, b) in e.labels {
      assert Blocks(p.fns[k]);
    }
    forall g | Exists(g, |vars|, |p.fns|) ensures g in e.globals {
      match g {
        case Var(i) =>
        case Fun(k) =>
      }
    }
  }

  /** Both passes together. */
  lemma RelocationIsPlacing(pl: Place, labels: map<(nat, nat), word>, addresses: map<GlobalRef, word>, p: Program, pool0: int,
                            vars: seq<Variable>)
    requires Shaped(p) && WfVariables(vars)
    requires JumpsIn(CodeBytes(pl, p, pool0, |p.fns|), CodeJumps(p, pool0, |p.fns|))
    ensures var n, pooled := |p.fns|, PoolBytes(Pool(p));
      var jumped := PatchJumps(pl.code, labels, CodeBytes(pl, p, pool0, n), CodeJumps(p, pool0, n));
      var data, sites := VariablesBytes(map[], vars, |vars|) + pooled, VariablesRelocs(vars, |vars|) + CodeFixes(p, pool0, n);
      && FixesIn(jumped, data, sites)
      && PatchFixes(addresses, jumped, data, sites)
         == (PlacedCode(pl, labels, addresses, p, pool0, n), VariablesBytes(addresses, vars, |vars|) + pooled)
  {
    hide FnItems, FnStart, CodeJumps, CodeFixes, VariablesRelocs, CodeBytes, VariablesSize, VariablesBytes,
      PlacedCode, JumpedCode, PatchJumps, PatchFixes, JumpsIn, FixesIn;
    var n, pooled := |p.fns|, PoolBytes(Pool(p));
    var before, jumped, done := CodeBytes(pl, p, pool0, n), JumpedCode(pl, labels, p, pool0, n), PlacedCode(pl, labels, addresses, p, pool0, n);
    var data, data' := VariablesBytes(map[], vars, |vars|) + pooled, VariablesBytes(addresses, vars, |vars|) + pooled;
    var s1, s2 := VariablesRelocs(vars, |vars|), CodeFixes(p, pool0, n);
    CodeJumped(pl, labels, p, pool0, n, [], []);
    assert before + [] == before && jumped + [] == jumped && done + [] == done;
    assert CodeJumps(p, pool0, n) + [] == CodeJumps(p, pool0, n);
    NoMoreJumps(pl.code, labels, jumped);
    CodeFixesInside(p, pool0, n, [], |jumped|, |data|);
    assert s2 + [] == s2;
    VariablesFixed(addresses, jumped, vars, |vars|, pooled, s2);
    CodeFixed(pl, labels, addresses, p, pool0, n, [], data', []);
    assert s1 + s2 + [] == s1 + s2;
    FixesChain(addresses, (jumped, data), s1, (jumped, data'), s2, (done, data'), []);
    NoMoreFixes(addresses, done, data');
  }

  lemma NoMoreJumps(base: nat, labels: map<(nat, nat), word>, code: seq<byte>)
    ensures JumpsIn(code, []) && PatchJumps(base, labels, code, []) == code
  {
  }

  lemma NoMoreFixes(addresses: map<GlobalRef, word>, code: seq<byte>, data: seq<byte>)
    ensures FixesIn(code, data, []) && PatchFixes(addresses, code, data, []) == (code, data)
  {
  }

  /** The two relocation passes at the end of translate. */
  method Relocate(cb: CodeBuf, p: Program, vars: seq<Variable>)
    requires WfModule(p, vars) && cb.Separate() && !cb.code.full && !cb.data.full
    requires AtFunction(cb.Image(), cb.Place(), p, cb.data.base + VariablesSize(vars, |vars|), vars, |p.fns|)
    modifies cb.code`contents, cb.code.buf, cb.data`contents, cb.data.buf
    ensures Relocated(cb, p, vars)
  {
    hide WfFn, Blocks, FnDeclared, VariablesDeclared, FnItems, FnStart, CodeJumps, CodeFixes, VariablesRelocs,
      CodeBytes, VariablesSize, VariablesBytes, PlacedCode, PatchJumps, PatchFixes, JumpsIn, FixesIn,
      VariablesPlaced, FunctionsPlaced, BlocksPlaced;
    ReadyToRelocate(cb, p, vars);
    RelocationIsPlacing(cb.Place(), cb.labels, cb.globals, p, cb.data.base + VariablesSize(vars, |vars|), vars);
    cb.ApplyJumpRelocs();
    cb.ApplyGlobalRelocs();
  }

  /** Whether everything fits, and if so the relocation passes. */
  method Finish(cb: CodeBuf, p: Program, vars: seq<Variable>) returns (ok: bool)
    requires WfModule(p, vars) && cb.Separate()
    requires AtFunction(cb.Image(), cb.Place(), p, cb.data.base + VariablesSize(vars, |vars|), vars, |p.fns|)
    modifies cb.code`contents, cb.code.buf, cb.data`contents, cb.data.buf
    ensures ok <==> FnStart(p, cb.data.base + VariablesSize(vars, |vars|), |p.fns|) < cb.code.buf.Length
                    && VariablesSize(vars, |vars|) + 8 * |Pool(p)| < cb.data.buf.Length
    ensures ok ==> Relocated(cb, p, vars)
  {
    hide FnStart, AtFunction, WfFn, FnDeclared, VariablesDeclared, Relocated, VariablesSize, Blocks, WfInit,
      ModulePool;
    ReadyToRelocate(cb, p, vars);
    ok := !cb.code.full && !cb.data.full;
    if ok {
      Relocate(cb, p, vars);
    }
  }

  /** translate: it fails exactly when the code or the data do not fit their buffers. */
  method TranslateModule(p: Program, vars: seq<Variable>, codeBase: nat, dataBase: nat, helpers: map<Helper, word>)
    returns (cb: CodeBuf, ok: bool)
    requires WfModule(p, vars) && HelpersKnown(helpers)
    ensures fresh(cb) && cb.Place() == Emission.Place(codeBase, dataBase, helpers)
    ensures ok <==> FnStart(p, dataBase + VariablesSize(vars, |vars|), |p.fns|) < 0x100_0000
                    && VariablesSize(vars, |vars|) + 8 * |Pool(p)| < 0x100_0000
    ensures ok ==> Relocated(cb, p, vars)
  {
    hide FnItems, FnStart, HelpersKnown, AtFunction, WfFn, FnDeclared, VariablesDeclared, Relocated,
      VariablesBytes, VariablesRelocs, VariablesSize, WfInit, ModulePool, VariablesPlaced, Blocks, WfVariables, Shaped,
      PoolBytes, CodeBuf.Valid;
    cb := new CodeBuf(codeBase, dataBase, helpers);
    WriteGlobals(cb, vars);
    ghost var pool0 := dataBase + VariablesSize(vars, |vars|);
    FirstFunction(cb, p, pool0, vars);
    var k := 0;
    while k < |p.fns|
      invariant 0 <= k <= |p.fns| && cb.Separate() && AtFunction(cb.Image(), cb.Place(), p, pool0, vars, k)
    {
      TranslateOne(cb, p, pool0, vars, k);
      k := k + 1;
    }
    ok := Finish(cb, p, vars);
  }

  lemma FirstFunction(cb: CodeBuf, p: Program, pool0: int, vars: seq<Variable>)
    requires Shaped(p) && WfVariables(vars) && cb.Separate()
    requires cb.data.contents == VariablesBytes(map[], vars, |vars|) && cb.globalRelocs == VariablesRelocs(vars, |vars|)
    requires VariablesPlaced(cb.globals, cb.data.base, vars, |vars|)
    requires cb.code.contents == [] && cb.jumpRelocs == [] && cb.labels == map[] && cb.stackslots == map[]
    ensures AtFunction(cb.Image(), cb.Place(), p, pool0, vars, 0)
  {
    hide VariablesBytes, VariablesRelocs, VariablesPlaced, FnItems;
    assert |PoolBytes([])| == 0;
  }
}
