/** The varargs pass: variable arguments are packed into a buffer whose address becomes an extra
    parameter, and va_list becomes a pointer that walks the buffer. */
module VarArgs {
  import opened Words
  import opened IrOps
  import opened Machine
  import opened Ir
  import opened Semantics
  import opened Layout

  // ----- Instructions -----

  /** A value: the result of an earlier instruction or a parameter, or a number. */
  datatype Operand = Name(n: nat) | Literal(x: nat)

  datatype Op =
    | VaStart(list: Operand)
    | VaArg(res: nat, t: Type, list: Operand)
    | VaCopy(dst: Operand, src: Operand)
    | VaEnd(list: Operand)
    | Retype(res: nat, a: Operand)                // bitcast
    | Fetch(res: nat, t: Type, at: Operand)       // load
    | Put(t: Type, v: Operand, at: Operand)       // store
    | Displace(res: nat, at: Operand, off: nat)   // getelementptr with a constant byte offset

  predicate Uses(o: Operand, below: nat) {
    o.Name? ==> o.n < below
  }

  /** All names of an instruction are below a bound. */
  predicate Below(op: Op, below: nat) {
    match op
    case VaStart(l) => Uses(l, below)
    case VaArg(r, _, l) => r < below && Uses(l, below)
    case VaCopy(d, s) => Uses(d, below) && Uses(s, below)
    case VaEnd(l) => Uses(l, below)
    case Retype(r, a) => r < below && Uses(a, below)
    case Fetch(r, _, a) => r < below && Uses(a, below)
    case Put(_, v, a) => Uses(v, below) && Uses(a, below)
    case Displace(r, a, _) => r < below && Uses(a, below)
  }

  // ----- The pass -----

  /** What replaces one instruction; `varargs` names the new parameter, `first` the first of four
      unused names. */
  function Expand(op: Op, varargs: nat, first: nat): seq<Op> {
    match op
    case VaStart(l) => [Retype(first, l), Put(Ptr, Name(varargs), Name(first))]
    case VaArg(r, t, l) =>
      [Retype(first, l), Fetch(first + 1, Ptr, Name(first)), Retype(first + 2, Name(first + 1)), Fetch(r, t, Name(first + 2)),
       Displace(first + 3, Name(first + 1), AllocSize(TScalar(t))), Put(Ptr, Name(first + 3), Name(first))]
    case VaCopy(d, s) =>
      [Retype(first, s), Retype(first + 1, d), Fetch(first + 2, Ptr, Name(first)), Put(Ptr, Name(first + 2), Name(first + 1))]
    case VaEnd(_) => []
    case _ => [op]
  }

  function ExpandAll(body: seq<Op>, varargs: nat, first: nat, n: nat): seq<Op>
    requires n <= |body|
  {
    if n == 0 then [] else ExpandAll(body, varargs, first, n - 1) + Expand(body[n - 1], varargs, first + 4 * (n - 1))
  }

  /** The rewriting of a function's instructions. */
  method ExpandBody(body: seq<Op>, varargs: nat, first: nat) returns (out: seq<Op>)
    ensures out == ExpandAll(body, varargs, first, |body|)
  {
    out := [];
    var i := 0;
    while i < |body|
      invariant 0 <= i <= |body| && out == ExpandAll(body, varargs, first, i)
    {
      var name := first + 4 * i;
      match body[i] {
        case VaStart(list) =>
          out := out + [Retype(name, list), Put(Ptr, Name(varargs), Name(name))];
        case VaArg(res, t, list) =>
          // Read the argument, then step the list to the next one.
          out := out + [Retype(name, list), Fetch(name + 1, Ptr, Name(name)), Retype(name + 2, Name(name + 1)),
                        Fetch(res, t, Name(name + 2))];
          var offset := AllocSize(TScalar(t));
          out := out + [Displace(name + 3, Name(name + 1), offset), Put(Ptr, Name(name + 3), Name(name))];
        case VaCopy(dst, src) =>
          out := out + [Retype(name, src), Retype(name + 1, dst), Fetch(name + 2, Ptr, Name(name)),
                        Put(Ptr, Name(name + 2), Name(name + 1))];
        case VaEnd(_) =>
        case op => out := out + [op];
      }
      i := i + 1;
    }
  }

  // ----- Source semantics: a list is a position among the call's variable arguments -----

  type Names = map<nat, nat>

  function Value(env: Names, o: Operand): Option<nat> {
    match o
    case Literal(x) => Some(x)
    case Name(n) => if n in env then Some(env[n]) else None
  }

  /** `mem` holds the program's own bytes; `lists` the live argument lists. */
  datatype Source = Source(env: Names, mem: Mem, lists: map<nat, nat>)

  /** One step of LLVM's semantics. `cells` are the addresses of va_list objects. */
  function SourceStep(args: seq<(Type, nat)>, cells: set<nat>, s: Source, op: Op): Option<Source> {
    match op
    case VaStart(l) =>
      (match Value(s.env, l)
       case Some(a) => if a in cells then Some(s.(lists := s.lists[a := 0])) else None
       case None => None)
    case VaArg(r, t, l) =>
      (match Value(s.env, l)
       case Some(a) =>
         if a in s.lists && s.lists[a] < |args| && args[s.lists[a]].0 == t
         then Some(s.(env := s.env[r := args[s.lists[a]].1], lists := s.lists[a := s.lists[a] + 1])) else None
       case None => None)
    case VaCopy(d, f) =>
      (match (Value(s.env, d), Value(s.env, f))
       case (Some(a), Some(b)) => if a in cells && b in s.lists then Some(s.(lists := s.lists[a := s.lists[b]])) else None
       case _ => None)
    case VaEnd(l) =>
      (match Value(s.env, l)
       case Some(a) => if a in s.lists then Some(s.(lists := s.lists - {a})) else None
       case None => None)
    case _ => PlainStep(s, op)
  }

  /** Ordinary instructions touch initialised program bytes only. */
  function PlainStep(s: Source, op: Op): Option<Source> {
    match op
    case Retype(r, a) =>
      (match Value(s.env, a)
       case Some(x) => Some(s.(env := s.env[r := x]))
       case None => None)
    case Fetch(r, t, at) =>
      (match Value(s.env, at)
       case Some(a) => if Initialised(s.mem, a, SizeOf(t)) then Some(s.(env := s.env[r := ReadMem(s.mem, a, t)])) else None
       case None => None)
    case Put(t, v, at) =>
      (match (Value(s.env, v), Value(s.env, at))
       case (Some(x), Some(a)) =>
         if x < t.Modulus() && Initialised(s.mem, a, SizeOf(t)) then Some(s.(mem := WriteMem(s.mem, a, t, x))) else None
       case _ => None)
    case Displace(r, at, off) =>
      (match Value(s.env, at)
       case Some(a) => Some(s.(env := s.env[r := (a + off) % W32]))
       case None => None)
    case _ => None
  }

  /** va_arg on a list, once for every argument from position k on, into consecutive names. */
  function Reads(args: seq<(Type, nat)>, list: nat, res: nat, k: nat): seq<Op>
    requires k <= |args|
    decreases |args| - k
  {
    if k == |args| then [] else [VaArg(res + k, args[k].0, Name(list))] + Reads(args, list, res, k + 1)
  }

  /** Instructions executed one after another. */
  function InOrder(args: seq<(Type, nat)>, cells: set<nat>, s: Source, ops: seq<Op>): Option<Source>
    decreases |ops|
  {
    if ops == [] then Some(s) else
    match SourceStep(args, cells, s, ops[0])
    case None => None
    case Some(s') => InOrder(args, cells, s', ops[1..])
  }

  /** A list at position k yields the arguments from the k-th on, in order, and leaves every other
      list where it is. */
  lemma {:induction false} ReadsInOrder(args: seq<(Type, nat)>, cells: set<nat>, s: Source, list: nat, res: nat, k: nat)
    returns (s': Source)
    requires list < res && list in s.env && s.env[list] in s.lists && s.lists[s.env[list]] == k <= |args|
    ensures InOrder(args, cells, s, Reads(args, list, res, k)) == Some(s') && s'.mem == s.mem
    ensures forall i | k <= i < |args| :: Value(s'.env, Name(res + i)) == Some(args[i].1)
    ensures forall n | n < res + k :: (n in s'.env <==> n in s.env) && (n in s.env ==> s'.env[n] == s.env[n])
    ensures s'.lists == s.lists[s.env[list] := |args|]
    decreases |args| - k
  {
    if k == |args| {
      s' := s;
    } else {
      var s1 := s.(env := s.env[res + k := args[k].1], lists := s.lists[s.env[list] := k + 1]);
      assert SourceStep(args, cells, s, VaArg(res + k, args[k].0, Name(list))) == Some(s1);
      s' := ReadsInOrder(args, cells, s1, list, res, k + 1);
      assert res + k in s1.env && res + k in s'.env && s'.env[res + k] == args[k].1;
      assert ([VaArg(res + k, args[k].0, Name(list))] + Reads(args, list, res, k + 1))[1..] == Reads(args, list, res, k + 1);
    }
  }

  /** A list just started reads from the first argument, a copy from where its original stands, and a
      list that has been ended is gone. */
  lemma ListsStart(args: seq<(Type, nat)>, cells: set<nat>, s: Source, dst: nat, src: nat)
    requires dst in s.env && s.env[dst] in cells && src in s.env && s.env[src] in s.lists
    ensures SourceStep(args, cells, s, VaStart(Name(dst))) == Some(s.(lists := s.lists[s.env[dst] := 0]))
    ensures SourceStep(args, cells, s, VaCopy(Name(dst), Name(src)))
            == Some(s.(lists := s.lists[s.env[dst] := s.lists[s.env[src]]]))
    ensures SourceStep(args, cells, s, VaEnd(Name(src))) == Some(s.(lists := s.lists - {s.env[src]}))
  {
  }

  // ----- Target semantics: only memory -----

  datatype Target = Target(env: Names, mem: Mem)

  function TargetStep(t: Target, op: Op): Option<Target> {
    match op
    case Retype(r, a) =>
      (match Value(t.env, a)
       case Some(x) => Some(t.(env := t.env[r := x]))
       case None => None)
    case Fetch(r, ty, at) =>
      (match Value(t.env, at)
       case Some(a) => Some(t.(env := t.env[r := ReadMem(t.mem, a, ty)]))
       case None => None)
    case Put(ty, v, at) =>
      (match (Value(t.env, v), Value(t.env, at))
       case (Some(x), Some(a)) => Some(t.(mem := WriteMem(t.mem, a, ty, x)))
       case _ => None)
    case Displace(r, at, off) =>
      (match Value(t.env, at)
       case Some(a) => Some(t.(env := t.env[r := (a + off) % W32]))
       case None => None)
    case _ => None
  }

  function TargetRun(t: Target, ops: seq<Op>): Option<Target>
    decreases |ops|
  {
    if ops == [] then Some(t) else
    match TargetStep(t, ops[0])
    case None => None
    case Some(t') => TargetRun(t', ops[1..])
  }

  // ----- Memory -----

  predicate Same(m: Mem, m': Mem, a: int, n: nat) {
    forall x | a <= x < a + n :: Byte(m, x) == Byte(m', x)
  }

  lemma ReadMemSame(m: Mem, m': Mem, a: int, t: Type)
    requires Same(m, m', a, SizeOf(t))
    ensures ReadMem(m, a, t) == ReadMem(m', a, t)
  {
    hide Read16, Read32, Read64;
    ReadSame(m, m', a, SizeOf(t));
    assert Byte(m, a) == Byte(m', a);
  }

  // ----- The buffer -----

  type Args = seq<(Type, nat)>

  function Types(args: Args): (tys: seq<Ty>)
    ensures |tys| == |args| && forall i | 0 <= i < |args| :: tys[i] == TScalar(args[i].0)
  {
    seq(|args|, i requires 0 <= i < |args| => TScalar(args[i].0))
  }

  /** Where argument i lies in the packed struct; the entry past the last is its size. */
  function PackedAt(args: Args, i: nat): nat
    requires i <= |args|
  {
    FieldsEnd(Types(args), true, i)
  }

  /** The packed struct has no gaps, so adding allocation sizes walks it exactly. */
  lemma PackedStep(args: Args, i: nat)
    requires i < |args|
    ensures PackedAt(args, i + 1) == PackedAt(args, i) + AllocSize(TScalar(args[i].0))
    ensures PackedAt(args, i) == ElementOffset(Types(args), true, i) && AllocSize(TScalar(args[i].0)) == SizeOf(args[i].0)
    ensures PackedAt(args, i + 1) <= PackedAt(args, |args|)
  {
    FieldsMono(Types(args), true, i + 1, |args|);
  }

  /** The buffer holds every argument at its place. */
  ghost predicate Packed(args: Args, buf: nat, mem: Mem) {
    forall i | 0 <= i < |args| :: ReadMem(mem, buf + PackedAt(args, i), args[i].0) == args[i].1
  }

  lemma PackedSame(args: Args, buf: nat, m: Mem, m': Mem)
    requires Packed(args, buf, m) && (args != [] ==> Same(m, m', buf, PackedAt(args, |args|)))
    ensures Packed(args, buf, m')
  {
    hide ReadMem, PackedAt;
    forall i | 0 <= i < |args| ensures ReadMem(m', buf + PackedAt(args, i), args[i].0) == args[i].1 {
      PackedStep(args, i);
      ReadMemSame(m, m', buf + PackedAt(args, i), args[i].0);
    }
  }

  // ----- The callee: any interleaving of list operations -----

  /** What stays fixed during a call: its arguments, the va_list objects, the buffer, the new
      parameter's name. */
  datatype Setting = Setting(args: Args, cells: set<nat>, buf: nat, varargs: nat)

  /** va_list objects, the buffer and the program's own bytes do not overlap. */
  ghost predicate Apart(c: Setting, mem: Mem) {
    && c.buf + PackedAt(c.args, |c.args|) < W32
    && (forall a, b | a in c.cells && b in c.cells && a != b :: a + 4 <= b || b + 4 <= a)
    && (forall a | a in c.cells && c.args != [] :: a + 4 <= c.buf || c.buf + PackedAt(c.args, |c.args|) <= a)
    && (forall a, x | a in c.cells && x in mem :: x < a || a + 4 <= x)
    && (forall x | x in mem && c.args != [] :: x < c.buf || c.buf + PackedAt(c.args, |c.args|) <= x)
  }

  ghost predicate ListsOk(c: Setting, lists: map<nat, nat>, mem: Mem) {
    forall a | a in lists :: a in c.cells && lists[a] <= |c.args| && Read32(mem, a) == c.buf + PackedAt(c.args, lists[a])
  }

  ghost predicate NamesOk(c: Setting, env: Names, env': Names) {
    && (forall n | n in env :: n < c.varargs && n in env' && env'[n] == env[n])
    && c.varargs in env' && env'[c.varargs] == c.buf
  }

  ghost predicate MemoryOk(mem: Mem, mem': Mem) {
    forall x | x in mem :: Byte(mem', x) == mem[x]
  }

  ghost predicate Matches(c: Setting, s: Source, t: Target) {
    && Apart(c, s.mem) && NamesOk(c, s.env, t.env) && MemoryOk(s.mem, t.mem) && ListsOk(c, s.lists, t.mem) && Packed(c.args, c.buf, t.mem)
  }

  lemma ValueSame(c: Setting, env: Names, env': Names, o: Operand)
    requires NamesOk(c, env, env') && Value(env, o).Some?
    ensures Value(env', o) == Value(env, o)
  {
  }

  lemma RunFirst(t: Target, op: Op, rest: seq<Op>, t1: Target)
    requires TargetStep(t, op) == Some(t1)
    ensures TargetRun(t, [op] + rest) == TargetRun(t1, rest)
  {
    hide TargetStep;
    assert ([op] + rest)[0] == op && ([op] + rest)[1..] == rest;
  }

  /** Temporaries above the new parameter's name do not disturb the relation of names. */
  lemma Scratch(c: Setting, env: Names, env': Names, n: nat, x: nat)
    requires NamesOk(c, env, env') && n > c.varargs
    ensures NamesOk(c, env, env'[n := x])
  {
  }

  lemma Defined(c: Setting, env: Names, env': Names, n: nat, x: nat)
    requires NamesOk(c, env, env') && n < c.varargs
    ensures NamesOk(c, env[n := x], env'[n := x])
  {
  }

  /** Pointing a list somewhere else changes that list only. */
  lemma ListMoved(c: Setting, s: Source, mem: Mem, a: nat, pos: nat, mem': Mem)
    requires Apart(c, s.mem) && MemoryOk(s.mem, mem) && ListsOk(c, s.lists, mem) && Packed(c.args, c.buf, mem)
    requires a in c.cells && pos <= |c.args| && mem' == Write32(mem, a, c.buf + PackedAt(c.args, pos))
    requires c.buf + PackedAt(c.args, pos) < W32
    ensures MemoryOk(s.mem, mem') && ListsOk(c, s.lists[a := pos], mem') && Packed(c.args, c.buf, mem')
  {
    hide PackedAt, Write32, Read32;
    ReadWrite32(mem, a, c.buf + PackedAt(c.args, pos));
    PackedSame(c.args, c.buf, mem, mem');
    forall b | b in s.lists && b != a ensures Read32(mem', b) == Read32(mem, b) {
      ReadSame(mem, mem', b, 4);
    }
  }

  lemma PositionFits(c: Setting, mem: Mem, pos: nat)
    requires Apart(c, mem) && pos <= |c.args|
    ensures c.buf + PackedAt(c.args, pos) < W32
  {
    FieldsMono(Types(c.args), true, pos, |c.args|);
  }

  lemma StartSim(c: Setting, s: Source, t: Target, l: Operand, first: nat) returns (t': Target)
    requires Matches(c, s, t) && first > c.varargs && SourceStep(c.args, c.cells, s, VaStart(l)).Some?
    ensures TargetRun(t, Expand(VaStart(l), c.varargs, first)) == Some(t')
    ensures Matches(c, SourceStep(c.args, c.cells, s, VaStart(l)).value, t')
  {
    hide PackedAt, Apart, Packed, ListsOk, MemoryOk, NamesOk, Write32, Read32;
    ValueSame(c, s.env, t.env, l);
    var a := Value(s.env, l).value;
    var t1 := t.(env := t.env[first := a]);
    Scratch(c, s.env, t.env, first, a);
    ParameterIs(c, s.env, t1.env);
    PackedStart(c.args);
    PositionFits(c, s.mem, 0);
    ListMoved(c, s, t.mem, a, 0, Write32(t.mem, a, c.buf));
    t' := t1.(mem := Write32(t.mem, a, c.buf));
    var ops := [Put(Ptr, Name(c.varargs), Name(first))];
    RunLast(t1, ops[0], t');
    RunFirst(t, Retype(first, l), ops, t1);
    assert [Retype(first, l)] + ops == Expand(VaStart(l), c.varargs, first);
  }

  lemma PackedStart(args: Args)
    ensures PackedAt(args, 0) == 0
  {
  }

  lemma ParameterIs(c: Setting, env: Names, env': Names)
    requires NamesOk(c, env, env')
    ensures Value(env', Name(c.varargs)) == Some(c.buf)
  {
  }

  lemma RunLast(t: Target, op: Op, t1: Target)
    requires TargetStep(t, op) == Some(t1)
    ensures TargetRun(t, [op]) == Some(t1)
  {
    hide TargetStep;
    assert [op][1..] == [];
    assert TargetRun(t1, []) == Some(t1);
  }

  /** va_arg reads inside the buffer, yields the next argument and steps this list alone. */
  lemma ArgSim(c: Setting, s: Source, t: Target, r: nat, ty: Type, l: Operand, first: nat) returns (t': Target)
    requires Matches(c, s, t) && first > c.varargs && r < c.varargs && SourceStep(c.args, c.cells, s, VaArg(r, ty, l)).Some?
    ensures TargetRun(t, Expand(VaArg(r, ty, l), c.varargs, first)) == Some(t')
    ensures Matches(c, SourceStep(c.args, c.cells, s, VaArg(r, ty, l)).value, t')
    ensures var a := Value(s.env, l).value;
      c.buf <= Read32(t.mem, a) && Read32(t.mem, a) + SizeOf(ty) <= c.buf + PackedAt(c.args, |c.args|)
  {
    hide PackedAt, Apart, Packed, ListsOk, MemoryOk, NamesOk, Write32, Read32, ReadMem, AllocSize, SourceStep,
      Expand, TargetRun;
    ArgSource(c, s, r, ty, l);
    ValueSame(c, s.env, t.env, l);
    var a := Value(s.env, l).value;
    var pos, size := s.lists[a], AllocSize(TScalar(ty));
    ListIs(c, s.lists, t.mem, a);
    PackedStep(c.args, pos);
    PositionFits(c, s.mem, pos + 1);
    var cur := c.buf + PackedAt(c.args, pos);
    ArgIs(c, t.mem, pos);
    DivModUnique(cur + size, W32, 0, cur + size);
    t' := ArgTarget(t, a, cur, c.args[pos].1, r, ty, l, first, c.varargs);
    ArgNames(c, s.env, t.env, first, a, cur, r, c.args[pos].1, cur + size);
    ListMoved(c, s, t.mem, a, pos + 1, t'.mem);
  }

  /** What the six instructions do. */
  lemma ArgTarget(t: Target, a: nat, cur: nat, x: nat, r: nat, ty: Type, l: Operand, first: nat, varargs: nat) returns (t': Target)
    requires Value(t.env, l) == Some(a) && Read32(t.mem, a) == cur && ReadMem(t.mem, cur, ty) == x && r < first
    requires cur + AllocSize(TScalar(ty)) < W32
    ensures TargetRun(t, Expand(VaArg(r, ty, l), varargs, first)) == Some(t')
    ensures var next := cur + AllocSize(TScalar(ty));
      && t'.env == t.env[first := a][first + 1 := cur][first + 2 := cur][r := x][first + 3 := next]
      && t'.mem == Write32(t.mem, a, next)
  {
    hide Write32, Read32, ReadMem, WriteMem, AllocSize, Expand, TargetRun, TargetStep;
    var next := cur + AllocSize(TScalar(ty));
    DivModUnique(next, W32, 0, next);
    ReadPointer(t.mem, a);
    var t1 := t.(env := t.env[first := a]);
    var t2 := t1.(env := t1.env[first + 1 := cur]);
    var t3 := t2.(env := t2.env[first + 2 := cur]);
    var t4 := t3.(env := t3.env[r := x]);
    var t5 := t4.(env := t4.env[first + 3 := next]);
    t' := t5.(mem := Write32(t.mem, a, next));
    RetypeStep(t, first, l, a);
    FetchStep(t1, first + 1, Ptr, Name(first), a);
    RetypeStep(t2, first + 2, Name(first + 1), cur);
    FetchStep(t3, r, ty, Name(first + 2), cur);
    DisplaceStep(t4, first + 3, Name(first + 1), cur, AllocSize(TScalar(ty)));
    PointerStep(t5, Name(first + 3), next, Name(first), a);
    ArgRun(t, t1, t2, t3, t4, t5, t', r, ty, l, first, varargs);
  }

  lemma RetypeStep(t: Target, r: nat, o: Operand, x: nat)
    requires Value(t.env, o) == Some(x)
    ensures TargetStep(t, Retype(r, o)) == Some(t.(env := t.env[r := x]))
  {
  }

  lemma FetchStep(t: Target, r: nat, ty: Type, at: Operand, a: nat)
    requires Value(t.env, at) == Some(a)
    ensures TargetStep(t, Fetch(r, ty, at)) == Some(t.(env := t.env[r := ReadMem(t.mem, a, ty)]))
  {
    hide ReadMem;
  }

  lemma DisplaceStep(t: Target, r: nat, at: Operand, a: nat, off: nat)
    requires Value(t.env, at) == Some(a)
    ensures TargetStep(t, Displace(r, at, off)) == Some(t.(env := t.env[r := (a + off) % W32]))
  {
  }

  lemma PutStep(t: Target, ty: Type, v: Operand, x: nat, at: Operand, a: nat)
    requires Value(t.env, v) == Some(x) && Value(t.env, at) == Some(a)
    ensures TargetStep(t, Put(ty, v, at)) == Some(t.(mem := WriteMem(t.mem, a, ty, x)))
  {
    hide WriteMem;
  }

  lemma PointerStep(t: Target, v: Operand, x: nat, at: Operand, a: nat)
    requires Value(t.env, v) == Some(x) && Value(t.env, at) == Some(a)
    ensures TargetStep(t, Put(Ptr, v, at)) == Some(t.(mem := Write32(t.mem, a, x)))
  {
    hide Write32;
  }

  lemma ArgNames(c: Setting, env: Names, env': Names, first: nat, a: nat, cur: nat, r: nat, x: nat, next: nat)
    requires NamesOk(c, env, env') && first > c.varargs && r < c.varargs
    ensures NamesOk(c, env[r := x], env'[first := a][first + 1 := cur][first + 2 := cur][r := x][first + 3 := next])
  {
    hide NamesOk;
    var e1 := env'[first := a];
    var e2 := e1[first + 1 := cur];
    var e3 := e2[first + 2 := cur];
    Scratch(c, env, env', first, a);
    Scratch(c, env, e1, first + 1, cur);
    Scratch(c, env, e2, first + 2, cur);
    Defined(c, env, e3, r, x);
    Scratch(c, env[r := x], e3[r := x], first + 3, next);
  }

  lemma ArgSource(c: Setting, s: Source, r: nat, ty: Type, l: Operand)
    requires SourceStep(c.args, c.cells, s, VaArg(r, ty, l)).Some?
    ensures Value(s.env, l).Some? && Value(s.env, l).value in s.lists
    ensures var a := Value(s.env, l).value;
      && s.lists[a] < |c.args| && c.args[s.lists[a]].0 == ty
      && SourceStep(c.args, c.cells, s, VaArg(r, ty, l))
         == Some(s.(env := s.env[r := c.args[s.lists[a]].1], lists := s.lists[a := s.lists[a] + 1]))
  {
  }

  lemma ReadPointer(mem: Mem, a: nat)
    ensures ReadMem(mem, a, Ptr) == Read32(mem, a)
  {
  }

  /** The six instructions one after another. */
  lemma ArgRun(t: Target, t1: Target, t2: Target, t3: Target, t4: Target, t5: Target, t6: Target, r: nat, ty: Type, l: Operand,
               first: nat, varargs: nat)
    requires TargetStep(t, Retype(first, l)) == Some(t1) && TargetStep(t1, Fetch(first + 1, Ptr, Name(first))) == Some(t2)
    requires TargetStep(t2, Retype(first + 2, Name(first + 1))) == Some(t3) && TargetStep(t3, Fetch(r, ty, Name(first + 2))) == Some(t4)
    requires TargetStep(t4, Displace(first + 3, Name(first + 1), AllocSize(TScalar(ty)))) == Some(t5)
    requires TargetStep(t5, Put(Ptr, Name(first + 3), Name(first))) == Some(t6)
    ensures TargetRun(t, Expand(VaArg(r, ty, l), varargs, first)) == Some(t6)
  {
    hide TargetStep, AllocSize;
    var o1, o2, o3 := Retype(first, l), Fetch(first + 1, Ptr, Name(first)), Retype(first + 2, Name(first + 1));
    var o4, o5, o6 := Fetch(r, ty, Name(first + 2)), Displace(first + 3, Name(first + 1), AllocSize(TScalar(ty))), Put(Ptr, Name(first + 3), Name(first));
    RunLast(t5, o6, t6);
    RunFirst(t4, o5, [o6], t5);
    RunFirst(t3, o4, [o5] + [o6], t4);
    RunFirst(t2, o3, [o4] + ([o5] + [o6]), t3);
    RunFirst(t1, o2, [o3] + ([o4] + ([o5] + [o6])), t2);
    RunFirst(t, o1, [o2] + ([o3] + ([o4] + ([o5] + [o6]))), t1);
    assert [o1] + ([o2] + ([o3] + ([o4] + ([o5] + [o6])))) == Expand(VaArg(r, ty, l), varargs, first);
  }

  lemma ListIs(c: Setting, lists: map<nat, nat>, mem: Mem, a: nat)
    requires ListsOk(c, lists, mem) && a in lists
    ensures a in c.cells && lists[a] <= |c.args| && Read32(mem, a) == c.buf + PackedAt(c.args, lists[a])
  {
  }

  lemma ArgIs(c: Setting, mem: Mem, pos: nat)
    requires Packed(c.args, c.buf, mem) && pos < |c.args|
    ensures ReadMem(mem, c.buf + PackedAt(c.args, pos), c.args[pos].0) == c.args[pos].1
  {
  }

  /** va_copy gives the destination the source's position; afterwards they move independently. */
  lemma CopySim(c: Setting, s: Source, t: Target, d: Operand, f: Operand, first: nat) returns (t': Target)
    requires Matches(c, s, t) && first > c.varargs && SourceStep(c.args, c.cells, s, VaCopy(d, f)).Some?
    ensures TargetRun(t, Expand(VaCopy(d, f), c.varargs, first)) == Some(t')
    ensures Matches(c, SourceStep(c.args, c.cells, s, VaCopy(d, f)).value, t')
  {
    hide PackedAt, Apart, Packed, ListsOk, MemoryOk, NamesOk, Write32, Read32;
    var a, b := Value(s.env, d).value, Value(s.env, f).value;
    var t1 := t.(env := t.env[first := b]);
    var t2 := t1.(env := t1.env[first + 1 := a]);
    ListIs(c, s.lists, t.mem, b);
    var cur := Read32(t.mem, b);
    var t3 := t2.(env := t2.env[first + 2 := cur]);
    t' := t3.(mem := Write32(t.mem, a, cur));
    ValueSame(c, s.env, t.env, f);
    Scratch(c, s.env, t.env, first, b);
    ValueSame(c, s.env, t1.env, d);
    Scratch(c, s.env, t1.env, first + 1, a);
    Scratch(c, s.env, t2.env, first + 2, cur);
    ListMoved(c, s, t.mem, a, s.lists[b], t'.mem);
    var o1, o2, o3 := Retype(first, f), Retype(first + 1, d), Fetch(first + 2, Ptr, Name(first));
    var o4 := Put(Ptr, Name(first + 2), Name(first + 1));
    RunLast(t3, o4, t');
    RunFirst(t2, o3, [o4], t3);
    RunFirst(t1, o2, [o3] + [o4], t2);
    RunFirst(t, o1, [o2] + ([o3] + [o4]), t1);
    assert [o1] + ([o2] + ([o3] + [o4])) == Expand(VaCopy(d, f), c.varargs, first);
  }

  lemma {:induction false} EndSim(c: Setting, s: Source, t: Target, l: Operand, first: nat)
    requires Matches(c, s, t) && SourceStep(c.args, c.cells, s, VaEnd(l)).Some?
    ensures TargetRun(t, Expand(VaEnd(l), c.varargs, first)) == Some(t)
    ensures Matches(c, SourceStep(c.args, c.cells, s, VaEnd(l)).value, t)
  {
    hide PackedAt, Apart, Packed, MemoryOk, NamesOk, Read32;
  }

  /** The program's own stores stay clear of lists and buffer. */
  lemma StoreSim(c: Setting, s: Source, t: Target, ty: Type, a: nat, x: nat)
    requires Matches(c, s, t) && x < ty.Modulus() && Initialised(s.mem, a, SizeOf(ty))
    ensures Matches(c, s.(mem := WriteMem(s.mem, a, ty, x)), t.(mem := WriteMem(t.mem, a, ty, x)))
  {
    hide PackedAt, WriteMem, ReadMem, Read32, NamesOk, Packed;
    var m, m' := WriteMem(s.mem, a, ty, x), WriteMem(t.mem, a, ty, x);
    ReadWriteMem(s.mem, a, ty, x);
    ReadWriteMem(t.mem, a, ty, x);
    SameStored(s.mem, t.mem, a, ty, x);
    StoreOutside(c, s.mem, a, SizeOf(ty));
    PackedSame(c.args, c.buf, t.mem, m');
    forall b | b in s.lists ensures Read32(m', b) == Read32(t.mem, b) {
      ReadSame(t.mem, m', b, 4);
    }
    forall y | y in m ensures Byte(m', y) == m[y] {
      if !(a <= y < a + SizeOf(ty)) {
        assert Byte(m, y) == Byte(s.mem, y) == Byte(t.mem, y);
      }
    }
  }

  lemma InMemory(mem: Mem, a: nat, n: nat, x: nat)
    requires Initialised(mem, a, n) && a <= x < a + n
    ensures x in mem
  {
  }

  lemma StoreOutside(c: Setting, mem: Mem, a: nat, n: nat)
    requires Apart(c, mem) && Initialised(mem, a, n) && n > 0
    ensures a + n <= c.buf || c.buf + PackedAt(c.args, |c.args|) <= a || PackedAt(c.args, |c.args|) == 0 || c.args == []
    ensures forall b | b in c.cells :: b + 4 <= a || a + n <= b
  {
    hide PackedAt;
    if c.args != [] && PackedAt(c.args, |c.args|) > 0 && !(a + n <= c.buf || c.buf + PackedAt(c.args, |c.args|) <= a) {
      InMemory(mem, a, n, if a <= c.buf then c.buf else a);
      assert false;
    }
    forall b | b in c.cells ensures b + 4 <= a || a + n <= b {
      if b < a + n && a < b + 4 {
        InMemory(mem, a, n, if a <= b then b else a);
        assert false;
      }
    }
  }

  /** The same store on both sides writes the same bytes. */
  lemma SameStored(m: Mem, q: Mem, a: nat, ty: Type, x: nat)
    ensures forall y | a <= y < a + SizeOf(ty) :: y in WriteMem(m, a, ty, x) && Byte(WriteMem(q, a, ty, x), y) == WriteMem(m, a, ty, x)[y]
  {
  }

  lemma PlainSim(c: Setting, s: Source, t: Target, op: Op) returns (t': Target)
    requires Matches(c, s, t) && Below(op, c.varargs) && PlainStep(s, op).Some?
    ensures TargetRun(t, [op]) == Some(t') && Matches(c, PlainStep(s, op).value, t')
  {
    hide PackedAt, Apart, Packed, ListsOk, MemoryOk, NamesOk, ReadMem, WriteMem;
    match op {
      case Retype(r, a) =>
        ValueSame(c, s.env, t.env, a);
        t' := t.(env := t.env[r := Value(s.env, a).value]);
        Defined(c, s.env, t.env, r, Value(s.env, a).value);
      case Fetch(r, ty, at) =>
        ValueSame(c, s.env, t.env, at);
        var a := Value(s.env, at).value;
        LoadSame(s.mem, t.mem, a, ty);
        t' := t.(env := t.env[r := ReadMem(s.mem, a, ty)]);
        Defined(c, s.env, t.env, r, ReadMem(s.mem, a, ty));
      case Put(ty, v, at) =>
        ValueSame(c, s.env, t.env, v);
        ValueSame(c, s.env, t.env, at);
        var x, a := Value(s.env, v).value, Value(s.env, at).value;
        t' := t.(mem := WriteMem(t.mem, a, ty, x));
        StoreSim(c, s, t, ty, a, x);
      case Displace(r, at, off) =>
        ValueSame(c, s.env, t.env, at);
        var x := (Value(s.env, at).value + off) % W32;
        t' := t.(env := t.env[r := x]);
        Defined(c, s.env, t.env, r, x);
    }
    RunLast(t, op, t');
  }

  lemma LoadSame(m: Mem, q: Mem, a: nat, ty: Type)
    requires MemoryOk(m, q) && Initialised(m, a, SizeOf(ty))
    ensures ReadMem(m, a, ty) == ReadMem(q, a, ty)
  {
    hide ReadMem;
    ReadMemSame(m, q, a, ty);
  }

  /** One instruction of the callee. */
  lemma StepSim(c: Setting, s: Source, t: Target, op: Op, first: nat) returns (t': Target)
    requires Matches(c, s, t) && Below(op, c.varargs) && first > c.varargs && SourceStep(c.args, c.cells, s, op).Some?
    ensures TargetRun(t, Expand(op, c.varargs, first)) == Some(t')
    ensures Matches(c, SourceStep(c.args, c.cells, s, op).value, t')
  {
    hide Matches, TargetRun, PlainStep;
    match op {
      case VaStart(l) => t' := StartSim(c, s, t, l, first);
      case VaArg(r, ty, l) => t' := ArgSim(c, s, t, r, ty, l, first);
      case VaCopy(d, f) => t' := CopySim(c, s, t, d, f, first);
      case VaEnd(l) =>
        EndSim(c, s, t, l, first);
        t' := t;
      case _ => t' := PlainSim(c, s, t, op);
    }
  }

  /** A run executes instructions of the body in any order, as loops and branches dictate. */
  function SourceRun(args: Args, cells: set<nat>, s: Source, body: seq<Op>, trace: seq<nat>): Option<Source>
    requires forall j | 0 <= j < |trace| :: trace[j] < |body|
    decreases |trace|
  {
    if trace == [] then Some(s) else
    match SourceStep(args, cells, s, body[trace[0]])
    case None => None
    case Some(s') => SourceRun(args, cells, s', body, trace[1..])
  }

  /** Where the instructions that replace instruction i begin. */
  function StartOf(body: seq<Op>, varargs: nat, first: nat, i: nat): nat
    requires i <= |body|
  {
    |ExpandAll(body, varargs, first, i)|
  }

  lemma {:induction false} SegmentAt(body: seq<Op>, varargs: nat, first: nat, n: nat, i: nat) returns (post: seq<Op>)
    requires i < n <= |body|
    ensures ExpandAll(body, varargs, first, n) == ExpandAll(body, varargs, first, i + 1) + post
    ensures ExpandAll(body, varargs, first, i + 1) == ExpandAll(body, varargs, first, i) + Expand(body[i], varargs, first + 4 * i)
  {
    hide Expand;
    if i == n - 1 {
      post := [];
    } else {
      post := SegmentAt(body, varargs, first, n - 1, i);
      post := post + Expand(body[n - 1], varargs, first + 4 * (n - 1));
    }
  }

  lemma SegmentIs(out: seq<Op>, body: seq<Op>, varargs: nat, first: nat, i: nat)
    requires i < |body| && out == ExpandAll(body, varargs, first, |body|)
    ensures StartOf(body, varargs, first, i) <= StartOf(body, varargs, first, i + 1) <= |out|
    ensures out[StartOf(body, varargs, first, i)..StartOf(body, varargs, first, i + 1)] == Expand(body[i], varargs, first + 4 * i)
  {
    hide Expand, ExpandAll;
    var post := SegmentAt(body, varargs, first, |body|, i);
    var pre, mid := ExpandAll(body, varargs, first, i), Expand(body[i], varargs, first + 4 * i);
    assert out == pre + mid + post;
  }

  /** The same instructions of the rewritten body, executed in the same order: each instruction of
      `body` runs its part of `out`. */
  function ExpandedRun(t: Target, out: seq<Op>, body: seq<Op>, varargs: nat, first: nat, trace: seq<nat>): Option<Target>
    requires (forall j | 0 <= j < |trace| :: trace[j] < |body|) && out == ExpandAll(body, varargs, first, |body|)
    decreases |trace|
  {
    if trace == [] then Some(t) else
    var i := trace[0];
    SegmentIs(out, body, varargs, first, i);
    match TargetRun(t, out[StartOf(body, varargs, first, i)..StartOf(body, varargs, first, i + 1)])
    case None => None
    case Some(t') => ExpandedRun(t', out, body, varargs, first, trace[1..])
  }

  /** Every run of the callee, with any interleaving of va_start, va_arg, va_copy and va_end on any
      number of lists, yields the same values and leaves the same program memory in the rewritten
      body `out`. */
  lemma {:induction false} RunSim(c: Setting, s: Source, t: Target, body: seq<Op>, first: nat, out: seq<Op>, trace: seq<nat>, s': Source)
    returns (t': Target)
    requires Matches(c, s, t) && (forall i | 0 <= i < |body| :: Below(body[i], c.varargs)) && first > c.varargs
    requires out == ExpandAll(body, c.varargs, first, |body|)
    requires (forall j | 0 <= j < |trace| :: trace[j] < |body|) && SourceRun(c.args, c.cells, s, body, trace) == Some(s')
    ensures ExpandedRun(t, out, body, c.varargs, first, trace) == Some(t') && Matches(c, s', t')
    decreases |trace|
  {
    hide Matches, TargetRun, SourceStep, Expand, Below, ExpandAll, StartOf;
    if trace == [] {
      t' := t;
    } else {
      var i := trace[0];
      var t1 := StepSim(c, s, t, body[i], first + 4 * i);
      SegmentIs(out, body, c.varargs, first, i);
      t' := RunSim(c, SourceStep(c.args, c.cells, s, body[i]).value, t1, body, first, out, trace[1..], s');
    }
  }

  // ----- The caller -----

  /** The stores that fill the buffer with arguments i onward. */
  function PackFrom(types: seq<Type>, vals: seq<Operand>, buffer: nat, first: nat, i: nat): seq<Op>
    requires i <= |types| == |vals|
    decreases |types| - i
  {
    if i == |types| then []
    else [Displace(first + i, Name(buffer), ElementOffset(Scalars(types), true, i)), Put(types[i], vals[i], Name(first + i))]
         + PackFrom(types, vals, buffer, first, i + 1)
  }

  function Scalars(types: seq<Type>): (tys: seq<Ty>)
    ensures |tys| == |types| && forall i | 0 <= i < |types| :: tys[i] == TScalar(types[i])
  {
    seq(|types|, i requires 0 <= i < |types| => TScalar(types[i]))
  }

  /** ExpandVarArgCall: arguments beyond the callee's own parameters go to a buffer, which becomes
      one more argument. A call that passes none is left as it is. */
  method ExpandCall(types: seq<Type>, args: seq<Operand>, params: nat, buffer: nat, first: nat)
    returns (stores: seq<Op>, newArgs: seq<Operand>, bufferType: Option<Ty>)
    requires |types| == |args| && params <= |args|
    ensures params == |args| ==> stores == [] && newArgs == args && bufferType == None
    ensures params < |args| ==>
      && bufferType == Some(TStruct(Scalars(types[params..]), true))
      && newArgs == args[..params] + [Name(buffer)]
      && stores == PackFrom(types[params..], args[params..], buffer, first, 0)
  {
    if params == |args| {
      return [], args, None;
    }
    var fixedArgs, varArgs, varTypes := args[..params], args[params..], types[params..];
    bufferType := Some(TStruct(Scalars(varTypes), true));
    stores := [];
    var index := 0;
    while index < |varArgs|
      invariant 0 <= index <= |varArgs|
      invariant stores + PackFrom(varTypes, varArgs, buffer, first, index) == PackFrom(varTypes, varArgs, buffer, first, 0)
    {
      stores := stores + [Displace(first + index, Name(buffer), ElementOffset(Scalars(varTypes), true, index)),
                          Put(varTypes[index], varArgs[index], Name(first + index))];
      index := index + 1;
    }
    newArgs := fixedArgs + [Name(buffer)];
  }

  /** The values being passed, and that temporaries do not clash with them. */
  ghost predicate Passing(env: Names, args: Args, vals: seq<Operand>, buffer: nat, buf: nat, first: nat) {
    && |vals| == |args| && buffer < first && buffer in env && env[buffer] == buf && buf + PackedAt(args, |args|) < W32
    && forall i | 0 <= i < |args| :: Uses(vals[i], first) && Value(env, vals[i]) == Some(args[i].1) && args[i].1 < args[i].0.Modulus()
  }

  /** The first n arguments are in the buffer. */
  ghost predicate PackedTo(args: Args, buf: nat, mem: Mem, n: nat)
    requires n <= |args|
  {
    forall i | 0 <= i < n :: ReadMem(mem, buf + PackedAt(args, i), args[i].0) == args[i].1
  }

  lemma PackedMore(args: Args, buf: nat, m: Mem, n: nat)
    requires n < |args| && PackedTo(args, buf, m, n) && args[n].1 < args[n].0.Modulus()
    ensures var m' := WriteMem(m, buf + PackedAt(args, n), args[n].0, args[n].1);
      && PackedTo(args, buf, m', n + 1)
      && forall x | x < buf || buf + PackedAt(args, |args|) <= x :: Byte(m', x) == Byte(m, x)
  {
    hide ReadMem, WriteMem, PackedAt;
    var m' := WriteMem(m, buf + PackedAt(args, n), args[n].0, args[n].1);
    ReadWriteMem(m, buf + PackedAt(args, n), args[n].0, args[n].1);
    PackedStep(args, n);
    forall i | 0 <= i < n ensures ReadMem(m', buf + PackedAt(args, i), args[i].0) == args[i].1 {
      PackedStep(args, i);
      PackedOrder(args, i + 1, n);
      ReadMemSame(m, m', buf + PackedAt(args, i), args[i].0);
    }
  }

  lemma PackedOrder(args: Args, i: nat, j: nat)
    requires i <= j <= |args|
    ensures PackedAt(args, i) <= PackedAt(args, j)
  {
    FieldsMono(Types(args), true, i, j);
  }

  function TypesOnly(args: Args): (r: seq<Type>)
    ensures |r| == |args| && Scalars(r) == Types(args)
  {
    var r := seq(|args|, i requires 0 <= i < |args| => args[i].0);
    assert Scalars(r) == Types(args);
    r
  }

  /** Filling the buffer from argument n on. */
  lemma {:induction false} PackRun(t: Target, args: Args, vals: seq<Operand>, buffer: nat, buf: nat, first: nat, n: nat) returns (t': Target)
    requires Passing(t.env, args, vals, buffer, buf, first + n) && first > buffer && n <= |args| && PackedTo(args, buf, t.mem, n)
    ensures TargetRun(t, PackFrom(TypesOnly(args), vals, buffer, first, n)) == Some(t')
    ensures Packed(args, buf, t'.mem)
    ensures forall x | x < buf || buf + PackedAt(args, |args|) <= x :: Byte(t'.mem, x) == Byte(t.mem, x)
    decreases |args| - n
  {
    hide ReadMem, WriteMem, PackedAt, ElementOffset, TargetStep;
    if n == |args| {
      t' := t;
    } else {
      var at := buf + PackedAt(args, n);
      PackedStep(args, n);
      PackedOrder(args, n, |args|);
      DivModUnique(at, W32, 0, at);
      var t1 := t.(env := t.env[first + n := at]);
      var t2 := t1.(mem := WriteMem(t.mem, at, args[n].0, args[n].1));
      var o1 := Displace(first + n, Name(buffer), ElementOffset(Types(args), true, n));
      var o2 := Put(args[n].0, vals[n], Name(first + n));
      var rest := PackFrom(TypesOnly(args), vals, buffer, first, n + 1);
      DisplaceStep(t, first + n, Name(buffer), buf, ElementOffset(Types(args), true, n));
      PutStep(t1, args[n].0, vals[n], args[n].1, Name(first + n), at);
      PackedMore(args, buf, t.mem, n);
      PassingNext(t.env, args, vals, buffer, buf, first, n, at);
      t' := PackRun(t2, args, vals, buffer, buf, first, n + 1);
      RunFirst(t1, o2, rest, t2);
      RunFirst(t, o1, [o2] + rest, t1);
      assert [o1] + ([o2] + rest) == [o1, o2] + rest;
    }
  }

  lemma PassingNext(env: Names, args: Args, vals: seq<Operand>, buffer: nat, buf: nat, first: nat, n: nat, at: nat)
    requires Passing(env, args, vals, buffer, buf, first + n) && first > buffer
    ensures Passing(env[first + n := at], args, vals, buffer, buf, first + n + 1)
    ensures forall i | 0 <= i < |args| :: Value(env[first + n := at], vals[i]) == Value(env, vals[i])
  {
    hide PackedAt;
  }

  /** The round trip: after the caller's stores the buffer is what the callee's lists walk. */
  lemma CallerFillsBuffer(t: Target, args: Args, vals: seq<Operand>, buffer: nat, buf: nat, first: nat) returns (t': Target)
    requires Passing(t.env, args, vals, buffer, buf, first)
    ensures TargetRun(t, PackFrom(TypesOnly(args), vals, buffer, first, 0)) == Some(t')
    ensures Packed(args, buf, t'.mem)
    ensures forall x | x < buf || buf + PackedAt(args, |args|) <= x :: Byte(t'.mem, x) == Byte(t.mem, x)
  {
    hide ReadMem, PackedAt, TargetRun;
    t' := PackRun(t, args, vals, buffer, buf, first, 0);
  }

  /** On entry the callee has no list yet and its new parameter is the buffer. */
  lemma CallMatches(c: Setting, env: Names, mem: Mem, mem': Mem)
    requires Apart(c, mem) && (forall n | n in env :: n < c.varargs) && MemoryOk(mem, mem') && Packed(c.args, c.buf, mem')
    ensures Matches(c, Source(env, mem, map[]), Target(env[c.varargs := c.buf], mem'))
  {
    hide Packed, PackedAt;
  }

  /** A whole call that passes variable arguments: the caller packs them, and every run of the
      callee's rewritten body reads them back in order on each of its lists. */
  lemma RoundTrip(t: Target, c: Setting, vals: seq<Operand>, buffer: nat, temps: nat, env: Names, mem: Mem, body: seq<Op>, first: nat,
                  out: seq<Op>, trace: seq<nat>, s': Source) returns (filled: Target, t': Target)
    requires c.args != [] && Passing(t.env, c.args, vals, buffer, c.buf, temps) && Apart(c, mem) && MemoryOk(mem, t.mem)
    requires (forall n | n in env :: n < c.varargs) && (forall i | 0 <= i < |body| :: Below(body[i], c.varargs))
    requires first > c.varargs && out == ExpandAll(body, c.varargs, first, |body|)
    requires (forall j | 0 <= j < |trace| :: trace[j] < |body|)
    requires SourceRun(c.args, c.cells, Source(env, mem, map[]), body, trace) == Some(s')
    ensures TargetRun(t, PackFrom(TypesOnly(c.args), vals, buffer, temps, 0)) == Some(filled)
    ensures ExpandedRun(Target(env[c.varargs := c.buf], filled.mem), out, body, c.varargs, first, trace) == Some(t') && Matches(c, s', t')
  {
    hide Packed, PackedAt, Passing, TargetRun, Matches, SourceStep, ExpandAll;
    filled := CallerFillsBuffer(t, c.args, vals, buffer, c.buf, temps);
    CallMatches(c, env, mem, filled.mem);
    t' := RunSim(c, Source(env, mem, map[]), Target(env[c.varargs := c.buf], filled.mem), body, first, out, trace, s');
  }

  /** A call that passes none is left alone, so nothing is bound to the callee's new parameter.
      Whatever it holds, every run of the callee has the same names and the same program memory. */
  lemma EmptyCall(junk: word, cells: set<nat>, varargs: nat, env: Names, mem: Mem, mem': Mem, body: seq<Op>, first: nat, out: seq<Op>,
                  trace: seq<nat>, s': Source) returns (t': Target)
    requires MemoryOk(mem, mem') && (forall a, b | a in cells && b in cells && a != b :: a + 4 <= b || b + 4 <= a)
    requires forall a, x | a in cells && x in mem :: x < a || a + 4 <= x
    requires (forall n | n in env :: n < varargs) && (forall i | 0 <= i < |body| :: Below(body[i], varargs))
    requires first > varargs && out == ExpandAll(body, varargs, first, |body|)
    requires (forall j | 0 <= j < |trace| :: trace[j] < |body|)
    requires SourceRun([], cells, Source(env, mem, map[]), body, trace) == Some(s')
    ensures ExpandedRun(Target(env[varargs := junk], mem'), out, body, varargs, first, trace) == Some(t')
    ensures forall n | n in s'.env :: n in t'.env && t'.env[n] == s'.env[n]
    ensures MemoryOk(s'.mem, t'.mem)
  {
    hide PackedAt, TargetRun, SourceStep, ExpandAll, ListsOk;
    var c := Setting([], cells, junk, varargs);
    PackedStart([]);
    CallMatches(c, env, mem, mem');
    t' := RunSim(c, Source(env, mem, map[]), Target(env[varargs := junk], mem'), body, first, out, trace, s');
  }
}
