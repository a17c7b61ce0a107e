/** The C functions cgen emits for a program: one per block, and one more after every instruction
    that hands control to another function. */
module Emission {
  import opened Options
  import opened Ssa

  /** The functions that can be handed to the trampoline. `After(fn, block, index)` continues a block
      after its instruction `index`. */
  datatype Label =
    | Entry(fn: nat)
    | BlockStart(fn: nat, block: nat)
    | After(fn: nat, block: nat, index: nat)
    | RuntimeApi(api: nat)
    | ClosureNew(fn: nat)
    | InterfaceInvoke
    | Terminate

  /** One emitted statement group. The last three forms and the `Call` forms return from the C function. */
  datatype Stmt =
    | Select(dst: nat, cases: seq<(Label, Operand)>)
    | Compute(result: Option<nat>, op: nat, args: seq<Operand>)
    | CallApi(result: Option<nat>, api: nat, args: seq<Operand>, resume: Label)
    | CallClosureNew(closure: nat, fn: nat, bindings: seq<Operand>, resume: Label)
    | CallFunction(result: Option<nat>, callee: Operand, args: seq<Operand>, resume: Label)
    | CallInvoke(result: Option<nat>, iface: Operand, name: nat, args: seq<Operand>, resume: Label)
    | ReturnLabel(target: Label)
    | ReturnEither(cond: Operand, yes: Label, no: Label)
    | ReturnToCaller(results: seq<Operand>)

  datatype Definition = Definition(name: Label, body: seq<Stmt>)

  /** The label that runs last among those of the first `n` instructions of a block. */
  function LatestAmong(fn: nat, b: nat, instrs: seq<Instr>, n: nat): Label
    requires n <= |instrs|
  {
    if n == 0 then BlockStart(fn, b)
    else if RequireSwitchFunction(instrs[n - 1]) then After(fn, b, n - 1)
    else LatestAmong(fn, b, instrs, n - 1)
  }

  /** The label whose C function ends block `b` of `fn`: what `latestNameMap` must hold for it. */
  function LatestLabel(p: Program, fn: nat, b: nat): Label
    requires fn < |p| && b < |p[fn].blocks|
  {
    LatestAmong(fn, b, p[fn].blocks[b].instrs, |p[fn].blocks[b].instrs|)
  }

  /** The if-chain of a phi: which operand to take for which previous label. */
  ghost function Cases(p: Program, fn: nat, b: nat, edges: seq<Operand>, n: nat): seq<(Label, Operand)>
    requires WellShaped(p) && fn < |p| && b < |p[fn].blocks|
    requires n <= |edges| && |edges| == |p[fn].blocks[b].preds|
  {
    seq(n, i requires 0 <= i < n => (LatestLabel(p, fn, p[fn].blocks[b].preds[i]), edges[i]))
  }

  ghost function Translate(p: Program, fn: nat, b: nat, index: nat): Stmt
    requires WellShaped(p) && fn < |p| && b < |p[fn].blocks| && index < |p[fn].blocks[b].instrs|
  {
    var block := p[fn].blocks[b];
    assert WellShapedInstr(block, index);
    match block.instrs[index]
    case Phi(dst, edges) => Select(dst, Cases(p, fn, b, edges, |edges|))
    case Inline(result, op, args) => Compute(result, op, args)
    case Api(result, api, args) => CallApi(result, api, args, After(fn, b, index))
    case MakeClosure(closure, callee, bindings) => CallClosureNew(closure, callee, bindings, After(fn, b, index))
    case Call(result, callee, args) => CallFunction(result, callee, args, After(fn, b, index))
    case CallMethod(result, iface, id, args) => CallInvoke(result, iface, id.name, args, After(fn, b, index))
    case Jump => ReturnLabel(BlockStart(fn, block.succs[0]))
    case If(cond) => ReturnEither(cond, BlockStart(fn, block.succs[0]), BlockStart(fn, block.succs[1]))
    case Return(results) => ReturnToCaller(results)
  }

  /** The body of the C function that starts at instruction `start` of a block. */
  ghost function LabelBody(p: Program, fn: nat, b: nat, start: nat): seq<Stmt>
    requires WellShaped(p) && fn < |p| && b < |p[fn].blocks|
    decreases |p[fn].blocks[b].instrs| - start
  {
    if start >= |p[fn].blocks[b].instrs| then []
    else if RequireSwitchFunction(p[fn].blocks[b].instrs[start]) then [Translate(p, fn, b, start)]
    else [Translate(p, fn, b, start)] + LabelBody(p, fn, b, start + 1)
  }

  /** The C functions that continue a block, from instruction `i` on. */
  ghost function Continuations(p: Program, fn: nat, b: nat, i: nat): seq<Definition>
    requires WellShaped(p) && fn < |p| && b < |p[fn].blocks|
    decreases |p[fn].blocks[b].instrs| - i
  {
    if i >= |p[fn].blocks[b].instrs| then []
    else if RequireSwitchFunction(p[fn].blocks[b].instrs[i]) then
      [Definition(After(fn, b, i), LabelBody(p, fn, b, i + 1))] + Continuations(p, fn, b, i + 1)
    else Continuations(p, fn, b, i + 1)
  }

  ghost function BlockDefinitions(p: Program, fn: nat, b: nat): seq<Definition>
    requires WellShaped(p) && fn < |p| && b < |p[fn].blocks|
  {
    [Definition(BlockStart(fn, b), LabelBody(p, fn, b, 0))] + Continuations(p, fn, b, 0)
  }

  ghost function FunctionDefinitions(p: Program, fn: nat, blocks: nat): seq<Definition>
    requires WellShaped(p) && fn < |p| && blocks <= |p[fn].blocks|
  {
    if blocks == 0 then [Definition(Entry(fn), [ReturnLabel(BlockStart(fn, 0))])]
    else FunctionDefinitions(p, fn, blocks - 1) + BlockDefinitions(p, fn, blocks - 1)
  }

  ghost function PackageDefinitions(p: Program, n: nat): seq<Definition>
    requires WellShaped(p) && n <= |p|
  {
    if n == 0 then [] else PackageDefinitions(p, n - 1) + FunctionDefinitions(p, n - 1, |p[n - 1].blocks|)
  }

  /** cgen's state while it writes a package: the output, and the map from blocks to the name of the
      last C function of the block. */
  class Context {
    var stream: seq<Definition>
    var latestNameMap: map<(nat, nat), Label>

    constructor ()
      ensures stream == [] && latestNameMap == map[]
    {
      stream, latestNameMap := [], map[];
    }

    /** True once the map is right for the first `n` blocks of `fn`. */
    ghost predicate Names(p: Program, fn: nat, n: nat)
      requires fn < |p| && n <= |p[fn].blocks|
      reads this`latestNameMap
    {
      forall b | 0 <= b < n :: (fn, b) in latestNameMap && latestNameMap[(fn, b)] == LatestLabel(p, fn, b)
    }

    method EmitPackage(p: Program)
      requires WellShaped(p) && stream == []
      modifies this
      ensures stream == PackageDefinitions(p, |p|)
    {
      for fn := 0 to |p|
        invariant stream == PackageDefinitions(p, fn)
      {
        RecordLatestNames(p, fn);
        EmitFunctionDefinition(p, fn);
      }
    }

    method RecordLatestNames(p: Program, fn: nat)
      requires fn < |p|
      modifies this`latestNameMap
      ensures Names(p, fn, |p[fn].blocks|)
    {
      for b := 0 to |p[fn].blocks|
        invariant Names(p, fn, b)
      {
        var instrs := p[fn].blocks[b].instrs;
        latestNameMap := latestNameMap[(fn, b) := BlockStart(fn, b)];
        for i := 0 to |instrs|
          invariant Names(p, fn, b)
          invariant (fn, b) in latestNameMap && latestNameMap[(fn, b)] == LatestAmong(fn, b, instrs, i)
        {
          if RequireSwitchFunction(instrs[i]) {
            latestNameMap := latestNameMap[(fn, b) := After(fn, b, i)];
          }
        }
      }
    }

    method EmitFunctionDefinition(p: Program, fn: nat)
      requires WellShaped(p) && fn < |p| && Names(p, fn, |p[fn].blocks|)
      modifies this`stream
      ensures stream == old(stream) + FunctionDefinitions(p, fn, |p[fn].blocks|)
    {
      stream := stream + [Definition(Entry(fn), [ReturnLabel(BlockStart(fn, 0))])];
      for b := 0 to |p[fn].blocks|
        invariant stream == old(stream) + FunctionDefinitions(p, fn, b)
      {
        EmitBlock(p, fn, b);
      }
    }

    method EmitBlock(p: Program, fn: nat, b: nat)
      requires WellShaped(p) && fn < |p| && Names(p, fn, |p[fn].blocks|) && b < |p[fn].blocks|
      modifies this`stream
      ensures stream == old(stream) + BlockDefinitions(p, fn, b)
    {
      var instrs := p[fn].blocks[b].instrs;
      var name, body: seq<Stmt> := BlockStart(fn, b), [];
      assert [] + LabelBody(p, fn, b, 0) == LabelBody(p, fn, b, 0);
      for i := 0 to |instrs|
        invariant stream + [Definition(name, body + LabelBody(p, fn, b, i))] + Continuations(p, fn, b, i)
               == old(stream) + BlockDefinitions(p, fn, b)
      {
        var stmt := EmitInstruction(p, fn, b, i);
        ghost var rest := Continuations(p, fn, b, i + 1);
        if RequireSwitchFunction(instrs[i]) {
          assert LabelBody(p, fn, b, i) == [stmt];
          assert [] + LabelBody(p, fn, b, i + 1) == LabelBody(p, fn, b, i + 1);
          assert stream + [Definition(name, body + LabelBody(p, fn, b, i))] + Continuations(p, fn, b, i)
              == (stream + [Definition(name, body + [stmt])])
                 + [Definition(After(fn, b, i), [] + LabelBody(p, fn, b, i + 1))] + rest;
          stream := stream + [Definition(name, body + [stmt])];
          name, body := After(fn, b, i), [];
        } else {
          assert body + LabelBody(p, fn, b, i) == (body + [stmt]) + LabelBody(p, fn, b, i + 1);
          body := body + [stmt];
        }
      }
      assert body + [] == body;
      stream := stream + [Definition(name, body)];
    }

    method EmitInstruction(p: Program, fn: nat, b: nat, index: nat) returns (stmt: Stmt)
      requires WellShaped(p) && fn < |p| && Names(p, fn, |p[fn].blocks|)
      requires b < |p[fn].blocks| && index < |p[fn].blocks[b].instrs|
      ensures stmt == Translate(p, fn, b, index)
    {
      var block := p[fn].blocks[b];
      assert WellShapedInstr(block, index);
      match block.instrs[index]
      case Phi(dst, edges) =>
        var cases: seq<(Label, Operand)> := [];
        for i := 0 to |edges|
          invariant cases == Cases(p, fn, b, edges, i)
        {
          cases := cases + [(latestNameMap[(fn, block.preds[i])], edges[i])];
        }
        stmt := Select(dst, cases);
      case Inline(result, op, args) =>
        stmt := Compute(result, op, args);
      case Api(result, api, args) =>
        stmt := CallApi(result, api, args, After(fn, b, index));
      case MakeClosure(closure, callee, bindings) =>
        stmt := CallClosureNew(closure, callee, bindings, After(fn, b, index));
      case Call(result, callee, args) =>
        stmt := CallFunction(result, callee, args, After(fn, b, index));
      case CallMethod(result, iface, id, args) =>
        stmt := CallInvoke(result, iface, id.name, args, After(fn, b, index));
      case Jump =>
        stmt := ReturnLabel(BlockStart(fn, block.succs[0]));
      case If(cond) =>
        stmt := ReturnEither(cond, BlockStart(fn, block.succs[0]), BlockStart(fn, block.succs[1]));
      case Return(results) =>
        stmt := ReturnToCaller(results);
    }
  }

  /** The labels for which a C function must exist. */
  predicate IsDefined(p: Program, l: Label) {
    match l
    case Entry(fn) => fn < |p|
    case BlockStart(fn, b) => fn < |p| && b < |p[fn].blocks|
    case After(fn, b, i) =>
      fn < |p| && b < |p[fn].blocks| && i < |p[fn].blocks[b].instrs| && RequireSwitchFunction(p[fn].blocks[b].instrs[i])
    case _ => false
  }

  ghost function BodyOf(p: Program, l: Label): seq<Stmt>
    requires WellShaped(p) && IsDefined(p, l)
  {
    match l
    case Entry(fn) => [ReturnLabel(BlockStart(fn, 0))]
    case BlockStart(fn, b) => LabelBody(p, fn, b, 0)
    case After(fn, b, i) => LabelBody(p, fn, b, i + 1)
  }

  /** The emitted functions by name, as the C linker sees them. */
  function Link(defs: seq<Definition>): map<Label, seq<Stmt>> {
    if defs == [] then map[] else Link(defs[..|defs| - 1])[defs[|defs| - 1].name := defs[|defs| - 1].body]
  }

  /** Every emitted function is the one its name asks for. */
  ghost predicate Faithful(p: Program, defs: seq<Definition>)
    requires WellShaped(p)
  {
    forall k | 0 <= k < |defs| :: IsDefined(p, defs[k].name) && defs[k].body == BodyOf(p, defs[k].name)
  }

  ghost predicate Defines(defs: seq<Definition>, l: Label) {
    exists k :: 0 <= k < |defs| && defs[k].name == l
  }

  lemma {:induction false} LinkFaithful(p: Program, defs: seq<Definition>, l: Label)
    requires WellShaped(p) && Faithful(p, defs)
    ensures l in Link(defs) <==> Defines(defs, l)
    ensures l in Link(defs) ==> IsDefined(p, l) && Link(defs)[l] == BodyOf(p, l)
  {
    hide WellShaped, IsDefined, BodyOf;
    if defs != [] {
      LinkFaithful(p, defs[..|defs| - 1], l);
      var last := |defs| - 1;
      if Defines(defs, l) && defs[last].name != l {
        var k :| 0 <= k < |defs| && defs[k].name == l;
        assert defs[..last][k].name == l;
      }
      if Defines(defs[..last], l) {
        var k :| 0 <= k < |defs[..last]| && defs[..last][k].name == l;
        assert defs[k].name == l;
      }
    }
  }

  /** No C function is defined twice. */
  ghost predicate UniqueNames(defs: seq<Definition>) {
    forall j, k | 0 <= j < k < |defs| :: defs[j].name != defs[k].name
  }

  predicate OfFunction(l: Label, fn: nat) {
    (l.Entry? || l.BlockStart? || l.After?) && l.fn == fn
  }

  predicate OfBlock(l: Label, fn: nat, b: nat) {
    (l.BlockStart? || l.After?) && l.fn == fn && l.block == b
  }

  lemma {:induction false} ContinuationNames(p: Program, fn: nat, b: nat, from: nat)
    requires WellShaped(p) && fn < |p| && b < |p[fn].blocks|
    ensures forall k | 0 <= k < |Continuations(p, fn, b, from)| ::
              var l := Continuations(p, fn, b, from)[k].name;
              l.After? && OfBlock(l, fn, b) && l.index >= from
    ensures Faithful(p, Continuations(p, fn, b, from))
    ensures UniqueNames(Continuations(p, fn, b, from))
    decreases |p[fn].blocks[b].instrs| - from
  {
    if from < |p[fn].blocks[b].instrs| {
      ContinuationNames(p, fn, b, from + 1);
    }
  }

  lemma {:induction false} ContinuationsComplete(p: Program, fn: nat, b: nat, from: nat, i: nat)
    requires WellShaped(p) && IsDefined(p, After(fn, b, i)) && from <= i
    ensures Defines(Continuations(p, fn, b, from), After(fn, b, i))
    decreases i - from
  {
    var defs, rest := Continuations(p, fn, b, from), Continuations(p, fn, b, from + 1);
    if from == i {
      assert defs[0].name == After(fn, b, i);
    } else {
      ContinuationsComplete(p, fn, b, from + 1, i);
      var k :| 0 <= k < |rest| && rest[k].name == After(fn, b, i);
      var shift := |defs| - |rest|;
      assert defs[k + shift].name == After(fn, b, i);
    }
  }

  ghost predicate NamesOf(p: Program, defs: seq<Definition>, fn: nat, blocks: nat) {
    forall k | 0 <= k < |defs| ::
      OfFunction(defs[k].name, fn) && (defs[k].name.Entry? || defs[k].name.block < blocks)
  }

  lemma BlockNames(p: Program, fn: nat, b: nat)
    requires WellShaped(p) && fn < |p| && b < |p[fn].blocks|
    ensures Faithful(p, BlockDefinitions(p, fn, b)) && UniqueNames(BlockDefinitions(p, fn, b))
    ensures forall k | 0 <= k < |BlockDefinitions(p, fn, b)| :: OfBlock(BlockDefinitions(p, fn, b)[k].name, fn, b)
  {
    ContinuationNames(p, fn, b, 0);
  }

  lemma {:induction false} FunctionNames(p: Program, fn: nat, blocks: nat)
    requires WellShaped(p) && fn < |p| && blocks <= |p[fn].blocks|
    ensures Faithful(p, FunctionDefinitions(p, fn, blocks)) && UniqueNames(FunctionDefinitions(p, fn, blocks))
    ensures NamesOf(p, FunctionDefinitions(p, fn, blocks), fn, blocks)
  {
    if blocks > 0 {
      hide BlockDefinitions, BodyOf, IsDefined;
      FunctionNames(p, fn, blocks - 1);
      BlockNames(p, fn, blocks - 1);
    }
  }

  lemma DefinesConcat(xs: seq<Definition>, ys: seq<Definition>, l: Label)
    ensures Defines(xs + ys, l) <==> Defines(xs, l) || Defines(ys, l)
  {
    if Defines(xs, l) {
      var k :| 0 <= k < |xs| && xs[k].name == l;
      assert (xs + ys)[k].name == l;
    }
    if Defines(ys, l) {
      var k :| 0 <= k < |ys| && ys[k].name == l;
      assert (xs + ys)[|xs| + k].name == l;
    }
  }

  lemma {:induction false} FunctionComplete(p: Program, l: Label, blocks: nat)
    requires WellShaped(p) && IsDefined(p, l) && blocks <= |p[l.fn].blocks| && (!l.Entry? ==> l.block < blocks)
    ensures Defines(FunctionDefinitions(p, l.fn, blocks), l)
  {
    if blocks == 0 {
      assert FunctionDefinitions(p, l.fn, 0)[0].name == l;
    } else {
      DefinesConcat(FunctionDefinitions(p, l.fn, blocks - 1), BlockDefinitions(p, l.fn, blocks - 1), l);
      if l.Entry? || l.block < blocks - 1 {
        FunctionComplete(p, l, blocks - 1);
      } else if l.BlockStart? {
        assert BlockDefinitions(p, l.fn, l.block)[0].name == l;
      } else {
        ContinuationsComplete(p, l.fn, l.block, 0, l.index);
        DefinesConcat([Definition(BlockStart(l.fn, l.block), LabelBody(p, l.fn, l.block, 0))],
                      Continuations(p, l.fn, l.block, 0), l);
      }
    }
  }

  ghost predicate BeforeFunction(defs: seq<Definition>, n: nat) {
    forall k | 0 <= k < |defs| :: (defs[k].name.Entry? || defs[k].name.BlockStart? || defs[k].name.After?)
      && defs[k].name.fn < n
  }

  lemma {:induction false} PackageNames(p: Program, n: nat)
    requires WellShaped(p) && n <= |p|
    ensures Faithful(p, PackageDefinitions(p, n)) && UniqueNames(PackageDefinitions(p, n))
    ensures BeforeFunction(PackageDefinitions(p, n), n)
  {
    if n > 0 {
      PackageNames(p, n - 1);
      FunctionNames(p, n - 1, |p[n - 1].blocks|);
    }
  }

  lemma {:induction false} PackageComplete(p: Program, l: Label, n: nat)
    requires WellShaped(p) && IsDefined(p, l) && l.fn < n <= |p|
    ensures Defines(PackageDefinitions(p, n), l)
  {
    var blocks := |p[n - 1].blocks|;
    DefinesConcat(PackageDefinitions(p, n - 1), FunctionDefinitions(p, n - 1, blocks), l);
    if l.fn == n - 1 {
      FunctionComplete(p, l, blocks);
    } else {
      PackageComplete(p, l, n - 1);
    }
  }

  /** Linking the emitted package gives every needed label exactly one function, the right one. */
  lemma EmittedPackageLinks(p: Program, l: Label)
    requires WellShaped(p)
    ensures UniqueNames(PackageDefinitions(p, |p|))
    ensures l in Link(PackageDefinitions(p, |p|)) <==> IsDefined(p, l)
    ensures IsDefined(p, l) ==> Link(PackageDefinitions(p, |p|))[l] == BodyOf(p, l)
  {
    PackageNames(p, |p|);
    if IsDefined(p, l) { PackageComplete(p, l, |p|); }
    LinkFaithful(p, PackageDefinitions(p, |p|), l);
  }
}
