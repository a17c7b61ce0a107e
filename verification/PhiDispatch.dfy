/** The previous label that phis test is right in every state the trampoline can reach, whatever the
    program computes and however often its runtime calls are retried. */
module PhiDispatch {
  import opened Options
  import opened Sequences
  import opened Ssa
  import opened Emission
  import opened Trampoline
  import opened Simulation

  /** Control came to block `b` of `fn` from the function's entry, or from the last C function of a
      block that has `b` as a successor. */
  ghost predicate CameFrom(p: Program, fn: nat, b: nat, prev: Label)
    requires fn < |p|
  {
    || (prev == Entry(fn) && b == 0)
    || exists pred :: CameFromBlock(p, fn, b, prev, pred)
  }

  ghost predicate CameFromBlock(p: Program, fn: nat, b: nat, prev: Label, pred: nat)
    requires fn < |p|
  {
    pred < |p[fn].blocks| && b in p[fn].blocks[pred].succs && prev == LatestLabel(p, fn, pred)
  }

  /** The two facts every step keeps: frames never resume at the head of a block, and at the head of a
      block the previous label is the one the if-chains of its phis expect. */
  ghost predicate PreviousLabelRight(p: Program, m: Machine) {
    && (forall i | 0 <= i < |m.frames| :: m.frames[i].resume.After? || m.frames[i].resume.Terminate?)
    && (m.current.Code? && m.current.label'.BlockStart? ==>
          m.current.label'.fn < |p| && CameFrom(p, m.current.label'.fn, m.current.label'.block, m.prev))
  }

  lemma {:induction false} BodyIndex(p: Program, fn: nat, b: nat, start: nat, offset: nat)
    requires WellShaped(p) && fn < |p| && b < |p[fn].blocks| && offset < |LabelBody(p, fn, b, start)|
    ensures start + offset < |p[fn].blocks[b].instrs| && NoSwitch(p[fn].blocks[b].instrs, start, start + offset)
    ensures LabelBody(p, fn, b, start)[offset] == Translate(p, fn, b, start + offset)
    decreases offset
  {
    if offset > 0 { BodyIndex(p, fn, b, start + 1, offset - 1); }
  }

  lemma FramesKept(p: Program, frames: seq<Frame>, ptr: ResultPtr, v: Value)
    requires forall i | 0 <= i < |frames| :: frames[i].resume.After? || frames[i].resume.Terminate?
    requires Store(frames, ptr, v).Some?
    ensures forall i | 0 <= i < |Store(frames, ptr, v).value| ::
              Store(frames, ptr, v).value[i].resume.After? || Store(frames, ptr, v).value[i].resume.Terminate?
  {
  }

  /** The labels a statement hands over to, or passes for its own function to be resumed at. */
  predicate Names(stmt: Stmt, to: Label) {
    match stmt
    case ReturnLabel(target) => to == target
    case ReturnEither(_, yes, no) => to == yes || to == no
    case CallApi(_, _, _, resume) => to == resume
    case CallClosureNew(_, _, _, resume) => to == resume
    case CallFunction(_, _, _, resume) => to == resume
    case CallInvoke(_, _, _, _, resume) => to == resume
    case _ => false
  }

  /** The statements that push a frame. */
  predicate Pushes(stmt: Stmt) {
    stmt.CallApi? || stmt.CallClosureNew? || stmt.CallFunction? || stmt.CallInvoke?
  }

  lemma TranslateStays(p: Program, fn: nat, b: nat, index: nat, to: Label)
    requires WellShaped(p) && fn < |p| && b < |p[fn].blocks| && index < |p[fn].blocks[b].instrs|
    requires Names(Translate(p, fn, b, index), to)
    ensures IsDefined(p, to) && (to.BlockStart? || to.After?) && to.fn == fn
    ensures Pushes(Translate(p, fn, b, index)) ==> to.After?
  {
    assert WellShapedInstr(p[fn].blocks[b], index);
  }

  /** Where a statement of an emitted C function comes from. */
  lemma StmtAt(p: Program, code: map<Label, seq<Stmt>>, l: Label, offset: nat) returns (index: nat)
    requires WellShaped(p) && CodeOf(p, code) && l in code && offset < |code[l]|
    ensures IsDefined(p, l) && l.fn < |p|
    ensures l.Entry? ==> code[l][offset] == ReturnLabel(BlockStart(l.fn, 0)) && IsDefined(p, BlockStart(l.fn, 0))
    ensures !l.Entry? ==> (l.BlockStart? || l.After?) && index == StartOf(l) + offset
    ensures !l.Entry? ==> l.block < |p[l.fn].blocks| && index < |p[l.fn].blocks[l.block].instrs|
    ensures !l.Entry? ==> code[l][offset] == Translate(p, l.fn, l.block, index)
  {
    hide WellShapedBlock, Translate;
    index := 0;
    if !l.Entry? {
      index := StartOf(l) + offset;
      BodyIndex(p, l.fn, l.block, StartOf(l), offset);
    }
  }

  /** Emitted code only names labels of its own function, and all of them are defined. */
  lemma LabelsStay(p: Program, code: map<Label, seq<Stmt>>, l: Label, offset: nat, to: Label)
    requires WellShaped(p) && CodeOf(p, code) && l in code && offset < |code[l]| && Names(code[l][offset], to)
    ensures to in code && (to.BlockStart? || to.After?) && to.fn == l.fn
    ensures Pushes(code[l][offset]) ==> to.After?
  {
    hide WellShaped, Translate, LabelBody, IsDefined;
    var index := StmtAt(p, code, l, offset);
    if !l.Entry? {
      TranslateStays(p, l.fn, l.block, index, to);
    }
  }

  /** A C function that hands over to a block is the last one of its own block. */
  lemma HandsOverLast(p: Program, code: map<Label, seq<Stmt>>, l: Label, offset: nat, to: Label)
    requires WellShaped(p) && CodeOf(p, code) && l in code && offset < |code[l]|
    requires !Pushes(code[l][offset]) && Names(code[l][offset], to)
    ensures to.BlockStart? && to.fn == l.fn < |p| && CameFrom(p, to.fn, to.block, l)
  {
    hide LabelBody, Continuations, WellShapedBlock;
    var index := StmtAt(p, code, l, offset);
    if !l.Entry? {
      BodyIndex(p, l.fn, l.block, StartOf(l), offset);
      SuccessorNamed(p, l.fn, l.block, index, to);
      LatestReached(p, l, index);
      assert CameFromBlock(p, l.fn, to.block, l, l.block);
    }
  }

  lemma SuccessorNamed(p: Program, fn: nat, b: nat, index: nat, to: Label)
    requires WellShaped(p) && fn < |p| && b < |p[fn].blocks| && index < |p[fn].blocks[b].instrs|
    requires var stmt := Translate(p, fn, b, index); !Pushes(stmt) && Names(stmt, to)
    ensures index == |p[fn].blocks[b].instrs| - 1 && !RequireSwitchFunction(p[fn].blocks[b].instrs[index])
    ensures to.BlockStart? && to.fn == fn && to.block in p[fn].blocks[b].succs
  {
    assert WellShapedInstr(p[fn].blocks[b], index);
  }

  /** A frame is pushed that resumes where the statement says. */
  lemma PushKeeps(p: Program, sem: Semantics, m: Machine, top: Frame, fn: nat, stmt: Stmt)
    requires PreviousLabelRight(p, m) && m.frames != [] && top == m.frames[|m.frames| - 1] && top.UserFrame? && fn < |p|
    requires Pushes(stmt) && stmt.resume.After? && ExecuteStmt(p, sem, m, top, fn, stmt).Some?
    ensures PreviousLabelRight(p, ExecuteStmt(p, sem, m, top, fn, stmt).value)
  {
    hide CameFrom, Read, ReadAll, PointerTo;
  }

  /** A function hands over to a block, coming from `l`, or returns to its caller. */
  lemma LeavingKeeps(p: Program, sem: Semantics, m: Machine, top: Frame, fn: nat, stmt: Stmt)
    requires PreviousLabelRight(p, m) && m.frames != [] && top == m.frames[|m.frames| - 1] && top.UserFrame? && fn < |p|
    requires stmt.ReturnLabel? || stmt.ReturnEither? || stmt.ReturnToCaller?
    requires stmt.ReturnLabel? || stmt.ReturnEither? ==>
               forall to | Names(stmt, to) ::
                 to.BlockStart? && to.fn < |p| && CameFrom(p, to.fn, to.block, ExtractUserFunction(m.current))
    requires ExecuteStmt(p, sem, m, top, fn, stmt).Some?
    ensures PreviousLabelRight(p, ExecuteStmt(p, sem, m, top, fn, stmt).value)
  {
    hide CameFrom, Read, ReadAll;
    match stmt
    case ReturnLabel(to) => assert Names(stmt, to);
    case ReturnEither(cond, yes, no) => assert Names(stmt, yes) && Names(stmt, no);
    case ReturnToCaller(results) =>
      var vs, below := ReadAll(results, top), m.frames[..|m.frames| - 1];
      if results != [] && Store(below, top.resultPtr, Packed(vs)).Some? {
        FramesKept(p, below, top.resultPtr, Packed(vs));
      }
  }

  /** Other statements only change the registers of the frame on top. */
  lemma InlineKeeps(p: Program, sem: Semantics, m: Machine, top: Frame, fn: nat, stmt: Stmt)
    requires PreviousLabelRight(p, m) && m.frames != [] && top == m.frames[|m.frames| - 1] && top.UserFrame? && fn < |p|
    requires (stmt.Select? || stmt.Compute?) && ExecuteStmt(p, sem, m, top, fn, stmt).Some?
    ensures PreviousLabelRight(p, ExecuteStmt(p, sem, m, top, fn, stmt).value)
  {
    hide CameFrom, Read, ReadAll, FirstMatch;
  }

  lemma StmtKeeps(p: Program, code: map<Label, seq<Stmt>>, sem: Semantics, m: Machine, l: Label)
    requires WellShaped(p) && CodeOf(p, code) && PreviousLabelRight(p, m)
    requires m.frames != [] && m.frames[|m.frames| - 1].UserFrame? && m.entered
    requires l == ExtractUserFunction(m.current) && l in code && m.offset < |code[l]|
    requires (l.Entry? || l.BlockStart? || l.After?) && l.fn < |p|
    requires ExecuteStmt(p, sem, m, m.frames[|m.frames| - 1], l.fn, code[l][m.offset]).Some?
    ensures PreviousLabelRight(p, ExecuteStmt(p, sem, m, m.frames[|m.frames| - 1], l.fn, code[l][m.offset]).value)
  {
    hide WellShaped, CodeOf, PreviousLabelRight, ExecuteStmt, CameFrom, ExtractUserFunction;
    var stmt, top := code[l][m.offset], m.frames[|m.frames| - 1];
    if Pushes(stmt) {
      LabelsStay(p, code, l, m.offset, stmt.resume);
      PushKeeps(p, sem, m, top, l.fn, stmt);
    } else if stmt.Select? || stmt.Compute? {
      InlineKeeps(p, sem, m, top, l.fn, stmt);
    } else {
      forall to | Names(stmt, to)
        ensures to.BlockStart? && to.fn < |p| && CameFrom(p, to.fn, to.block, ExtractUserFunction(m.current))
      {
        HandsOverLast(p, code, l, m.offset, to);
      }
      LeavingKeeps(p, sem, m, top, l.fn, stmt);
    }
  }

  lemma InvokeKeeps(p: Program, sem: Semantics, m: Machine)
    requires m.frames != [] && PreviousLabelRight(p, m) && InvokeMethod(sem, m).Some?
    ensures PreviousLabelRight(p, InvokeMethod(sem, m).value)
  {
    hide CameFrom;
  }

  lemma AdvanceKeeps(p: Program, code: map<Label, seq<Stmt>>, sem: Semantics, m: Machine)
    requires WellShaped(p) && CodeOf(p, code) && PreviousLabelRight(p, m) && Advance(p, code, sem, m).Some?
    ensures PreviousLabelRight(p, Advance(p, code, sem, m).value)
  {
    if m.entered && m.frames != [] {
      var l := ExtractUserFunction(m.current);
      if l.RuntimeApi? || l.ClosureNew? {
        hide WellShaped, CodeOf;
        var top := m.frames[|m.frames| - 1];
        var v := if l.RuntimeApi? then sem.api(m.calls, l.api, top.args, m.heap).0 else Closure(l.fn, top.args);
        if top.resultPtr != Nowhere && Store(m.frames[..|m.frames| - 1], top.resultPtr, v).Some? {
          FramesKept(p, m.frames[..|m.frames| - 1], top.resultPtr, v);
        }
      } else if l.InterfaceInvoke? {
        hide WellShaped, CodeOf;
        InvokeKeeps(p, sem, m);
      } else {
        StmtKeeps(p, code, sem, m, l);
      }
    }
  }

  lemma {:induction false} RunKeeps(p: Program, code: map<Label, seq<Stmt>>, sem: Semantics, m: Machine, n: nat)
    requires WellShaped(p) && CodeOf(p, code) && PreviousLabelRight(p, m) && AdvanceBy(p, code, sem, m, n).Some?
    ensures PreviousLabelRight(p, AdvanceBy(p, code, sem, m, n).value)
    decreases n
  {
    hide Advance, PreviousLabelRight, WellShaped, CodeOf;
    if n > 0 {
      AdvanceKeeps(p, code, sem, m);
      RunKeeps(p, code, sem, Advance(p, code, sem, m).value, n - 1);
    }
  }

  /** A phi statement stands in a block function, at the place of its phi. */
  lemma SelectIsPhi(p: Program, code: map<Label, seq<Stmt>>, l: Label, offset: nat)
    requires Regular(p) && CodeOf(p, code) && l in code && offset < |code[l]| && code[l][offset].Select?
    ensures l.BlockStart? && IsDefined(p, l) && l.block != 0
    ensures offset < PhiCount(p[l.fn].blocks[l.block].instrs)
    ensures code[l][offset] == Translate(p, l.fn, l.block, offset)
  {
    BodyIndex(p, l.fn, l.block, StartOf(l), offset);
    var block, index := p[l.fn].blocks[l.block], StartOf(l) + offset;
    assert WellShapedInstr(block, index);
  }

  lemma RegularBlocks(p: Program)
    requires Regular(p)
    ensures WellShaped(p)
    ensures forall fn, b {:trigger p[fn].blocks[b]} | 0 <= fn < |p| && 0 <= b < |p[fn].blocks| ::
              Distinct(p[fn].blocks[b].preds)
  {
  }

  lemma PredecessorsListed(p: Program, fn: nat, b: nat)
    requires WellShaped(p) && fn < |p| && b < |p[fn].blocks|
    ensures forall pred | 0 <= pred < |p[fn].blocks| && b in p[fn].blocks[pred].succs :: pred in p[fn].blocks[b].preds
  {
    forall pred | 0 <= pred < |p[fn].blocks| && b in p[fn].blocks[pred].succs ensures pred in p[fn].blocks[b].preds {
      assert WellShapedBlock(p[fn], pred);
    }
  }

  /** In every reachable state that is about to run a phi, the if-chain finds the operand of the block
      control came from, whose last C function is what the trampoline recorded; no chain runs into
      its `assert(false)`. */
  lemma PhiFindsItsEdge(p: Program, code: map<Label, seq<Stmt>>, sem: Semantics, fn: nat, captured: seq<Value>,
                        args: seq<Value>, heap: Heap, stale: Registers, n: nat, m: Machine, l: Label)
    returns (pred: nat)
    requires Regular(p) && code == Link(PackageDefinitions(p, |p|))
    requires AdvanceBy(p, code, sem, Spawned(p, ObjectOf(fn, captured), args, heap, stale), n) == Some(m)
    requires m.current == Code(l) && l in code && m.offset < |code[l]| && code[l][m.offset].Select?
    ensures l.BlockStart? && IsDefined(p, l) && m.offset < |p[l.fn].blocks[l.block].instrs|
    ensures CameFromBlock(p, l.fn, l.block, m.prev, pred) && pred in p[l.fn].blocks[l.block].preds
    ensures var phi := p[l.fn].blocks[l.block].instrs[m.offset];
            var edge := IndexOf(p[l.fn].blocks[l.block].preds, pred);
            && phi.Phi? && edge < |phi.edges|
            && FirstMatch(code[l][m.offset].cases, m.prev) == Some(phi.edges[edge])
  {
    hide Link, PackageDefinitions, Advance, AdvanceBy, CodeOf, Regular, WellShaped, Translate, PhiCount, IndexOf;
    RegularBlocks(p);
    LinkedCode(p);
    RunKeeps(p, code, sem, Spawned(p, ObjectOf(fn, captured), args, heap, stale), n);
    SelectIsPhi(p, code, l, m.offset);
    PredecessorsListed(p, l.fn, l.block);
    pred :| CameFromBlock(p, l.fn, l.block, m.prev, pred);
    PhiPicksEdge(p, l.fn, l.block, m.offset, pred);
  }
}
