/** Calls through an interface, when the method that is meant is not the one its name finds. */
module MethodCalls {
  import opened Options
  import opened MethodTables
  import opened Ssa
  import opened Emission
  import opened Trampoline
  import opened Validity
  import opened Simulation

  // ----- traces only grow

  lemma AdvanceGrows(p: Program, code: map<Label, seq<Stmt>>, sem: Semantics, m: Machine)
    requires Advance(p, code, sem, m).Some?
    ensures m.trace <= Advance(p, code, sem, m).value.trace
  {
  }

  lemma {:induction false} TraceGrows(p: Program, code: map<Label, seq<Stmt>>, sem: Semantics, m: Machine, n: nat)
    requires AdvanceBy(p, code, sem, m, n).Some?
    ensures m.trace <= AdvanceBy(p, code, sem, m, n).value.trace
    decreases n
  {
    hide Advance;
    if n > 0 {
      AdvanceGrows(p, code, sem, m);
      TraceGrows(p, code, sem, Advance(p, code, sem, m).value, n - 1);
    }
  }

  lemma StepGrows(p: Program, sem: Semantics, s: State)
    requires Step(p, sem, s).Some?
    ensures s.trace <= Step(p, sem, s).value.trace
  {
    hide EnterBlock, EvalAll, Eval;
  }

  lemma {:induction false} RunGrows(p: Program, sem: Semantics, s: State, k: nat)
    requires Run(p, sem, s, k).Some?
    ensures s.trace <= Run(p, sem, s, k).value.trace
    decreases k
  {
    hide Step;
    if k > 0 {
      StepGrows(p, sem, s);
      RunGrows(p, sem, Step(p, sem, s).value, k - 1);
    }
  }

  // ----- one call

  /** What the machine has done is not what the program is about to do, and never will be. */
  ghost predicate GoesAstray(p: Program, code: map<Label, seq<Stmt>>, sem: Semantics, m: Machine, trace: seq<Event>) {
    forall n | AdvanceBy(p, code, sem, m, n).Some? :: !(trace <= AdvanceBy(p, code, sem, m, n).value.trace)
  }

  lemma NotResolved(p: Program, s: State, typ: TypeInfo, receiver: Value, vs: seq<Value>)
    requires CallsMethod(p, s, typ, receiver, vs)
    ensures Resolved(p, s) <==> Resolves(typ, InstrsOf(p, Top(s))[Top(s).pc].id)
  {
  }

  /** What the runtime function does next, if the name does not find `fn`. */
  lemma FindsAnother(p: Program, code: map<Label, seq<Stmt>>, sem: Semantics, s: State, m: Machine, running: Machine,
                     typ: TypeInfo, receiver: Value, vs: seq<Value>, fn: nat)
    requires CallsMethod(p, s, typ, receiver, vs) && m.frames != []
    requires running.entered && running.current == Code(InterfaceInvoke)
    requires running.frames == m.frames + [InvokeFrame(p, s, m, typ, receiver, vs)]
    requires Search(Table(typ), InstrsOf(p, Top(s))[Top(s).pc].id.name) != Some(fn)
    ensures var next := Advance(p, code, sem, running);
            next.Some? ==>
              exists other :: other != fn && next.value.trace == running.trace + [Called(other, [receiver] + vs)]
  {
    hide Search, Table, Advance, Yield, EvalAll, Eval;
    var top, instr := InvokeFrame(p, s, m, typ, receiver, vs), InstrsOf(p, Top(s))[Top(s).pc];
    assert top.args == [Interface(typ, receiver), Int(instr.id.name)] + ([receiver] + vs);
    InvokeFinds(p, code, sem, running, m.frames, top, typ, instr.id.name, [receiver] + vs);
  }

  /** A machine that stops, or calls another function than `fn`, does not come to call `fn` there. */
  lemma AnotherIsCalled(p: Program, code: map<Label, seq<Stmt>>, sem: Semantics, m: Machine, running: Machine,
                        fn: nat, params: seq<Value>, rest: seq<Event>)
    requires AdvanceBy(p, code, sem, m, 2) == Some(running)
    requires var next := Advance(p, code, sem, running);
             next.Some? ==> exists other :: other != fn && next.value.trace == running.trace + [Called(other, params)]
    ensures GoesAstray(p, code, sem, m, running.trace + [Called(fn, params)] + rest)
  {
    hide Advance;
    var trace := running.trace + [Called(fn, params)] + rest;
    var here := |running.trace|;
    forall n: nat | AdvanceBy(p, code, sem, m, n).Some?
      ensures !(trace <= AdvanceBy(p, code, sem, m, n).value.trace)
    {
      var last := AdvanceBy(p, code, sem, m, n).value;
      if n <= 2 {
        AdvanceByCompose(p, code, sem, m, n, 2 - n);
        TraceGrows(p, code, sem, last, 2 - n);
      } else {
        AdvanceByCompose(p, code, sem, m, 2, n - 2);
        var next := Advance(p, code, sem, running).value;
        TraceGrows(p, code, sem, next, n - 3);
        assert last.trace[here] == next.trace[here];
        assert trace[here] == Called(fn, params);
      }
    }
  }

  /** When the name does not find the method, the machine stops, or calls another method. */
  lemma UnresolvedGoesAstray(p: Program, code: map<Label, seq<Stmt>>, sem: Semantics, s: State, m: Machine)
    requires WellShaped(p) && CodeOf(p, code) && Related(p, s, m) && s.stack != [] && ValidActivation(p, Top(s))
    requires Step(p, sem, s).Some? && !Resolved(p, s)
    ensures GoesAstray(p, code, sem, m, Step(p, sem, s).value.trace)
  {
    assert Top(s).pc < |InstrsOf(p, Top(s))| && InstrsOf(p, Top(s))[Top(s).pc].CallMethod?;
    var typ, receiver, vs, fn := MethodTaken(p, sem, s);
    NotResolved(p, s, typ, receiver, vs);
    SameTrace(p, s, m);
    hide CodeOf, WellShaped, ValidActivation, Related, Step, CallsMethod, GoesAstray, Resolved, Search, Table,
      AdvanceBy;
    var running := InvokeReached(p, code, sem, s, m, typ, receiver, vs);
    FindsAnother(p, code, sem, s, m, running, typ, receiver, vs, fn);
    AnotherIsCalled(p, code, sem, m, running, fn, [receiver] + vs, [Entered(fn, 0)]);
    assert s.trace + [Called(fn, [receiver] + vs), Entered(fn, 0)]
        == running.trace + [Called(fn, [receiver] + vs)] + [Entered(fn, 0)];
  }

  /** A call through an interface does what it is to do if and only if the name finds the method. */
  lemma CallMethodExact(p: Program, code: map<Label, seq<Stmt>>, sem: Semantics, s: State, m: Machine)
    requires WellFormed(p) && CodeOf(p, code) && ValidSemantics(p, sem)
    requires ValidState(p, s) && Related(p, s, m) && Step(p, sem, s).Some?
    ensures (exists n, m' :: Simulates(p, code, sem, m, Step(p, sem, s).value, n, m')) <==> Resolved(p, s)
  {
    TopIsValid(p, s);
    hide WellFormed, WellShaped, CodeOf, ValidSemantics, ValidState, ValidActivation, Step, Resolved, AdvanceBy;
    if Resolved(p, s) {
      var n, m' := StepSimulated(p, code, sem, s, m);
    } else {
      UnresolvedGoesAstray(p, code, sem, s, m);
      forall n, m' ensures !Simulates(p, code, sem, m, Step(p, sem, s).value, n, m') {
        if Simulates(p, code, sem, m, Step(p, sem, s).value, n, m') {
          SameTrace(p, Step(p, sem, s).value, m');
          assert false;
        }
      }
    }
  }

  lemma TopIsValid(p: Program, s: State)
    requires WellFormed(p) && ValidState(p, s)
    ensures WellShaped(p) && (s.stack != [] ==> ValidActivation(p, Top(s)))
  {
  }

  // ----- whole runs

  lemma {:induction false} RunSplits(p: Program, sem: Semantics, s: State, i: nat, j: nat)
    requires Run(p, sem, s, i).Some?
    ensures Run(p, sem, s, i + j) == Run(p, sem, Run(p, sem, s, i).value, j)
    decreases i
  {
    hide Step;
    if i > 0 {
      RunSplits(p, sem, Step(p, sem, s).value, i - 1, j);
    }
  }

  lemma {:induction false} FirstUnresolved(p: Program, sem: Semantics, s: State, k: nat) returns (i: nat)
    requires Run(p, sem, s, k).Some? && !AllResolved(p, sem, s, k)
    ensures i < k && AllResolved(p, sem, s, i) && Run(p, sem, s, i).Some?
    ensures !Resolved(p, Run(p, sem, s, i).value)
    decreases k
  {
    hide Step, Resolved;
    if !Resolved(p, s) {
      i := 0;
    } else {
      var j := FirstUnresolved(p, sem, Step(p, sem, s).value, k - 1);
      i := j + 1;
    }
  }

  lemma {:induction false} RunValid(p: Program, sem: Semantics, s: State, k: nat)
    requires WellFormed(p) && ValidSemantics(p, sem) && ValidState(p, s) && Run(p, sem, s, k).Some?
    ensures ValidState(p, Run(p, sem, s, k).value)
    decreases k
  {
    hide Step, WellFormed, ValidSemantics, ValidState;
    if k > 0 {
      StepValid(p, sem, s);
      RunValid(p, sem, Step(p, sem, s).value, k - 1);
    }
  }

  /** Once a method is not found, no state of the machine is related to a later one of the program. */
  lemma NeverRelated(p: Program, code: map<Label, seq<Stmt>>, sem: Semantics, start: Machine, j: nat, m: Machine,
                     s: State, i: nat, k: nat, n: nat, last: Machine)
    requires WellFormed(p) && CodeOf(p, code) && i < k
    requires AdvanceBy(p, code, sem, start, j) == Some(m) && AdvanceBy(p, code, sem, start, n) == Some(last)
    requires Run(p, sem, s, k).Some? && Run(p, sem, s, i).Some?
    requires var s' := Run(p, sem, s, i).value; Related(p, s', m) && ValidState(p, s') && !Resolved(p, s')
    ensures !Related(p, Run(p, sem, s, k).value, last)
  {
    hide Step, WellFormed, WellShaped, CodeOf, ValidState, ValidActivation, Resolved, Related, AdvanceBy;
    var here, end := Run(p, sem, s, i).value, Run(p, sem, s, k).value;
    TopIsValid(p, here);
    RunSplits(p, sem, s, i, k - i);
    var next := Step(p, sem, here).value;
    RunGrows(p, sem, next, k - i - 1);
    StackLeft(p, sem, here);
    UnresolvedGoesAstray(p, code, sem, here, m);
    NeverThere(p, code, sem, start, j, m, n, last, next.trace);
    if Related(p, end, last) { SameTrace(p, end, last); }
  }

  /** Nor has the machine been there before. */
  lemma NeverThere(p: Program, code: map<Label, seq<Stmt>>, sem: Semantics, start: Machine, j: nat, m: Machine,
                   n: nat, last: Machine, trace: seq<Event>)
    requires AdvanceBy(p, code, sem, start, j) == Some(m) && AdvanceBy(p, code, sem, start, n) == Some(last)
    requires GoesAstray(p, code, sem, m, trace)
    ensures !(trace <= last.trace)
  {
    hide Advance;
    if n <= j {
      AdvanceByCompose(p, code, sem, start, n, j - n);
      TraceGrows(p, code, sem, last, j - n);
      assert AdvanceBy(p, code, sem, m, 0) == Some(m);
    } else {
      AdvanceByCompose(p, code, sem, start, j, n - j);
    }
  }

  lemma StackLeft(p: Program, sem: Semantics, s: State)
    requires Step(p, sem, s).Some?
    ensures s.stack != []
  {
  }

  /** The translation of a well-formed program does what the program does for the first `k` steps if and
      only if every method called in them is found by its name. */
  lemma TranslationExact(p: Program, sem: Semantics, fn: nat, captured: seq<Value>, args: seq<Value>,
                         heap: Heap, stale: Registers, k: nat)
    requires WellFormed(p) && ValidSemantics(p, sem)
    requires ValidState(p, Initial(fn, captured, args, heap))
    requires Run(p, sem, Initial(fn, captured, args, heap), k).Some?
    ensures (exists n, m :: AdvanceBy(p, Link(PackageDefinitions(p, |p|)), sem,
                                      Spawned(p, ObjectOf(fn, captured), args, heap, stale), n) == Some(m)
                            && Related(p, Run(p, sem, Initial(fn, captured, args, heap), k).value, m))
            <==> AllResolved(p, sem, Initial(fn, captured, args, heap), k)
  {
    hide Advance, AdvanceBy, Step, Run, WellFormed, ValidSemantics, ValidState, CodeOf, Link, PackageDefinitions,
      Resolved, Related, Initial, Spawned;
    var s, start := Initial(fn, captured, args, heap), Spawned(p, ObjectOf(fn, captured), args, heap, stale);
    if AllResolved(p, sem, s, k) {
      var n, m := TranslationCorrect(p, sem, fn, captured, args, heap, stale, k);
    } else {
      var i := FirstUnresolved(p, sem, s, k);
      var j, m := TranslationCorrect(p, sem, fn, captured, args, heap, stale, i);
      TopIsValid(p, s);
      LinkedCode(p);
      RunValid(p, sem, s, i);
      var code := Link(PackageDefinitions(p, |p|));
      forall n, last | AdvanceBy(p, code, sem, start, n) == Some(last)
        ensures !Related(p, Run(p, sem, s, k).value, last)
      {
        NeverRelated(p, code, sem, start, j, m, s, i, k, n, last);
      }
    }
  }
}
