/** The runtime's own state for one goroutine, updated in place: frames in stack memory linked by their
    previous stack pointers, and a word of control flags. */
module LightWeightThread {
  import opened Options
  import opened Unwinding
  import Trampoline

  datatype StoredFrame = StoredFrame(frame: CallFrame, prev: nat)

  const PANICKING: bv8 := 4

  class LightWeightThreadContext {
    const memory: array<StoredFrame>
    var stackPointer: nat
    var controlFlags: bv8
    var panicData: Value
    /** Serial numbers only tell frames apart; the runtime has addresses instead. */
    var issued: nat
    ghost var frames: seq<CallFrame>
    ghost var recovered: Option<Value>
    ghost var log: seq<Occurrence>

    ghost predicate Valid()
      reads this, memory
    {
      && |frames| == stackPointer + 1 <= memory.Length
      && (forall i | 0 <= i <= stackPointer :: memory[i] == StoredFrame(frames[i], if i == 0 then 0 else i - 1))
    }

    /** The goroutine as a value, about to run `control`. */
    ghost function Model(control: Control): Goroutine
      reads this
    {
      Goroutine(frames, control, controlFlags & PANICKING != 0, panicData, recovered, issued, log)
    }

    constructor (stack: array<StoredFrame>, func: FunctionObject, args: seq<Value>, data: Value)
      requires stack.Length > 0
      modifies stack
      ensures Valid() && memory == stack && controlFlags == 0
      ensures Model(Entering(func)) == Launched(func, args).(panicData := data)
    {
      memory := stack;
      stackPointer := 0;
      controlFlags := 0;
      panicData := data;
      var first := CallFrame(0, Some(func), args, Terminating, None, []);
      frames, recovered, issued, log := [first], None, 1, [];
      new;
      memory[0] := StoredFrame(first, 0);
    }

    method IsStackEmpty() returns (empty: bool)
      requires Valid()
      ensures empty <==> |frames| == 1
    {
      empty := stackPointer == 0;
    }

    method IsPanicking() returns (panicking: bool)
      ensures panicking == Model(Raising).panicking
    {
      panicking := controlFlags & PANICKING != 0;
    }

    method EnterPanic(data: Value)
      modifies `controlFlags, `panicData
      ensures controlFlags == old(controlFlags) | PANICKING && controlFlags & PANICKING != 0 && panicData == data
    {
      controlFlags := controlFlags | PANICKING;
      panicData := data;
    }

    method ExitPanic() returns (data: Value)
      requires Model(Raising).panicking
      modifies `controlFlags
      ensures controlFlags == old(controlFlags) & !PANICKING && controlFlags & PANICKING == 0 && data == panicData
    {
      controlFlags := controlFlags & !PANICKING;
      data := panicData;
    }

    /** Pushes a frame; its free variables and its deferred calls start empty. */
    method PushFrame(func: Option<FunctionObject>, args: seq<Value>, resume: Resume)
      requires Valid() && |frames| < memory.Length
      modifies this`stackPointer, this`frames, this`issued, memory
      ensures Valid() && forall c :: Model(c) == Push(old(Model(c)), func, args, resume)
    {
      var frame := CallFrame(issued, func, args, resume, None, []);
      var prev := stackPointer;
      stackPointer := stackPointer + 1;
      memory[stackPointer] := StoredFrame(frame, prev);
      frames, issued := frames + [frame], issued + 1;
    }

    method PopFrame() returns (resume: Resume)
      requires Valid()
      modifies this`stackPointer, this`frames
      ensures Valid() && resume == old(Top(Model(Raising))).resume
      ensures frames == Popped(old(Model(Raising)))
    {
      resume := memory[stackPointer].frame.resume;
      frames := if |frames| > 1 then frames[..|frames| - 1] else frames;
      stackPointer := memory[stackPointer].prev;
    }
  
    /** Takes the top entry of a frame's deferred calls. */
    method PopDeferred(index: nat) returns (entry: Option<Deferred>)
      requires Valid() && index < |frames|
      modifies this`frames, memory
      ensures Valid() && entry == (if old(frames)[index].defers == [] then None else Some(old(frames)[index].defers[0]))
      ensures frames
              == if entry.None? then old(frames)
                 else old(frames)[index := old(frames)[index].(defers := old(frames)[index].defers[1..])]
    {
      var stored := memory[index];
      if stored.frame.defers == [] {
        return None;
      }
      entry := Some(stored.frame.defers[0]);
      var frame := stored.frame.(defers := stored.frame.defers[1..]);
      memory[index] := StoredFrame(frame, stored.prev);
      frames := frames[index := frame];
    }

    /** Calls a deferred function on top of the frame that runs the loop. */
    method CallEntry(owner: nat, entry: Deferred, resume: Resume) returns (next: Control)
      requires Valid() && |frames| < memory.Length && owner < |frames|
      modifies this`stackPointer, this`frames, this`issued, this`log, memory
      ensures Valid() && next == Entering(entry.func)
      ensures forall c ::
                Model(c) == Push(old(Model(c)), Some(entry.func), entry.args, resume)
                            .(log := old(log) + [Called(old(frames)[owner].serial, entry)])
    {
      ghost var serial := frames[owner].serial;
      PushFrame(Some(entry.func), entry.args, resume);
      log := log + [Called(serial, entry)];
      next := Entering(entry.func);
    }

    /** `panic_raise_body`: one round of unwinding. The process exits when it returns `Exited`. */
    method PanicRaiseBody() returns (next: Control)
      requires Valid() && |frames| < memory.Length && Inv(Model(Raising))
      modifies this, memory
      ensures Valid() && Model(next) == RaiseRound(old(Model(Raising)))
    {
      ghost var before := Model(Raising);
      var owner := memory[stackPointer].prev;
      assert owner == Below(before);
      var entry := PopDeferred(owner);
      if entry.Some? {
        next := CallEntry(owner, entry.value, PanicBody);
      } else {
        var _ := PopFrame();
        var panicking := IsPanicking();
        if panicking {
          var empty := IsStackEmpty();
          if empty {
            var data := ExitPanic();
            next := Exited(data);
          } else {
            next := Raising;
          }
        } else {
          var resume := PopFrame();
          next := Resuming(resume);
        }
      }
    }

    /** `gox5_defer_execute`: one round of running the deferred calls of the caller. */
    method DeferExecute() returns (next: Control)
      requires Valid() && |frames| < memory.Length && Inv(Model(Executing))
      modifies this, memory
      ensures Valid() && Model(next) == ExecuteRound(old(Model(Executing)))
    {
      ghost var before := Model(Executing);
      var owner := memory[stackPointer].prev;
      assert owner == Below(before);
      var entry := PopDeferred(owner);
      if entry.Some? {
        next := CallEntry(owner, entry.value, ExecuteDefers);
      } else {
        var resume := PopFrame();
        next := Resuming(resume);
      }
    }

    /** `gox5_panic_raise`, called by user code at label `at`. */
    method PanicRaise(ghost at: Label, value: Value) returns (next: Control)
      requires Valid() && |frames| < memory.Length
      modifies this, memory
      ensures Valid() && Step(old(Model(UserCode(at))), Panic(value)) == Some(Model(next))
    {
      PushFrame(None, [value], Nowhere);
      EnterPanic(value);
      next := Raising;
    }

    /** `gox5_panic_recover`, called by user code: the panic's value, or nil when there is no panic. */
    method PanicRecover(ghost at: Label, resume: Label) returns (next: Control, result: Option<Value>)
      requires Valid() && |frames| < memory.Length && IsHere(Model(UserCode(at)), resume)
      modifies this, memory
      ensures Valid() && Step(old(Model(UserCode(at))), Recover(resume)) == Some(Model(next).(issued := old(issued)))
      ensures result == recovered
      ensures result == if old(controlFlags) & PANICKING != 0 then Some(old(panicData)) else None
      ensures controlFlags & PANICKING == 0 && next == UserCode(resume)
    {
      PushFrame(None, [], Continuation(resume));
      var panicking := IsPanicking();
      if panicking {
        var data := ExitPanic();
        result := Some(data);
      } else {
        result := None;
      }
      recovered := result;
      var resumed := PopFrame();
      next := Resuming(resumed);
    }

    /** `gox5_defer_register`, called by user code: the entry goes on the caller's deferred calls. */
    method DeferRegister(ghost at: Label, entry: Deferred, resume: Label) returns (next: Control)
      requires Valid() && |frames| < memory.Length && IsFunction(entry.func) && IsHere(Model(UserCode(at)), resume)
      modifies this, memory
      ensures Valid() && Step(old(Model(UserCode(at))), Defer(entry, resume)) ==
                Some(Model(next).(issued := old(issued)))
      ensures next == UserCode(resume) && frames[|frames| - 1].defers == [entry] + old(frames[|frames| - 1].defers)
    {
      PushFrame(None, entry.args, Continuation(resume));
      assert frames == Model(UserCode(at)).frames == old(frames) + [frames[stackPointer]];
      var owner := memory[stackPointer].prev;
      var stored := memory[owner];
      var frame := stored.frame.(defers := [entry] + stored.frame.defers);
      memory[owner] := StoredFrame(frame, stored.prev);
      frames := frames[owner := frame];
      log := log + [Registered(frame.serial, entry)];
      var resumed := PopFrame();
      assert frames == old(frames)[..owner] + [frame];
      next := Resuming(resumed);
    }

    /** `prepare_user_function`: a closure's captured block goes into the frame on top. */
    method PrepareUserFunction(func: FunctionObject) returns (next: Control)
      requires Valid()
      modifies this`frames, memory
      ensures Valid() && Model(next) == EnterFunction(old(Model(Entering(func))), func)
    {
      if func.Tagged? {
        var stored := memory[stackPointer];
        var frame := stored.frame.(freeVars := Some(func.captured));
        memory[stackPointer] := StoredFrame(frame, stored.prev);
        frames := frames[..stackPointer] + [frame];
      }
      next := UserCode(Trampoline.ExtractUserFunction(func));
    }
  }
}
