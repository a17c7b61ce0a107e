/** Stack frames word by word: how a call writes the frame of its callee, and how a call through an
    interface turns its own frame into that of the method. */
module Frames {
  import opened Options

  type Word = int

  const NULL: Word := 0
  const HEADER_WORDS := 4
  const WORD_BYTES := 8

  /** The words of a callee's frame: resume function, previous stack pointer, free variables, deferred
      calls; then the result pointer if there is a result; then the parameters. */
  function FrameWords(resume: Word, prev: nat, result: Option<Word>, params: seq<Word>): (ws: seq<Word>)
    ensures |ws| == HEADER_WORDS + (if result.Some? then 1 else 0) + |params|
  {
    [resume, prev, NULL, NULL] + (if result.Some? then [result.value] else []) + params
  }

  /** The words of the frame of a call of `gox5_interface_invoke`. */
  function InvokeWords(resume: Word, prev: nat, result: Option<Word>, receiver: Word, name: Word,
                       args: seq<Word>): (ws: seq<Word>)
    ensures |ws| == HEADER_WORDS + 4 + |args|
  {
    [resume, prev, NULL, NULL] + [if result.Some? then result.value else NULL, receiver, name, |args|] + args
  }

  /** Memory `after` is `before` with `ws` written at `at`. */
  ghost predicate Wrote(before: seq<Word>, after: seq<Word>, at: nat, ws: seq<Word>) {
    && |after| == |before| && at + |ws| <= |before|
    && after[at..at + |ws|] == ws
    && forall k | 0 <= k < |before| && !(at <= k < at + |ws|) :: after[k] == before[k]
  }

  lemma WroteInTurn(m0: seq<Word>, m1: seq<Word>, m2: seq<Word>, at: nat, xs: seq<Word>, ys: seq<Word>)
    requires Wrote(m0, m1, at, xs) && Wrote(m1, m2, at + |xs|, ys)
    ensures Wrote(m0, m2, at, xs + ys)
  {
    forall k | at <= k < at + |xs| ensures m2[k] == xs[k - at] { assert m2[k] == m1[k] == m1[at..at + |xs|][k - at]; }
    forall k | at + |xs| <= k < at + |xs| + |ys| ensures m2[k] == ys[k - at - |xs|] {
      assert m2[k] == m2[at + |xs|..at + |xs| + |ys|][k - at - |xs|];
    }
    assert m2[at..at + |xs + ys|] == xs + ys;
  }

  lemma FrameInTurn(m0: seq<Word>, m1: seq<Word>, m2: seq<Word>, at: nat, resume: Word, prev: nat, result: Option<Word>,
                    params: seq<Word>)
    requires Wrote(m0, m1, at, [resume, prev, NULL, NULL])
    requires Wrote(m1, m2, at + HEADER_WORDS, (if result.Some? then [result.value] else []) + params)
    ensures Wrote(m0, m2, at, FrameWords(resume, prev, result, params))
  {
    var slot := if result.Some? then [result.value] else [];
    WroteInTurn(m0, m1, m2, at, [resume, prev, NULL, NULL], slot + params);
    assert [resume, prev, NULL, NULL] + (slot + params) == FrameWords(resume, prev, result, params);
  }

  /** Writing a longer stretch first makes no difference below the end of what is written last. */
  lemma OverwrittenAgrees(m0: seq<Word>, m1: seq<Word>, m2: seq<Word>, direct: seq<Word>, at: nat, first: seq<Word>,
                          last: seq<Word>)
    requires Wrote(m0, m1, at, first) && Wrote(m1, m2, at, last) && Wrote(m0, direct, at, last)
    ensures m2[..at + |last|] == direct[..at + |last|]
  {
    forall k | 0 <= k < at + |last| ensures m2[k] == direct[k] {
      if k >= at { assert m2[at..at + |last|][k - at] == direct[at..at + |last|][k - at]; }
    }
  }

  /** Where the fields of a frame are that was written at `at`: the parameters follow the result pointer,
      if there is one, and else the header. */
  ghost predicate HasFrame(mem: seq<Word>, at: nat, resume: Word, prev: nat, result: Option<Word>, params: seq<Word>) {
    var first := if result.Some? then 5 else 4;
    && at + first + |params| <= |mem|
    && mem[at] == resume && mem[at + 1] == prev && mem[at + 2] == 0 && mem[at + 3] == 0
    && (result.Some? ==> mem[at + 4] == result.value)
    && forall i | 0 <= i < |params| :: mem[at + first + i] == params[i]
  }

  lemma FrameLaidOut(mem: seq<Word>, at: nat, resume: Word, prev: nat, result: Option<Word>, params: seq<Word>)
    requires var words := FrameWords(resume, prev, result, params);
             at + |words| <= |mem| && mem[at..at + |words|] == words
    ensures HasFrame(mem, at, resume, prev, result, params)
  {
    var words := FrameWords(resume, prev, result, params);
    var first := if result.Some? then 5 else 4;
    var slice := mem[at..at + |words|];
    assert forall k | 0 <= k < |words| :: slice[k] == mem[at + k];
    assert forall i | 0 <= i < |params| :: words[first + i] == params[i];
  }

  /** The frame of a call of `gox5_interface_invoke`: the result pointer is NULL if there is no result, and
      the arguments follow their count. */
  ghost predicate HasInvokeFrame(mem: seq<Word>, at: nat, resume: Word, prev: nat, result: Option<Word>,
                                 receiver: Word, name: Word, args: seq<Word>) {
    && at + 8 + |args| <= |mem|
    && mem[at] == resume && mem[at + 1] == prev && mem[at + 2] == 0 && mem[at + 3] == 0
    && mem[at + 4] == (if result.Some? then result.value else 0)
    && mem[at + 5] == receiver && mem[at + 6] == name && mem[at + 7] == |args|
    && forall i | 0 <= i < |args| :: mem[at + 8 + i] == args[i]
  }

  lemma InvokeLaidOut(mem: seq<Word>, at: nat, resume: Word, prev: nat, result: Option<Word>, receiver: Word,
                      name: Word, args: seq<Word>)
    requires var words := InvokeWords(resume, prev, result, receiver, name, args);
             at + |words| <= |mem| && mem[at..at + |words|] == words
    ensures HasInvokeFrame(mem, at, resume, prev, result, receiver, name, args)
  {
    var words := InvokeWords(resume, prev, result, receiver, name, args);
    var slice := mem[at..at + |words|];
    assert forall k | 0 <= k < |words| :: slice[k] == mem[at + k];
    assert forall i | 0 <= i < |args| :: words[8 + i] == args[i];
  }

  lemma InvokeIs(resume: Word, prev: nat, result: Option<Word>, receiver: Word, name: Word, args: seq<Word>)
    ensures InvokeWords(resume, prev, result, receiver, name, args)
            == [resume, prev, NULL, NULL] + [if result.Some? then result.value else NULL, receiver, name, |args|] + args
  {
  }

  lemma WroteSlice(before: seq<Word>, after: seq<Word>, at: nat, ws: seq<Word>)
    requires Wrote(before, after, at, ws)
    ensures at + |ws| <= |after| && after[at..at + |ws|] == ws
  {
  }

  lemma ArgumentsFollow(mem: seq<Word>, at: nat, resume: Word, prev: nat, result: Option<Word>, receiver: Word,
                        name: Word, args: seq<Word>)
    requires HasInvokeFrame(mem, at, resume, prev, result, receiver, name, args)
    ensures at + 8 + |args| <= |mem| && mem[at + 8..at + 8 + |args|] == args
    ensures mem[at] == resume && mem[at + 1] == prev && mem[at + 4] == (if result.Some? then result.value else NULL)
    ensures mem[at + 5] == receiver && mem[at + 6] == name && mem[at + 7] == |args|
  {
  }

  /** One entry of a type's interface table. */
  datatype Method = Method(name: Word, func: Word)

  ghost predicate FirstNamed(table: seq<Method>, name: Word, i: int) {
    0 <= i < |table| && table[i].name == name && forall j | 0 <= j < i :: table[j].name != name
  }

  /** The first method of that name, if any. */
  method Search(table: seq<Method>, name: Word) returns (func: Option<Word>)
    ensures func.Some? ==> exists i :: FirstNamed(table, name, i) && func == Some(table[i].func)
    ensures func.None? ==> forall i | 0 <= i < |table| :: table[i].name != name
  {
    for i := 0 to |table|
      invariant forall j | 0 <= j < i :: table[j].name != name
    {
      if table[i].name == name {
        assert FirstNamed(table, name, i);
        return Some(table[i].func);
      }
    }
    return None;
  }

  class Stack {
    const memory: array<Word>
    var stackPointer: nat

    ghost predicate Valid()
      reads this
    {
      stackPointer + HEADER_WORDS <= memory.Length
    }

    constructor (size: nat)
      requires HEADER_WORDS <= size
      ensures Valid() && fresh(memory) && memory.Length == size && stackPointer == 0
    {
      memory := new Word[size](_ => NULL);
      stackPointer := 0;
    }

    /** Copies words into memory, in order. */
    method CopyIn(at: nat, ws: seq<Word>)
      requires at + |ws| <= memory.Length
      modifies memory
      ensures Wrote(old(memory[..]), memory[..], at, ws)
    {
      for i := 0 to |ws|
        invariant forall k | 0 <= k < memory.Length ::
                    memory[k] == if at <= k < at + i then ws[k - at] else old(memory[k])
      {
        memory[at + i] := ws[i];
      }
    }

    /** `grow_stack`: the size in bytes is rounded up to whole words. */
    method GrowStack(bytes: nat)
      modifies `stackPointer
      ensures (stackPointer - old(stackPointer)) * WORD_BYTES >= bytes
      ensures (stackPointer - old(stackPointer)) * WORD_BYTES < bytes + WORD_BYTES
    {
      stackPointer := stackPointer + (bytes + WORD_BYTES - 1) / WORD_BYTES;
    }

    /** `pop_frame`: the caller's frame is on top again. */
    method PopFrame() returns (resume: Word)
      requires Valid() && 0 <= memory[stackPointer + 1]
      modifies `stackPointer
      ensures resume == old(memory[stackPointer]) && stackPointer == old(memory[stackPointer + 1])
    {
      resume := memory[stackPointer];
      stackPointer := memory[stackPointer + 1];
    }

    /** The common header: cleared, then the two fields that are not NULL. */
    method WriteHeader(at: nat, resume: Word, prev: nat)
      requires at + HEADER_WORDS <= memory.Length
      modifies memory
      ensures Wrote(old(memory[..]), memory[..], at, [resume, prev, NULL, NULL])
    {
      memory[at], memory[at + 1], memory[at + 2], memory[at + 3] := NULL, NULL, NULL, NULL;
      memory[at] := resume;
      memory[at + 1] := prev;
      assert memory[at..at + 4] == [resume, prev, NULL, NULL];
    }

    /** The result pointer, if there is a result, and then the parameters. */
    method WriteSignature(at: nat, result: Option<Word>, params: seq<Word>)
      requires at + 1 + |params| <= memory.Length
      modifies memory
      ensures Wrote(old(memory[..]), memory[..], at, (if result.Some? then [result.value] else []) + params)
    {
      var offset := 0;
      if result.Some? {
        memory[at] := result.value;
        offset := 1;
      }
      ghost var slot := if result.Some? then [result.value] else [];
      ghost var mid := memory[..];
      assert mid[at..at + |slot|] == slot;
      CopyIn(at + offset, params);
      WroteInTurn(old(memory[..]), mid, memory[..], at, slot, params);
    }

    /** `push_frame`: writes a frame where the stack pointer stands. */
    method PushFrame(prev: nat, result: Option<Word>, args: seq<Word>, resume: Word)
      requires stackPointer + HEADER_WORDS + 1 + |args| <= memory.Length
      modifies memory
      ensures Wrote(old(memory[..]), memory[..], stackPointer, FrameWords(resume, prev, result, args))
      ensures HasFrame(memory[..], stackPointer, resume, prev, result, args)
    {
      WriteHeader(stackPointer, resume, prev);
      ghost var mid := memory[..];
      WriteSignature(stackPointer + HEADER_WORDS, result, args);
      FrameInTurn(old(memory[..]), mid, memory[..], stackPointer, resume, prev, result, args);
      FrameLaidOut(memory[..], stackPointer, resume, prev, result, args);
    }

    /** The call sequence emitted for a direct call: the callee's frame goes behind the caller's, whose
        size is `frameWords`. Returns the function to run. */
    method SwitchFunction(frameWords: nat, callee: Word, result: Option<Word>, params: seq<Word>, resume: Word)
      returns (next: Word)
      requires stackPointer + frameWords + HEADER_WORDS + 1 + |params| <= memory.Length
      modifies this`stackPointer, memory
      ensures next == callee && stackPointer == old(stackPointer) + frameWords
      ensures Wrote(old(memory[..]), memory[..], stackPointer, FrameWords(resume, old(stackPointer), result, params))
      ensures HasFrame(memory[..], stackPointer, resume, old(stackPointer), result, params)
    {
      var at := stackPointer + frameWords;
      WriteHeader(at, resume, stackPointer);
      ghost var mid := memory[..];
      WriteSignature(at + HEADER_WORDS, result, params);
      FrameInTurn(old(memory[..]), mid, memory[..], at, resume, stackPointer, result, params);
      FrameLaidOut(memory[..], at, resume, stackPointer, result, params);
      stackPointer := at;
      next := callee;
    }

    /** The fields of the frame of `gox5_interface_invoke` before its arguments. */
    method WriteInvokeFields(at: nat, pointer: Word, receiver: Word, name: Word, count: nat)
      requires at + 4 <= memory.Length
      modifies memory
      ensures Wrote(old(memory[..]), memory[..], at, [pointer, receiver, name, count])
    {
      memory[at], memory[at + 1], memory[at + 2], memory[at + 3] := pointer, receiver, name, count;
      assert memory[at..at + 4] == [pointer, receiver, name, count];
    }

    /** The call sequence emitted for a call through an interface: the frame of `gox5_interface_invoke`. */
    method SwitchToInvoke(frameWords: nat, result: Option<Word>, receiver: Word, name: Word,
                          args: seq<Word>, resume: Word)
      requires stackPointer + frameWords + HEADER_WORDS + 4 + |args| <= memory.Length
      modifies this`stackPointer, memory
      ensures stackPointer == old(stackPointer) + frameWords
      ensures Wrote(old(memory[..]), memory[..], stackPointer,
                    InvokeWords(resume, old(stackPointer), result, receiver, name, args))
      ensures HasInvokeFrame(memory[..], stackPointer, resume, old(stackPointer), result, receiver, name, args)
    {
      hide InvokeWords, HasInvokeFrame, Wrote;
      var at := stackPointer + frameWords;
      var pointer := if result.Some? then result.value else NULL;
      WriteHeader(at, resume, stackPointer);
      ghost var m1 := memory[..];
      WriteInvokeFields(at + HEADER_WORDS, pointer, receiver, name, |args|);
      ghost var m2 := memory[..];
      ghost var header, fields := [resume, stackPointer, NULL, NULL], [pointer, receiver, name, |args|];
      CopyIn(at + 8, args);
      WroteInTurn(old(memory[..]), m1, m2, at, header, fields);
      WroteInTurn(old(memory[..]), m2, memory[..], at, header + fields, args);
      InvokeIs(resume, stackPointer, result, receiver, name, args);
      WroteSlice(old(memory[..]), memory[..], at, header + fields + args);
      InvokeLaidOut(memory[..], at, resume, stackPointer, result, receiver, name, args);
      stackPointer := at;
    }

    /** `WordChunk::duplicate`: copies the argument words out of the frame before it is overwritten. */
    method DuplicateArgs(at: nat, count: nat) returns (args: seq<Word>)
      requires at + count <= memory.Length
      ensures args == memory[at..at + count]
    {
      args := [];
      for i := 0 to count
        invariant args == memory[at..at + i]
      {
        args := args + [memory[at + i]];
      }
    }

    /** `gox5_interface_invoke`: searches in the interface that its frame names, and replaces that frame with
        the frame of the method. `tables` has the method table of the value in an interface. */
    method InterfaceInvoke(tables: Word -> seq<Method>, ghost resume: Word, ghost prev: nat, ghost result: Option<Word>,
                           ghost receiver: Word, ghost name: Word, ghost args: seq<Word>)
      returns (next: Option<Word>)
      requires result != Some(NULL) && prev <= stackPointer
      requires var words := InvokeWords(resume, prev, result, receiver, name, args);
               stackPointer + |words| <= memory.Length && memory[stackPointer..stackPointer + |words|] == words
      modifies this`stackPointer, memory
      ensures next.None? <==> forall m | m in tables(receiver) :: m.name != name
      ensures next.Some? ==>
                && stackPointer == old(stackPointer)
                && (exists i :: FirstNamed(tables(receiver), name, i) && next == Some(tables(receiver)[i].func))
                && Wrote(old(memory[..]), memory[..], stackPointer, FrameWords(resume, prev, result, args))
                && HasFrame(memory[..], stackPointer, resume, prev, result, args)
    {
      hide InvokeWords, FrameWords, HasInvokeFrame, HasFrame, Wrote;
      InvokeLaidOut(memory[..], stackPointer, resume, prev, result, receiver, name, args);
      ArgumentsFollow(memory[..], stackPointer, resume, prev, result, receiver, name, args);
      assert memory[stackPointer + 8..stackPointer + 8 + |args|] == args;
      next := Search(tables(memory[stackPointer + 5]), memory[stackPointer + 6]);
      if next.None? {
        return;
      }
      var copied := DuplicateArgs(stackPointer + 8, memory[stackPointer + 7]);
      var resultPointer := if memory[stackPointer + 4] != NULL then Some(memory[stackPointer + 4]) else None;
      var current := stackPointer;
      var resumeFunc := PopFrame();
      var prevStackPointer := stackPointer;
      GrowStack((current - prevStackPointer) * WORD_BYTES);
      PushFrame(prevStackPointer, resultPointer, copied, resumeFunc);
    }

    /** A call through an interface builds exactly the frame that a direct call of the method would: same
        function, same stack pointer, and the same memory up to the end of that frame. `direct` is any
        memory that `SwitchFunction` could have left. */
    method CallThroughInterface(frameWords: nat, result: Option<Word>, receiver: Word, data: Word, name: Word,
                                params: seq<Word>, resume: Word, tables: Word -> seq<Method>,
                                ghost direct: seq<Word>)
      returns (next: Option<Word>)
      requires stackPointer + frameWords + HEADER_WORDS + 5 + |params| <= memory.Length
      requires result != Some(NULL)
      requires Wrote(memory[..], direct, stackPointer + frameWords,
                     FrameWords(resume, stackPointer, result, [data] + params))
      modifies this`stackPointer, memory
      ensures next.None? <==> forall m | m in tables(receiver) :: m.name != name
      ensures next.Some? ==>
                && (exists i :: FirstNamed(tables(receiver), name, i) && next == Some(tables(receiver)[i].func))
                && stackPointer == old(stackPointer) + frameWords
                && HasFrame(memory[..], stackPointer, resume, old(stackPointer), result, [data] + params)
                && var end := stackPointer + |FrameWords(resume, old(stackPointer), result, [data] + params)|;
                   memory[..end] == direct[..end]
    {
      ghost var m0, prev := memory[..], stackPointer;
      ghost var first := InvokeWords(resume, prev, result, receiver, name, [data] + params);
      SwitchToInvoke(frameWords, result, receiver, name, [data] + params, resume);
      ghost var m1 := memory[..];
      assert m1[stackPointer..stackPointer + |first|] == memory[stackPointer..stackPointer + |first|];
      next := InterfaceInvoke(tables, resume, prev, result, receiver, name, [data] + params);
      if next.Some? {
        OverwrittenAgrees(m0, m1, memory[..], direct, stackPointer,
                          first, FrameWords(resume, prev, result, [data] + params));
      }
    }
  }
}
