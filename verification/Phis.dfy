/** Phis are emitted as assignments that run one after the other. This module says exactly when that
    gives them the meaning they have in SSA form. */
module Phis {
  import opened Options
  import opened Ssa

  /** The emitted reading: every phi sees the results of the phis before it. */
  function SequentialPhis(instrs: seq<Instr>, n: nat, edge: nat,
                          params: seq<Value>, captured: seq<Value>, regs: Registers): Option<Registers>
    requires n <= |instrs| && forall i | 0 <= i < n :: instrs[i].Phi? && edge < |instrs[i].edges|
  {
    if n == 0 then Some(regs)
    else
      match SequentialPhis(instrs, n - 1, edge, params, captured, regs)
      case None => None
      case Some(before) =>
        match Eval(instrs[n - 1].edges[edge], params, captured, before)
        case None => None
        case Some(v) => Some(before[instrs[n - 1].dst := v])
  }

  ghost predicate ArePhis(instrs: seq<Instr>, n: nat, edge: nat) {
    && n <= |instrs|
    && (forall i | 0 <= i < n :: instrs[i].Phi? && edge < |instrs[i].edges|)
    && (forall i, j | 0 <= i < j < n :: instrs[i].dst != instrs[j].dst)
  }

  lemma {:induction false} ParallelAt(instrs: seq<Instr>, n: nat, edge: nat,
                                      params: seq<Value>, captured: seq<Value>, regs: Registers, i: nat)
    requires ArePhis(instrs, n, edge) && i < n
    requires ParallelPhis(instrs, n, edge, params, captured, regs).Some?
    ensures instrs[i].dst in ParallelPhis(instrs, n, edge, params, captured, regs).value
    ensures Eval(instrs[i].edges[edge], params, captured, regs)
         == Some(ParallelPhis(instrs, n, edge, params, captured, regs).value[instrs[i].dst])
  {
    if i < n - 1 { ParallelAt(instrs, n - 1, edge, params, captured, regs, i); }
  }

  lemma {:induction false} ParallelElsewhere(instrs: seq<Instr>, n: nat, edge: nat,
                                             params: seq<Value>, captured: seq<Value>, regs: Registers, r: nat)
    requires ArePhis(instrs, n, edge) && forall i | 0 <= i < n :: instrs[i].dst != r
    requires ParallelPhis(instrs, n, edge, params, captured, regs).Some?
    ensures var after := ParallelPhis(instrs, n, edge, params, captured, regs).value;
            (r in after <==> r in regs) && (r in regs ==> after[r] == regs[r])
  {
    if n > 0 { ParallelElsewhere(instrs, n - 1, edge, params, captured, regs, r); }
  }

  /** One direction, and the one the translation needs: without stale reads the readings agree,
      wherever the parallel one is defined. */
  lemma {:induction false} SequentialIsParallel(instrs: seq<Instr>, n: nat, edge: nat,
                                                params: seq<Value>, captured: seq<Value>, regs: Registers)
    requires ArePhis(instrs, n, edge) && NoStalePhiRead(instrs, n, edge)
    requires ParallelPhis(instrs, n, edge, params, captured, regs).Some?
    ensures SequentialPhis(instrs, n, edge, params, captured, regs)
         == ParallelPhis(instrs, n, edge, params, captured, regs)
  {
    if n > 0 {
      SequentialIsParallel(instrs, n - 1, edge, params, captured, regs);
      var o := instrs[n - 1].edges[edge];
      if o.Reg? {
        if i :| 0 <= i < n - 1 && instrs[i].dst == o.r {
          ParallelAt(instrs, n - 1, edge, params, captured, regs, i);
        } else {
          ParallelElsewhere(instrs, n - 1, edge, params, captured, regs, o.r);
        }
      }
    }
  }

  /** Registers that hold pairwise different values, none of which is a constant. */
  ghost function Marked(bound: nat): (regs: Registers)
    ensures forall r | 0 <= r < bound :: r in regs && regs[r] == Tuple([Int(r)])
  {
    map r: nat | 0 <= r < bound :: Tuple([Int(r)])
  }

  ghost function Bound(o: Operand): nat {
    if o.Reg? then o.r + 1 else if o.Param? || o.FreeVar? then o.i + 1 else 0
  }

  /** Larger than every register, parameter and free variable the first `n` phis mention. */
  ghost function Bounds(instrs: seq<Instr>, n: nat, edge: nat): (b: nat)
    requires ArePhis(instrs, n, edge)
    ensures forall i | 0 <= i < n :: instrs[i].dst < b && Bound(instrs[i].edges[edge]) <= b
  {
    if n == 0 then 0
    else
      var b := Bounds(instrs, n - 1, edge);
      var c := if b <= instrs[n - 1].dst then instrs[n - 1].dst + 1 else b;
      if c < Bound(instrs[n - 1].edges[edge]) then Bound(instrs[n - 1].edges[edge]) else c
  }

  lemma {:induction false} ParallelDefined(instrs: seq<Instr>, n: nat, edge: nat,
                                           params: seq<Value>, captured: seq<Value>, regs: Registers)
    requires ArePhis(instrs, n, edge)
    requires forall i | 0 <= i < n :: Eval(instrs[i].edges[edge], params, captured, regs).Some?
    ensures ParallelPhis(instrs, n, edge, params, captured, regs).Some?
  {
    if n > 0 { ParallelDefined(instrs, n - 1, edge, params, captured, regs); }
  }

  lemma {:induction false} SequentialKeeps(instrs: seq<Instr>, n: nat, i: nat, edge: nat,
                                           params: seq<Value>, captured: seq<Value>, regs: Registers)
    requires ArePhis(instrs, n, edge) && i < n
    requires SequentialPhis(instrs, n, edge, params, captured, regs).Some?
    ensures SequentialPhis(instrs, i + 1, edge, params, captured, regs).Some?
    ensures instrs[i].dst in SequentialPhis(instrs, n, edge, params, captured, regs).value
    ensures SequentialPhis(instrs, n, edge, params, captured, regs).value[instrs[i].dst]
         == SequentialPhis(instrs, i + 1, edge, params, captured, regs).value[instrs[i].dst]
  {
    if i + 1 < n { SequentialKeeps(instrs, n - 1, i, edge, params, captured, regs); }
  }

  lemma {:induction false} SequentialDefined(instrs: seq<Instr>, n: nat, edge: nat,
                                             params: seq<Value>, captured: seq<Value>, regs: Registers)
    requires ArePhis(instrs, n, edge)
    requires forall i | 0 <= i < n :: Eval(instrs[i].edges[edge], params, captured, regs).Some?
    ensures SequentialPhis(instrs, n, edge, params, captured, regs).Some?
    ensures regs.Keys <= SequentialPhis(instrs, n, edge, params, captured, regs).value.Keys
  {
    if n > 0 { SequentialDefined(instrs, n - 1, edge, params, captured, regs); }
  }

  /** Phi `j`, the first with a stale read, gets another value in the emitted reading. */
  lemma StaleValue(instrs: seq<Instr>, n: nat, edge: nat, i: nat, j: nat, params: seq<Value>, captured: seq<Value>,
                   regs: Registers)
    requires ArePhis(instrs, n, edge) && i < j < n && NoStalePhiRead(instrs, j, edge)
    requires instrs[j].edges[edge] == Reg(instrs[i].dst) && instrs[i].edges[edge] != Reg(instrs[i].dst)
    requires ParallelPhis(instrs, n, edge, params, captured, regs).Some?
             && ParallelPhis(instrs, j, edge, params, captured, regs).Some?
    requires SequentialPhis(instrs, n, edge, params, captured, regs).Some?
    requires Eval(instrs[i].edges[edge], params, captured, regs) != Eval(Reg(instrs[i].dst), params, captured, regs)
    ensures var par := ParallelPhis(instrs, n, edge, params, captured, regs).value;
            var sqn := SequentialPhis(instrs, n, edge, params, captured, regs).value;
            instrs[j].dst in par && instrs[j].dst in sqn && par[instrs[j].dst] != sqn[instrs[j].dst]
  {
    SequentialIsParallel(instrs, j, edge, params, captured, regs);
    ParallelAt(instrs, j, edge, params, captured, regs, i);
    ParallelAt(instrs, n, edge, params, captured, regs, j);
    SequentialKeeps(instrs, n, j, edge, params, captured, regs);
  }

  /** Every free variable the first `n` phis mention is one of `c`. */
  predicate InScope(instrs: seq<Instr>, n: nat, edge: nat, c: nat)
    requires n <= |instrs| && forall i | 0 <= i < n :: instrs[i].Phi? && edge < |instrs[i].edges|
  {
    forall i | 0 <= i < n :: instrs[i].edges[edge].FreeVar? ==> instrs[i].edges[edge].i < c
  }

  /** A stale read always shows: for some parameters, registers and `c` captured values, the two readings
      give some register different values. */
  lemma StaleReadShows(instrs: seq<Instr>, n: nat, edge: nat, c: nat)
    returns (params: seq<Value>, captured: seq<Value>, regs: Registers, r: nat)
    requires ArePhis(instrs, n, edge) && !NoStalePhiRead(instrs, n, edge) && InScope(instrs, n, edge, c)
    ensures |captured| == c
    ensures ParallelPhis(instrs, n, edge, params, captured, regs).Some?
            && SequentialPhis(instrs, n, edge, params, captured, regs).Some?
    ensures var par := ParallelPhis(instrs, n, edge, params, captured, regs).value;
            var sqn := SequentialPhis(instrs, n, edge, params, captured, regs).value;
            r in par && r in sqn && par[r] != sqn[r]
  {
    hide SequentialPhis, ParallelPhis, NoStalePhiRead, FirstStale, Bounds, Marked;
    var b := Bounds(instrs, n, edge);
    params, captured, regs := seq(b, _ => Int(0)), seq(c, _ => Int(0)), Marked(b);
    var j := FirstStale(instrs, n, edge);
    r := instrs[j].dst;
    var i :| 0 <= i < j && instrs[j].edges[edge] == Reg(instrs[i].dst) && instrs[i].edges[edge] != Reg(instrs[i].dst);
    forall k | 0 <= k < n ensures Eval(instrs[k].edges[edge], params, captured, regs).Some? {
      assert Bound(instrs[k].edges[edge]) <= b;
    }
    assert Eval(instrs[i].edges[edge], params, captured, regs) != Eval(Reg(instrs[i].dst), params, captured, regs);
    hide Eval, Bound;
    ParallelDefined(instrs, n, edge, params, captured, regs);
    ParallelDefined(instrs, j, edge, params, captured, regs);
    SequentialDefined(instrs, n, edge, params, captured, regs);
    StaleValue(instrs, n, edge, i, j, params, captured, regs);
  }

  /** The first phi that reads an earlier, changed one. */
  ghost function FirstStale(instrs: seq<Instr>, n: nat, edge: nat): (j: nat)
    requires ArePhis(instrs, n, edge) && !NoStalePhiRead(instrs, n, edge)
    ensures j < n && NoStalePhiRead(instrs, j, edge)
    ensures exists i | 0 <= i < j ::
              instrs[j].edges[edge] == Reg(instrs[i].dst) && instrs[i].edges[edge] != Reg(instrs[i].dst)
  {
    if NoStalePhiRead(instrs, n - 1, edge) then n - 1 else FirstStale(instrs, n - 1, edge)
  }

  /** The emitted phis mean what SSA phis mean, for every content of the frame, exactly when none of
      them reads a register that an earlier phi of the block has changed. */
  lemma SequentialPhisExact(instrs: seq<Instr>, n: nat, edge: nat)
    requires ArePhis(instrs, n, edge)
    ensures NoStalePhiRead(instrs, n, edge)
       <==> forall params, captured, regs ::
              ParallelPhis(instrs, n, edge, params, captured, regs).Some? ==>
                SequentialPhis(instrs, n, edge, params, captured, regs)
                == ParallelPhis(instrs, n, edge, params, captured, regs)
  {
    if NoStalePhiRead(instrs, n, edge) {
      forall params, captured, regs | ParallelPhis(instrs, n, edge, params, captured, regs).Some?
        ensures SequentialPhis(instrs, n, edge, params, captured, regs)
             == ParallelPhis(instrs, n, edge, params, captured, regs)
      {
        SequentialIsParallel(instrs, n, edge, params, captured, regs);
      }
    } else {
      var params, captured, regs, r := StaleReadShows(instrs, n, edge, Bounds(instrs, n, edge));
    }
  }

  /** The loop `for { a, b = b, a }` has such phis: both variables end up with the same value. */
  lemma SwapIsLost(x: Value, y: Value)
    ensures var swap := [Phi(0, [Const(0), Reg(1)]), Phi(1, [Const(1), Reg(0)])];
            var regs := map[0 := x, 1 := y];
            && ParallelPhis(swap, 2, 1, [], [], regs) == Some(map[0 := y, 1 := x])
            && SequentialPhis(swap, 2, 1, [], [], regs) == Some(map[0 := y, 1 := y])
  {
    var swap := [Phi(0, [Const(0), Reg(1)]), Phi(1, [Const(1), Reg(0)])];
    var regs := map[0 := x, 1 := y];
    assert ParallelPhis(swap, 1, 1, [], [], regs) == Some(regs[0 := y]);
    assert SequentialPhis(swap, 1, 1, [], [], regs) == Some(regs[0 := y]);
    assert regs[0 := y][1 := x] == map[0 := y, 1 := x];
    assert regs[0 := y][1 := y] == map[0 := y, 1 := y];
  }
}
