/** Where the promise about narrow outputs ends: the capture after a call stores all 64 bits of an
    output's register, whatever the evaluator has left outside the output's field. */
module NarrowOutputs {
  import opened Words
  import opened X86
  import opened Codegen
  import opened Operations
  import opened Simulation
  import opened Calls
  import opened ExpressionProof
  import opened Leftovers
  import opened Frames

  /** Two register contents agree outside the field of o. */
  predicate SameRest(o: Register, a: nat, b: nat) {
    forall at :: 0 <= at < 3 && Part(o.family, at) !in FieldParts(o) ==> Piece(a, at) == Piece(b, at)
  }

  lemma MergeExact(a: nat, b: nat, o: Register, v: nat)
    requires a < W && b < W && v < W && WellFormedRegister(o) && Narrow(o)
    ensures Merge(a, o, v) % W == Merge(b, o, v) % W <==> SameRest(o, a, b)
  {
    hide Merge, Piece, FieldParts;
    if SameRest(o, a, b) {
      MergeSame(a, b, o, v);
    } else {
      var at :| 0 <= at < 3 && Part(o.family, at) !in FieldParts(o) && Piece(a, at) != Piece(b, at);
      MergePieces(a, o, v, at);
      MergePieces(b, o, v, at);
      FitsWord(Merge(a, o, v));
      FitsWord(Merge(b, o, v));
    }
  }

  /** Register r at the call instruction, when the arguments are evaluated with before in r. */
  function Found(x: Context, g: nat, args: seq<Expr>, live: Live, r: nat, before: nat): nat
    requires |x.snap| == REGS && |live.regs| == REGS && g < |x.env.callees| && EvalAll(x.env, args, x.snap, x.vars, live).All?
  {
    BoundTo(x.env.callees[g].params, EvalAll(x.env, args, x.snap, x.vars, live).values, 0, r,
            LeftAll(x.env, args, x.snap, x.vars, live, r, before))
  }

  lemma CapturedNarrow(f: Callee, b: Behaviour, live: Live, event: Event, regs: seq<nat>, r: nat, o: Register)
    requires LiveOk(live) && |regs| == REGS && r < REGS && r != RSP && r != RBP && OutputOf(f.params, r) == Some(o) && Narrow(o)
    ensures Captured(f, b, live, event, regs).regs[r] == Merge(regs[r], o, Returned(b, r)) % W
    ensures LiveAfterCall(f, b, live, event).regs[r] == Merge(live.regs[r], o, Returned(b, r)) % W
  {
    hide Merge;
  }

  /** The code of a call runs up to the call instruction with Found in r, and captures from there. */
  lemma CallFrom(x: Context, g: nat, args: seq<Expr>, t: Ty, m: Machine, live: Live, r: nat) returns (result: Result, regs: seq<nat>)
    requires WellFormed(x, CallTo(g, args, t)) && Fits(x, CallTo(g, args, t), 0, 0) && CleanAll(x.env.callees, args, Whole(RAX))
    requires Running(Dirty(x, Whole(RAX)), m, live) && |x.snap| == REGS && |live.regs| == REGS && Ok(m) && Free(r)
    requires x.dirt == Whole(RAX) + WritesAll(x.env.callees, args) + BindParts(x.env.callees[g].params)
    requires EvalAll(x.env, args, x.snap, x.vars, live).All?
    ensures |regs| == REGS && regs[r] < W && regs[r] == Found(x, g, args, live, r, m.regs[r])
    ensures var f := x.env.callees[g];
            var results := EvalAll(x.env, args, x.snap, x.vars, live);
            var event := Event(g, ArgumentWords(f.params, results.values, 0));
            var b := x.env.call(g, event.args, results.live.trace);
            && LiveOk(results.live)
            && result == Done(Wrap(t, Returned(b, RAX)), Captured(f, b, results.live, event, regs))
            && Simulates(x, Code(x.env.callees, x.lay, CallTo(g, args, t), 0, 0), m, result, t, 0, 0)
  {
    hide WellFormed, EvalAll, CleanAll, Running, ArgumentCode, Run, Code, StackCode, BindCode, AtCall, BoundTo, LeftAll, FitsAll, WellFormedAll,
         BindParts, WritesAll, Whole, Captured, ArgumentWords, Stored, CalleeOk;
    CallFits(x, g, args, t, 0, 0);
    var params := x.env.callees[g].params;
    CalleeFits(x, x.env.callees[g]);
    RunningMore(Dirty(x, Whole(RAX)), x, m, live);
    ArgumentsSimulate(x, params, args, Whole(RAX), m, live, 0, 0, 0);
    ArgumentsLeave(x, params, args, Whole(RAX), m, live, 0, 0, 0, r);
    var results := EvalAll(x.env, args, x.snap, x.vars, live);
    var m2 := CapturedCall(x, g, args, t, m, live, results.values, results.live, 0, 0);
    var m1 := Run(x.env, ArgumentCode(x.env.callees, x.lay, params, args, 0, 0, 0), m);
    AtCallLeaves(x, x.env.callees[g], m1, results.live, results.values, 0, r);
    RunningFacts(x, m2, results.live);
    regs := m2.regs;
    var event := Event(g, ArgumentWords(params, results.values, 0));
    var b := x.env.call(g, event.args, results.live.trace);
    result := Done(Wrap(t, Returned(b, RAX)), Captured(x.env.callees[g], b, results.live, event, regs));
  }

  lemma CalleeFits(x: Context, f: Callee)
    requires CalleeOk(x, f)
    ensures |f.params| <= x.lay.perCall
    ensures forall r, o :: 0 <= r < REGS && OutputOf(f.params, r) == Some(o) ==> WellFormedRegister(o) && Free(r)
  {
    forall r, o | 0 <= r < REGS && OutputOf(f.params, r) == Some(o)
      ensures WellFormedRegister(o) && Free(r)
    {
      assert OutputOk(x, f, r);
    }
  }

  /** The emitted code of a call leaves a narrow output's register as the source has it. */
  ghost predicate KeepsRest(x: Context, m: Machine, e: Expr, r: nat)
    requires Ok(m) && |x.snap| == REGS && r < REGS
  {
    && Block(ExpressionCode(x.env.callees, x.lay, e))
    && Eval(x.env, e, x.snap, x.vars, Started(m)).Done?
    && Run(x.env, ExpressionCode(x.env.callees, x.lay, e), m).regs[r] == Eval(x.env, e, x.snap, x.vars, Started(m)).live.regs[r]
  }

  /** What the callee leaves in register r after a call of g with these arguments. */
  function Answer(x: Context, g: nat, args: seq<Expr>, live: Live, r: nat): (v: nat)
    requires |x.snap| == REGS && |live.regs| == REGS && g < |x.env.callees| && EvalAll(x.env, args, x.snap, x.vars, live).All?
    ensures v < W
  {
    var results := EvalAll(x.env, args, x.snap, x.vars, live);
    Returned(x.env.call(g, ArgumentWords(x.env.callees[g].params, results.values, 0), results.live.trace), r)
  }

  /** The restore hands over what the code of the call has left to keep. */
  lemma RestoredRegister(x: Context, xe: Context, e: Expr, result: Result, m: Machine, m1: Machine, r: nat)
    requires Ready(x, m) && xe == x.(dirt := xe.dirt) && Whole(RAX) <= xe.dirt && Ok(m) && Free(r) && result.Done?
    requires Block(SnapshotCode(x.lay, 0)) && m1 == Run(x.env, SnapshotCode(x.lay, 0), m) && SameAbove(xe, m.mem, m1.mem)
    requires Simulates(xe, Code(x.env.callees, x.lay, e, 0, 0), m1, result, TypeOf(e), 0, 0)
    ensures |result.live.regs| == REGS && Block(ExpressionCode(x.env.callees, x.lay, e))
    ensures Run(x.env, ExpressionCode(x.env.callees, x.lay, e), m).regs[r] == result.live.regs[r]
  {
    hide Code, SnapshotCode, RestoreCode, Run, ExpressionCode, Ready, SameAbove, Simulates, ContextOk, Whole;
    RestoreRuns(x, xe, e, result, m, m1);
    RunExpressionCode(x, e, m);
  }

  /** The evaluator starts from the snapshot, with every register as it was. */
  lemma SnapshotFor(x: Context, xe: Context, m: Machine, r: nat) returns (m1: Machine)
    requires Ready(x, m) && xe == x.(dirt := xe.dirt) && Whole(RAX) <= xe.dirt && Ok(m) && r < REGS
    ensures Ok(m1) && Block(SnapshotCode(x.lay, 0)) && m1 == Run(x.env, SnapshotCode(x.lay, 0), m) && m1.regs[r] == m.regs[r]
    ensures Running(Dirty(x, Whole(RAX)), m1, Started(m)) && SameAbove(xe, m.mem, m1.mem)
  {
    hide SnapshotCode, Run, Ready, SameAbove, Running, Whole;
    ReadyFacts(x, m, Whole(RAX));
    SnapshotStarts(Dirty(x, Whole(RAX)), m);
    m1 := Run(x.env, SnapshotCode(x.lay, 0), m);
    SnapshotRegister(x, m, r);
    SameAboveAt(Dirty(x, Whole(RAX)), xe, m.mem, m1.mem);
    RunningFacts(Dirty(x, Whole(RAX)), m1, Started(m));
  }

  /** The emitted code merges the output into what the register held at the call instruction, the
      source into what it has in the register then. */
  lemma NarrowOutputValues(x: Context, m: Machine, g: nat, args: seq<Expr>, t: Ty, r: nat, o: Register)
    requires Ready(x, m) && WellFormed(x, CallTo(g, args, t)) && Fits(x, CallTo(g, args, t), 0, 0)
    requires CleanAll(x.env.callees, args, Whole(RAX))
    requires r < REGS && OutputOf(x.env.callees[g].params, r) == Some(o) && Narrow(o)
    requires Ok(m) && |x.snap| == REGS && EvalAll(x.env, args, x.snap, x.vars, Started(m)).All?
    ensures var live := Started(m);
            var found, kept := Found(x, g, args, live, r, m.regs[r]), EvalAll(x.env, args, x.snap, x.vars, live).live.regs[r];
            var code, result := ExpressionCode(x.env.callees, x.lay, CallTo(g, args, t)), Eval(x.env, CallTo(g, args, t), x.snap, x.vars, live);
            && found < W && kept < W && Block(code) && result.Done?
            && Run(x.env, code, m).regs[r] == Merge(found, o, Answer(x, g, args, live, r)) % W
            && result.live.regs[r] == Merge(kept, o, Answer(x, g, args, live, r)) % W
  {
    hide Running, Simulates, Code, SnapshotCode, WellFormed, Run, ExpressionCode, Ready, SameAbove, EvalAll, Eval, BoundTo, LeftAll,
         Captured, LiveAfterCall, CleanAll, ArgumentWords, Merge, Wrap, WritesAll, Whole, BindParts, CalleeOk, Returned, Fits, FitsAll,
         WellFormedAll, WellFormedRegister, Narrow;
    CallFits(x, g, args, t, 0, 0);
    var e, f, live := CallTo(g, args, t), x.env.callees[g], Started(m);
    var xe := Dirty(x, Whole(RAX) + WritesAll(x.env.callees, args) + BindParts(f.params));
    CalleeFits(x, f);
    CallValue(x.env, g, args, t, x.snap, x.vars, live);
    var m1 := SnapshotFor(x, xe, m, r);
    SameTrees(x, xe, e);
    SameFit(x, xe, e, 0, 0);
    var result, regs := CallFrom(xe, g, args, t, m1, live, r);
    RestoredRegister(x, xe, e, result, m, m1, r);
    var results := EvalAll(x.env, args, x.snap, x.vars, live);
    var event := Event(g, ArgumentWords(f.params, results.values, 0));
    CapturedNarrow(f, x.env.call(g, event.args, results.live.trace), results.live, event, regs, r, o);
  }

  /** For every call, whatever its arguments: after the emitted code the register of a narrow output
      is as the source has it exactly when, outside the output's field, the register held at the
      call instruction what the source has in it then. */
  lemma NarrowOutputExact(x: Context, m: Machine, g: nat, args: seq<Expr>, t: Ty, r: nat, o: Register)
    requires Ready(x, m) && WellFormed(x, CallTo(g, args, t)) && Fits(x, CallTo(g, args, t), 0, 0)
    requires CleanAll(x.env.callees, args, Whole(RAX))
    requires r < REGS && OutputOf(x.env.callees[g].params, r) == Some(o) && Narrow(o)
    requires Ok(m) && |x.snap| == REGS && EvalAll(x.env, args, x.snap, x.vars, Started(m)).All?
    ensures KeepsRest(x, m, CallTo(g, args, t), r) <==>
            SameRest(o, Found(x, g, args, Started(m), r, m.regs[r]), EvalAll(x.env, args, x.snap, x.vars, Started(m)).live.regs[r])
  {
    hide WellFormed, Run, ExpressionCode, Ready, EvalAll, Eval, Found, SameRest, CleanAll, Merge, Whole, CalleeOk, Answer;
    CallFits(x, g, args, t, 0, 0);
    CalleeFits(x, x.env.callees[g]);
    OutputFamily(x.env.callees[g].params, r);
    NarrowOutputValues(x, m, g, args, t, r, o);
    MergeExact(Found(x, g, args, Started(m), r, m.regs[r]), EvalAll(x.env, args, x.snap, x.vars, Started(m)).live.regs[r], o,
               Answer(x, g, args, Started(m), r));
  }

  lemma CallValue(env: Env, g: nat, args: seq<Expr>, t: Ty, snap: seq<nat>, vars: seq<nat>, live: Live)
    requires |snap| == REGS && |live.regs| == REGS && g < |env.callees| && EvalAll(env, args, snap, vars, live).All?
    ensures var results := EvalAll(env, args, snap, vars, live);
            var event := Event(g, ArgumentWords(env.callees[g].params, results.values, 0));
            var b := env.call(g, event.args, results.live.trace);
            Eval(env, CallTo(g, args, t), snap, vars, live) ==
            Done(Wrap(t, Returned(b, RAX)), LiveAfterCall(env.callees[g], b, results.live, event))
  {
  }

  lemma SnapshotRegister(x: Context, m: Machine, r: nat)
    requires Ready(x, m) && Ok(m) && r < REGS
    ensures Block(SnapshotCode(x.lay, 0)) && Run(x.env, SnapshotCode(x.lay, 0), m).regs[r] == m.regs[r]
  {
    RunSnapshot(x, m, m, 0);
  }

  // ----- The syntactic condition -----

  /** No calls, and no leaf that reads register r. */
  predicate Plain(e: Expr, r: nat) {
    match e
    case Unary(_, y, _) => Plain(y, r)
    case Binary(_, a, b, _) => Plain(a, r) && Plain(b, r)
    case CallTo(_, _, _) => false
    case Leaf(reg, _) => reg.family != r
    case _ => true
  }

  predicate AllPlain(es: seq<Expr>, r: nat) {
    es == [] || (Plain(es[0], r) && AllPlain(es[1..], r))
  }

  lemma {:induction false} PlainIsClean(callees: seq<Callee>, e: Expr, r: nat, dirt: set<Part>)
    requires Plain(e, r)
    ensures Clean(callees, e, dirt)
    decreases e
  {
    match e
    case Unary(_, y, _) => PlainIsClean(callees, y, r, dirt);
    case Binary(_, a, b, _) =>
      PlainIsClean(callees, a, r, dirt);
      PlainIsClean(callees, b, r, dirt + Writes(callees, a));
    case _ =>
  }

  lemma {:induction false} AllPlainAreClean(callees: seq<Callee>, es: seq<Expr>, r: nat, dirt: set<Part>)
    requires AllPlain(es, r)
    ensures CleanAll(callees, es, dirt)
    decreases |es|
  {
    if es != [] {
      PlainIsClean(callees, es[0], r, dirt);
      AllPlainAreClean(callees, es[1..], r, dirt + Writes(callees, es[0]));
    }
  }

  /** Operations write whole registers. */
  lemma OperationWritesWhole(op: BinOp, q: nat, at: nat)
    requires at < 3
    ensures Part(q, at) in OpParts(op) <==> q in OpWrites(op)
  {
  }

  lemma {:induction false} PlainWritesWhole(callees: seq<Callee>, e: Expr, r: nat, q: nat, at: nat)
    requires Plain(e, r) && at < 3
    ensures Part(q, at) in Writes(callees, e) <==> Part(q, 0) in Writes(callees, e)
    decreases e
  {
    match e
    case Unary(_, y, _) => PlainWritesWhole(callees, y, r, q, at);
    case Binary(op, a, b, _) =>
      PlainWritesWhole(callees, a, r, q, at);
      PlainWritesWhole(callees, b, r, q, at);
      OperationWritesWhole(op, q, at);
      OperationWritesWhole(op, q, 0);
    case _ =>
  }

  lemma {:induction false} AllPlainWriteWhole(callees: seq<Callee>, es: seq<Expr>, r: nat, q: nat, at: nat)
    requires AllPlain(es, r) && at < 3
    ensures Part(q, at) in WritesAll(callees, es) <==> Part(q, 0) in WritesAll(callees, es)
    decreases |es|
  {
    if es != [] {
      PlainWritesWhole(callees, es[0], r, q, at);
      AllPlainWriteWhole(callees, es[1..], r, q, at);
    }
  }

  ghost predicate SameBut(a: seq<nat>, b: seq<nat>, r: nat) {
    |a| == REGS && |b| == REGS && forall k :: 0 <= k < REGS && k != r ==> a[k] == b[k]
  }

  /** A plain tree has the same value whatever register r and the state to keep are, and the state
      stays as it is. */
  lemma {:induction false} PlainValue(env: Env, e: Expr, r: nat, snap: seq<nat>, snap': seq<nat>, vars: seq<nat>, live: Live, live': Live)
    requires Plain(e, r) && SameBut(snap, snap', r) && |live.regs| == REGS && |live'.regs| == REGS
    ensures match Eval(env, e, snap, vars, live)
            case Fault(_) => Eval(env, e, snap', vars, live').Fault?
            case Done(v, l) => l == live && Eval(env, e, snap', vars, live') == Done(v, live')
    decreases e
  {
    match e
    case Unary(_, y, _) => PlainValue(env, y, r, snap, snap', vars, live, live');
    case Binary(op, a, b, t) =>
      hide BinValue;
      PlainValue(env, a, r, snap, snap', vars, live, live');
      PlainValue(env, b, r, snap, snap', vars, live, live');
    case _ =>
  }

  lemma {:induction false} AllPlainValues(env: Env, es: seq<Expr>, r: nat, snap: seq<nat>, snap': seq<nat>, vars: seq<nat>, live: Live, live': Live)
    requires AllPlain(es, r) && SameBut(snap, snap', r) && |live.regs| == REGS && |live'.regs| == REGS
    ensures match EvalAll(env, es, snap, vars, live)
            case Faults(_) => EvalAll(env, es, snap', vars, live').Faults?
            case All(vs, l) => l == live && EvalAll(env, es, snap', vars, live') == All(vs, live')
    decreases |es|
  {
    if es != [] {
      PlainValue(env, es[0], r, snap, snap', vars, live, live');
      AllPlainValues(env, es[1..], r, snap, snap', vars, live, live');
    }
  }

  /** What a plain tree leaves in a register it writes does not depend on what r held before, and
      one it does not write stays. */
  lemma {:induction false} PlainLeft(env: Env, e: Expr, r: nat, snap: seq<nat>, snap': seq<nat>, vars: seq<nat>, live: Live, live': Live,
                                     q: nat, before: nat, before': nat)
    requires Plain(e, r) && SameBut(snap, snap', r) && |live.regs| == REGS && |live'.regs| == REGS
    requires Eval(env, e, snap, vars, live).Done?
    ensures if Part(q, 0) in Writes(env.callees, e)
            then Left(env, e, snap', vars, live', q, before') == Left(env, e, snap, vars, live, q, before)
            else Left(env, e, snap', vars, live', q, before') == before' && Left(env, e, snap, vars, live, q, before) == before
    decreases e
  {
    hide OperandLeft;
    match e
    case Unary(_, y, _) => PlainLeft(env, y, r, snap, snap', vars, live, live', q, before, before');
    case Binary(op, a, b, t) =>
      PlainValue(env, a, r, snap, snap', vars, live, live');
      PlainValue(env, b, r, snap, snap', vars, live, live');
      PlainLeft(env, a, r, snap, snap', vars, live, live', q, before, before');
      PlainLeft(env, b, r, snap, snap', vars, live, live', q,
                Left(env, a, snap, vars, live, q, before), Left(env, a, snap', vars, live', q, before'));
      OperationWritesWhole(op, q, 0);
    case _ =>
  }

  lemma {:induction false} AllPlainLeft(env: Env, es: seq<Expr>, r: nat, snap: seq<nat>, snap': seq<nat>, vars: seq<nat>, live: Live, live': Live,
                                        q: nat, before: nat, before': nat)
    requires AllPlain(es, r) && SameBut(snap, snap', r) && |live.regs| == REGS && |live'.regs| == REGS
    requires EvalAll(env, es, snap, vars, live).All?
    ensures if Part(q, 0) in WritesAll(env.callees, es)
            then LeftAll(env, es, snap', vars, live', q, before') == LeftAll(env, es, snap, vars, live, q, before)
            else LeftAll(env, es, snap', vars, live', q, before') == before' && LeftAll(env, es, snap, vars, live, q, before) == before
    decreases |es|
  {
    if es != [] {
      PlainValue(env, es[0], r, snap, snap', vars, live, live');
      PlainLeft(env, es[0], r, snap, snap', vars, live, live', q, before, before');
      AllPlainLeft(env, es[1..], r, snap, snap', vars, live, live', q,
                   Left(env, es[0], snap, vars, live, q, before), Left(env, es[0], snap', vars, live', q, before'));
    }
  }

  /** The pieces of a field after a write come from the value written. */
  lemma MergeTakes(a: nat, b: nat, o: Register, v: nat, at: nat)
    requires a < W && b < W && v < W && WellFormedRegister(o) && at < 3 && Part(o.family, at) in FieldParts(o)
    ensures Piece(Merge(a, o, v) % W, at) == Piece(Merge(b, o, v) % W, at)
  {
    FieldOfMerge(a, o, v);
    FieldOfMerge(b, o, v);
    if Narrow(o) && !o.high8 && o.width == B16 {
      LowHalfPieces(Merge(a, o, v) % W);
      LowHalfPieces(Merge(b, o, v) % W);
    }
  }

  predicate Enough(params: seq<Param>, values: seq<int>, i: nat)
    requires i <= |params|
    decreases |params| - i
  {
    if i == |params| then true
    else if params[i].direction == Out then Enough(params, values, i + 1)
    else values != [] && Enough(params, values[1..], i + 1)
  }

  lemma {:induction false} ArgumentsEnough(x: Context, params: seq<Param>, args: seq<Expr>, values: seq<int>, i: nat)
    requires i <= |params| && WellFormedAll(x, params, args, i) && |values| == |args|
    ensures Enough(params, values, i)
    decreases |params| - i
  {
    if i < |params| {
      if params[i].direction == Out {
        ArgumentsEnough(x, params, args, values, i + 1);
      } else {
        ArgumentsEnough(x, params, args[1..], values[1..], i + 1);
      }
    }
  }

  ghost predicate RegistersFine(params: seq<Param>) {
    forall i :: 0 <= i < |params| && Bound(params[i]) ==> WellFormedRegister(params[i].reg)
  }

  /** Binding the arguments gives the pieces it writes the same contents whatever they held, and
      leaves the others. */
  lemma {:induction false} BoundPieces(params: seq<Param>, values: seq<int>, i: nat, q: nat, a: nat, b: nat, at: nat)
    requires i <= |params| && RegistersFine(params) && Enough(params, values, i) && a < W && b < W && at < 3
    ensures BoundTo(params, values, i, q, a) < W && BoundTo(params, values, i, q, b) < W
    ensures Piece(a, at) == Piece(b, at) || Part(q, at) in BindParts(params[i..]) ==>
              Piece(BoundTo(params, values, i, q, a), at) == Piece(BoundTo(params, values, i, q, b), at)
    ensures Part(q, at) !in BindParts(params[i..]) ==> Piece(BoundTo(params, values, i, q, a), at) == Piece(a, at)
    decreases |params| - i
  {
    hide Merge, Rep, Piece, FieldParts, WellFormedRegister;
    if i < |params| {
      var p := params[i];
      assert params[i..][0] == p && params[i..][1..] == params[i + 1..];
      BoundStep(params, values, i, q, a);
      BoundStep(params, values, i, q, b);
      if p.direction == Out {
        BoundPieces(params, values, i + 1, q, a, b, at);
      } else if Bound(p) && p.reg.family == q {
        var w := Rep(values[0]);
        BindPieces(p.reg, w, a, b, at);
        BoundPieces(params, values[1..], i + 1, q, Merge(a, p.reg, w) % W, Merge(b, p.reg, w) % W, at);
      } else {
        BoundPieces(params, values[1..], i + 1, q, a, b, at);
        FieldFamily(p.reg, q, at);
      }
    }
  }

  lemma FieldFamily(o: Register, q: nat, at: nat)
    ensures Part(q, at) in FieldParts(o) ==> q == o.family
  {
  }

  lemma BindPieces(o: Register, w: nat, a: nat, b: nat, at: nat)
    requires WellFormedRegister(o) && a < W && b < W && w < W && at < 3
    ensures if Part(o.family, at) in FieldParts(o) then Piece(Merge(a, o, w) % W, at) == Piece(Merge(b, o, w) % W, at)
            else Piece(Merge(a, o, w) % W, at) == Piece(a, at) && Piece(Merge(b, o, w) % W, at) == Piece(b, at)
  {
    hide Merge, Piece, FieldParts;
    if Part(o.family, at) in FieldParts(o) {
      MergeTakes(a, b, o, w, at);
    } else {
      MergePieces(a, o, w, at);
      MergePieces(b, o, w, at);
      FitsWord(Merge(a, o, w));
      FitsWord(Merge(b, o, w));
    }
  }

  /** A number that differs from 0 in one piece. */
  function One(at: nat): (v: nat)
    ensures v < W
  {
    if at == 0 then 1 else if at == 1 then 0x100 else 0x1_0000
  }

  lemma OnePiece(at: nat)
    requires at < 3
    ensures Piece(One(at), at) == 1 && Piece(0, at) == 0
  {
  }

  /** The same start with v in register r. */
  function Holding(x: Context, r: nat, v: nat): Context
    requires |x.snap| == REGS && r < REGS
  {
    x.(snap := x.snap[r := v])
  }

  function WithRegister(m: Machine, r: nat, v: nat): (m': Machine)
    requires Ok(m) && r < REGS && v < W
    ensures Ok(m')
  {
    m.(regs := m.regs[r := v])
  }

  ghost predicate KeepsWith(x: Context, m: Machine, e: Expr, r: nat, v: nat)
    requires Ok(m) && |x.snap| == REGS && r < REGS
  {
    v < W ==> KeepsRest(Holding(x, r, v), WithRegister(m, r, v), e, r)
  }

  /** A call of a callee with a narrow output in register r, its arguments plain. */
  ghost predicate PlainCall(x: Context, m: Machine, g: nat, args: seq<Expr>, t: Ty, r: nat, o: Register) {
    && Ready(x, m) && WellFormed(x, CallTo(g, args, t)) && Fits(x, CallTo(g, args, t), 0, 0) && AllPlain(args, r)
    && r < REGS && OutputOf(x.env.callees[g].params, r) == Some(o) && Narrow(o)
    && EvalAll(x.env, args, x.snap, x.vars, Started(m)).All?
  }

  lemma PlainCallFacts(x: Context, m: Machine, g: nat, args: seq<Expr>, t: Ty, r: nat, o: Register)
    requires PlainCall(x, m, g, args, t, r, o)
    ensures Ok(m) && |x.snap| == REGS && r < REGS && g < |x.env.callees| && Free(r) && WellFormedRegister(o) && o.family == r
    ensures var params, results := x.env.callees[g].params, EvalAll(x.env, args, x.snap, x.vars, Started(m));
            RegistersFine(params) && Enough(params, results.values, 0)
  {
    var f := x.env.callees[g];
    CalleeFits(x, f);
    OutputFamily(f.params, r);
    ArgumentsEnough(x, f.params, args, EvalAll(x.env, args, x.snap, x.vars, Started(m)).values, 0);
    assert CalleeOk(x, f);
    forall i | 0 <= i < |f.params| && Bound(f.params[i])
      ensures WellFormedRegister(f.params[i].reg)
    {
      assert ParamOk(x, f, i);
    }
  }

  lemma ReadyHolding(x: Context, m: Machine, r: nat, v: nat)
    requires Ready(x, m) && Ok(m) && |x.snap| == REGS && Free(r) && v < W
    ensures Ready(Holding(x, r, v), WithRegister(m, r, v))
  {
  }

  /** Register r at the call instruction when it started with v. */
  function FoundWith(x: Context, m: Machine, g: nat, args: seq<Expr>, r: nat, v: nat): nat
    requires Ok(m) && |x.snap| == REGS && g < |x.env.callees| && EvalAll(x.env, args, x.snap, x.vars, Started(m)).All?
  {
    BoundTo(x.env.callees[g].params, EvalAll(x.env, args, x.snap, x.vars, Started(m)).values, 0, r,
            if Part(r, 0) in WritesAll(x.env.callees, args) then LeftAll(x.env, args, x.snap, x.vars, Started(m), r, 0) else v)
  }

  lemma KeepsWithExact(x: Context, m: Machine, g: nat, args: seq<Expr>, t: Ty, r: nat, o: Register, v: nat)
    requires PlainCall(x, m, g, args, t, r, o) && v < W
    ensures Ok(m) && |x.snap| == REGS && r < REGS && g < |x.env.callees|
    ensures KeepsWith(x, m, CallTo(g, args, t), r, v) <==> SameRest(o, FoundWith(x, m, g, args, r, v), v)
  {
    PlainCallFacts(x, m, g, args, t, r, o);
    var x', m' := Holding(x, r, v), WithRegister(m, r, v);
    ReadyHolding(x, m, r, v);
    SameTrees(x, x', CallTo(g, args, t));
    SameFit(x, x', CallTo(g, args, t), 0, 0);
    AllPlainAreClean(x.env.callees, args, r, Whole(RAX));
    hide WellFormed, Ready, KeepsRest, EvalAll, LeftAll, BoundTo, SameRest, Fits;
    AllPlainValues(x.env, args, r, x.snap, x'.snap, x.vars, Started(m), Started(m'));
    AllPlainLeft(x.env, args, r, x.snap, x'.snap, x.vars, Started(m), Started(m'), r, 0, v);
    NarrowOutputExact(x', m', g, args, t, r, o);
  }

  /** What a clean output says of the pieces outside its field. */
  lemma CleanParts(o: Register, r: nat, writes: set<Part>, binds: set<Part>)
    requires OutputClean(Some(o), r, writes + binds) && Narrow(o) && o.family == r
    requires Part(r, 2) in writes <==> Part(r, 0) in writes
    ensures Part(r, 0) !in writes
    ensures forall at :: 0 <= at < 3 && Part(r, at) !in FieldParts(o) ==> Part(r, at) !in binds
  {
    assert Part(r, 2) in Whole(r) - FieldParts(o);
    forall at | 0 <= at < 3 && Part(r, at) !in FieldParts(o)
      ensures Part(r, at) !in binds
    {
      assert Part(r, at) in Whole(r) - FieldParts(o);
    }
  }

  lemma CleanIsKept(x: Context, m: Machine, g: nat, args: seq<Expr>, t: Ty, r: nat, o: Register, v: nat)
    requires PlainCall(x, m, g, args, t, r, o) && v < W && g < |x.env.callees|
    requires OutputClean(Some(o), r, WritesAll(x.env.callees, args) + BindParts(x.env.callees[g].params))
    ensures Ok(m) && |x.snap| == REGS && r < REGS && KeepsWith(x, m, CallTo(g, args, t), r, v)
  {
    PlainCallFacts(x, m, g, args, t, r, o);
    var params, values := x.env.callees[g].params, EvalAll(x.env, args, x.snap, x.vars, Started(m)).values;
    AllPlainWriteWhole(x.env.callees, args, r, r, 2);
    KeepsWithExact(x, m, g, args, t, r, o, v);
    hide *;
    CleanParts(o, r, WritesAll(x.env.callees, args), BindParts(params));
    KeptPieces(x, m, g, args, r, o, v);
  }

  lemma KeptPieces(x: Context, m: Machine, g: nat, args: seq<Expr>, r: nat, o: Register, v: nat)
    requires Ok(m) && |x.snap| == REGS && g < |x.env.callees| && EvalAll(x.env, args, x.snap, x.vars, Started(m)).All?
    requires RegistersFine(x.env.callees[g].params) && o.family == r && v < W
    requires Enough(x.env.callees[g].params, EvalAll(x.env, args, x.snap, x.vars, Started(m)).values, 0)
    requires Part(r, 0) !in WritesAll(x.env.callees, args)
    requires forall at :: 0 <= at < 3 && Part(r, at) !in FieldParts(o) ==> Part(r, at) !in BindParts(x.env.callees[g].params)
    ensures SameRest(o, FoundWith(x, m, g, args, r, v), v)
  {
    hide EvalAll, WritesAll, LeftAll, BoundTo, Piece, FieldParts, BindParts, RegistersFine, Enough;
    var params, values := x.env.callees[g].params, EvalAll(x.env, args, x.snap, x.vars, Started(m)).values;
    assert params[0..] == params;
    forall at | 0 <= at < 3 && Part(o.family, at) !in FieldParts(o)
      ensures Piece(FoundWith(x, m, g, args, r, v), at) == Piece(v, at)
    {
      BoundPieces(params, values, 0, r, v, v, at);
    }
  }

  /** A written piece is found the same whatever it held. */
  lemma WrittenPiece(x: Context, m: Machine, g: nat, args: seq<Expr>, r: nat, at: nat, v: nat)
    requires Ok(m) && |x.snap| == REGS && g < |x.env.callees| && EvalAll(x.env, args, x.snap, x.vars, Started(m)).All?
    requires RegistersFine(x.env.callees[g].params) && v < W && at < 3
    requires Enough(x.env.callees[g].params, EvalAll(x.env, args, x.snap, x.vars, Started(m)).values, 0)
    requires Part(r, 0) in WritesAll(x.env.callees, args) || Part(r, at) in BindParts(x.env.callees[g].params)
    ensures Piece(FoundWith(x, m, g, args, r, v), at) == Piece(FoundWith(x, m, g, args, r, 0), at)
  {
    hide EvalAll, WritesAll, LeftAll, BoundTo, Piece, FieldParts, BindParts, RegistersFine, Enough;
    var params, values := x.env.callees[g].params, EvalAll(x.env, args, x.snap, x.vars, Started(m)).values;
    assert params[0..] == params;
    if Part(r, 0) !in WritesAll(x.env.callees, args) {
      BoundPieces(params, values, 0, r, v, 0, at);
    }
  }

  lemma DirtyIsLost(x: Context, m: Machine, g: nat, args: seq<Expr>, t: Ty, r: nat, o: Register, at: nat)
    requires PlainCall(x, m, g, args, t, r, o) && g < |x.env.callees| && at < 3 && Part(r, at) !in FieldParts(o)
    requires Part(r, at) in WritesAll(x.env.callees, args) || Part(r, at) in BindParts(x.env.callees[g].params)
    ensures Ok(m) && |x.snap| == REGS && r < REGS
    ensures !KeepsWith(x, m, CallTo(g, args, t), r, 0) || !KeepsWith(x, m, CallTo(g, args, t), r, One(at))
  {
    PlainCallFacts(x, m, g, args, t, r, o);
    AllPlainWriteWhole(x.env.callees, args, r, r, at);
    hide EvalAll, WritesAll, BindParts, RegistersFine, Enough, PlainCall, FoundWith, KeepsWith, Piece, FieldParts, One;
    OnePiece(at);
    WrittenPiece(x, m, g, args, r, at, One(at));
    KeepsWithExact(x, m, g, args, t, r, o, 0);
    KeepsWithExact(x, m, g, args, t, r, o, One(at));
  }

  /** For plain arguments the promise is kept whatever the register held before if and only if no
      code emitted before the call writes a piece of it outside the output's field. */
  lemma NarrowOutputNeedsClean(x: Context, m: Machine, g: nat, args: seq<Expr>, t: Ty, r: nat, o: Register)
    requires PlainCall(x, m, g, args, t, r, o)
    ensures Ok(m) && |x.snap| == REGS && r < REGS && g < |x.env.callees|
    ensures (forall v: nat :: KeepsWith(x, m, CallTo(g, args, t), r, v)) <==>
            OutputClean(Some(o), r, WritesAll(x.env.callees, args) + BindParts(x.env.callees[g].params))
  {
    PlainCallFacts(x, m, g, args, t, r, o);
    var dirt := WritesAll(x.env.callees, args) + BindParts(x.env.callees[g].params);
    hide EvalAll, WritesAll, BindParts, RegistersFine, Enough, PlainCall, FieldParts, KeepsRest;
    if OutputClean(Some(o), r, dirt) {
      forall v: nat
        ensures KeepsWith(x, m, CallTo(g, args, t), r, v)
      {
        if v < W {
          CleanIsKept(x, m, g, args, t, r, o, v);
        }
      }
    } else {
      var q :| q in Whole(r) - FieldParts(o) && q in dirt;
      DirtyIsLost(x, m, g, args, t, r, o, q.at);
    }
  }

  // ----- A call that loses one -----

  const COUNT: Register := Register(RCX, B8, false)

  /** fn f(in n: u64 @rdx, out v: u8 @cl) */
  predicate ShiftCallee(env: Env) {
    |env.callees| == 1 && RCX !in env.callees[0].clobbers &&
    env.callees[0].params == [Param(In, Register(RDX, B64, false), false), Param(Out, COUNT, false)]
  }

  /** f(x << y) on two locals. */
  function Shifted(): Expr {
    Binary(ShlOp, Local(0, U(B64)), Local(1, U(B64)), U(B64))
  }

  function ShiftedCall(): Expr {
    CallTo(0, [Shifted()], U(B64))
  }

  /** The shift has put its count, the value of y, into rcx, and nothing after it wrote there. */
  lemma CountIsFound(x: Context, live: Live, before: nat)
    requires ShiftCallee(x.env) && ContextOk(x) && LiveOk(live) && |x.vars| >= 2
    ensures EvalAll(x.env, [Shifted()], x.snap, x.vars, live).All?
    ensures EvalAll(x.env, [Shifted()], x.snap, x.vars, live).live == live
    ensures Found(x, 0, [Shifted()], live, RCX, before) == x.vars[1]
  {
    var r := Local(1, U(B64));
    assert Eval(x.env, r, x.snap, x.vars, live) == Done(x.vars[1], live);
    assert Eval(x.env, Shifted(), x.snap, x.vars, live).Done? && Eval(x.env, Shifted(), x.snap, x.vars, live).live == live;
    assert Left(x.env, Shifted(), x.snap, x.vars, live, RCX, before) == OperandLeft(ShlOp, U(B64), Wrap(U(B64), x.vars[0]), x.vars[1], RCX);
    assert [Shifted()][1..] == [];
    assert EvalAll(x.env, [Shifted()], x.snap, x.vars, live) == All([Eval(x.env, Shifted(), x.snap, x.vars, live).value], live);
    assert LeftAll(x.env, [Shifted()], x.snap, x.vars, live, RCX, before) == x.vars[1];
    CountIsBound(x.env.callees[0].params, EvalAll(x.env, [Shifted()], x.snap, x.vars, live).values, x.vars[1]);
  }

  lemma CountIsBound(params: seq<Param>, values: seq<int>, before: nat)
    requires params == [Param(In, Register(RDX, B64, false), false), Param(Out, COUNT, false)]
    ensures BoundTo(params, values, 0, RCX, before) == before
  {
    hide Merge, Rep;
    assert forall vs: seq<int> :: BoundTo(params, vs, 2, RCX, before) == before;
    assert forall vs: seq<int> :: BoundTo(params, vs, 1, RCX, before) == before;
  }

  lemma AboveByte(a: nat, b: nat)
    ensures SameRest(COUNT, a, b) <==> a / 0x100 == b / 0x100
  {
    assert Part(RCX, 1) !in FieldParts(COUNT) && Part(RCX, 2) !in FieldParts(COUNT) && Part(RCX, 0) in FieldParts(COUNT);
    assert SameRest(COUNT, a, b) <==> Piece(a, 1) == Piece(b, 1) && Piece(a, 2) == Piece(b, 2);
    var p, q := a / 0x100, b / 0x100;
    assert p == 0x100 * (p / 0x100) + p % 0x100 && q == 0x100 * (q / 0x100) + q % 0x100;
  }

  lemma ShiftedFits(x: Context, m: Machine)
    requires Ready(x, m) && ShiftCallee(x.env) && x.lay.locals >= 2 && x.lay.depth >= 3 && x.lay.calls >= 1
    ensures ContextOk(x) && Ok(m) && |x.vars| >= 2 && LiveOk(Started(m)) && Fits(x, ShiftedCall(), 0, 0)
    ensures OutputOf(x.env.callees[0].params, RCX) == Some(COUNT) && CleanAll(x.env.callees, [Shifted()], Whole(RAX))
  {
    AllPlainAreClean(x.env.callees, [Shifted()], RCX, Whole(RAX));
    assert DepthAll([Shifted()]) == 2 && CallDepthAll([Shifted()]) == 0;
  }

  /** Its rcx ends as the source has it exactly when the count and the old rcx agree above the byte. */
  lemma ShiftedOutputExact(x: Context, m: Machine)
    requires Ready(x, m) && ShiftCallee(x.env) && WellFormed(x, ShiftedCall())
    requires x.lay.locals >= 2 && x.lay.depth >= 3 && x.lay.calls >= 1
    ensures var code := ExpressionCode(x.env.callees, x.lay, ShiftedCall());
            var o := Eval(x.env, ShiftedCall(), x.snap, x.vars, Started(m));
            && Block(code) && o.Done?
            && (Run(x.env, code, m).regs[RCX] == o.live.regs[RCX] <==> x.vars[1] / 0x100 == m.regs[RCX] / 0x100)
  {
    hide Ready, ContextOk, ExpressionCode, Run, Eval, EvalAll, WellFormed, Fits, CleanAll, Shifted, Found, SameRest, Merge, Answer;
    ShiftedFits(x, m);
    CountIsFound(x, Started(m), m.regs[RCX]);
    NarrowOutputValues(x, m, 0, [Shifted()], U(B64), RCX, COUNT);
    MergeExact(x.vars[1], m.regs[RCX], COUNT, Answer(x, 0, [Shifted()], Started(m), RCX));
    AboveByte(x.vars[1], m.regs[RCX]);
  }

  lemma LowByteMerge(a: nat, v: nat)
    requires a < W && v < W
    ensures a - a % 0x100 <= Merge(a, COUNT, v) % W < a - a % 0x100 + 0x100
  {
    LowPart(a, v, 0x100);
    FitsWord(Merge(a, COUNT, v));
  }

  /** For example x << 1 while rcx holds 0x1234: its second byte is lost. */
  lemma ShiftedOutputLost(x: Context, m: Machine)
    requires Ready(x, m) && ShiftCallee(x.env) && WellFormed(x, ShiftedCall())
    requires x.lay.locals >= 2 && x.lay.depth >= 3 && x.lay.calls >= 1 && x.vars[1] == 1 && m.regs[RCX] == 0x1234
    ensures var code := ExpressionCode(x.env.callees, x.lay, ShiftedCall());
            var o := Eval(x.env, ShiftedCall(), x.snap, x.vars, Started(m));
            Block(code) && o.Done? && Run(x.env, code, m).regs[RCX] < 0x100 && o.live.regs[RCX] >= 0x1200
  {
    hide Ready, ContextOk, ExpressionCode, Run, Eval, EvalAll, WellFormed, Fits, CleanAll, Shifted, Found, Merge, Answer;
    ShiftedFits(x, m);
    CountIsFound(x, Started(m), m.regs[RCX]);
    NarrowOutputValues(x, m, 0, [Shifted()], U(B64), RCX, COUNT);
    LowByteMerge(1, Answer(x, 0, [Shifted()], Started(m), RCX));
    LowByteMerge(0x1234, Answer(x, 0, [Shifted()], Started(m), RCX));
  }

  /** f(x << rcx): the count is what rcx held. */
  function ShiftedByItself(): Expr {
    Binary(ShlOp, Local(0, U(B64)), Leaf(Register(RCX, B64, false), U(B64)), U(B64))
  }

  /** So the old rcx is found at the call, and the promise is kept although the shift wrote all of
      the register: for trees that read it the syntactic condition is more than is needed. */
  lemma KeptThoughWritten(x: Context, m: Machine)
    requires Ready(x, m) && ShiftCallee(x.env) && WellFormed(x, CallTo(0, [ShiftedByItself()], U(B64)))
    requires x.lay.locals >= 1 && x.lay.depth >= 3 && x.lay.calls >= 1
    ensures Ok(m) && |x.snap| == REGS && KeepsRest(x, m, CallTo(0, [ShiftedByItself()], U(B64)), RCX)
    ensures !OutputClean(Some(COUNT), RCX, WritesAll(x.env.callees, [ShiftedByItself()]) + BindParts(x.env.callees[0].params))
  {
    hide Ready, ContextOk, ExpressionCode, Run, Eval, EvalAll, WellFormed, Fits, CleanAll, ShiftedByItself, Found, KeepsRest;
    ReadyFacts(x, m, Whole(RAX) + x.dirt);
    ItselfFits(x, m);
    ItselfIsFound(x, Started(m));
    NarrowOutputExact(x, m, 0, [ShiftedByItself()], U(B64), RCX, COUNT);
    ItselfWrites(x.env.callees);
  }

  lemma ItselfFits(x: Context, m: Machine)
    requires Ready(x, m) && ShiftCallee(x.env) && x.lay.locals >= 1 && x.lay.depth >= 3 && x.lay.calls >= 1
    ensures ContextOk(x) && Ok(m) && |x.vars| >= 1 && LiveOk(Started(m)) && Fits(x, CallTo(0, [ShiftedByItself()], U(B64)), 0, 0)
    ensures x.snap == m.regs && OutputOf(x.env.callees[0].params, RCX) == Some(COUNT) && CleanAll(x.env.callees, [ShiftedByItself()], Whole(RAX))
  {
    AllPlainAreClean(x.env.callees, [ShiftedByItself()], RDX, Whole(RAX));
    assert DepthAll([ShiftedByItself()]) == 2 && CallDepthAll([ShiftedByItself()]) == 0;
  }

  lemma ItselfIsFound(x: Context, live: Live)
    requires ShiftCallee(x.env) && ContextOk(x) && LiveOk(live) && |x.vars| >= 1
    ensures EvalAll(x.env, [ShiftedByItself()], x.snap, x.vars, live).All?
    ensures EvalAll(x.env, [ShiftedByItself()], x.snap, x.vars, live).live == live
    ensures Found(x, 0, [ShiftedByItself()], live, RCX, x.snap[RCX]) == x.snap[RCX]
  {
    var e, r := ShiftedByItself(), Leaf(Register(RCX, B64, false), U(B64));
    assert Eval(x.env, r, x.snap, x.vars, live) == Done(x.snap[RCX], live);
    assert Eval(x.env, e, x.snap, x.vars, live).Done? && Eval(x.env, e, x.snap, x.vars, live).live == live;
    assert Left(x.env, e, x.snap, x.vars, live, RCX, x.snap[RCX]) == OperandLeft(ShlOp, U(B64), Wrap(U(B64), x.vars[0]), x.snap[RCX], RCX);
    assert [e][1..] == [];
    assert EvalAll(x.env, [e], x.snap, x.vars, live) == All([Eval(x.env, e, x.snap, x.vars, live).value], live);
    assert LeftAll(x.env, [e], x.snap, x.vars, live, RCX, x.snap[RCX]) == x.snap[RCX];
    CountIsBound(x.env.callees[0].params, EvalAll(x.env, [e], x.snap, x.vars, live).values, x.snap[RCX]);
  }

  lemma ItselfWrites(callees: seq<Callee>)
    ensures Part(RCX, 1) in Whole(RCX) - FieldParts(COUNT) && Part(RCX, 1) in WritesAll(callees, [ShiftedByItself()])
  {
    assert Part(RCX, 1) in Writes(callees, ShiftedByItself());
  }
}
