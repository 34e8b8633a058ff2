/** Operands of different types. The type checker takes a raw register for unsigned and compares only
    its width with the other operand's, and gives a negated literal that is held against a bool or a
    pointer the type i64. Comparisons and divisions then go by the left operand's sign. */
module MixedOperands {
  import opened Words
  import opened X86
  import opened Codegen
  import opened Operations
  import opened Simulation
  import opened Calls
  import opened ExpressionProof
  import opened Frames

  /** A register operand, typed unsigned by its width. */
  function Raw(reg: Register): Expr {
    Leaf(reg, U(reg.width))
  }

  // ----- Which pairs are misread -----

  function ResultType(op: BinOp, left: Ty): Ty {
    if IsComparison(op) then Bool else left
  }

  predicate SameWidth(t: Ty, w: Width) {
    match t case U(v) => v == w case I(v) => v == w case Bool => false case Ptr => w == B64
  }

  /** The types that the checker lets an operand have on the right of one of type left. */
  predicate Accepts(left: Ty, right: Ty) {
    || right == left || right == Bool || (right.U? && SameWidth(left, right.width))
    || (right == I(B64) && (left == Bool || left == Ptr))
  }

  /** The right operand is read with a sign it does not have, or without the one it has. */
  predicate Misread(op: BinOp, left: Ty, right: Ty) {
    && !IsUnit(op)
    && ((left == I(B64) && right == U(B64)) || (right == I(B64) && (left == Ptr || (left == Bool && op != EqOp && op != NeOp))))
  }

  lemma MisreadIs(op: BinOp, left: Ty, right: Ty)
    requires Accepts(left, right)
    ensures OperandTypes(op, ResultType(op, left), left, right) <==> !Misread(op, left, right)
  {
  }

  function WithOperands(m: Machine, l: int, r: int): (m': Machine)
    requires Ok(m)
    ensures Ok(m')
  {
    m.(regs := m.regs[R10 := Rep(l)][RAX := Rep(r)])
  }

  /** The code of the operation gives its value for l and r, or traps when there is none. */
  ghost predicate OperationKept(env: Env, op: BinOp, left: Ty, l: int, r: int, m: Machine)
    requires Ok(m)
  {
    var t := ResultType(op, left);
    && Block(OperationCode(op, t, left))
    && Computes(env, OperationCode(op, t, left), WithOperands(m, l, r), OpWrites(op), BinValue(op, t, l, r))
  }

  lemma KeptWhenRead(env: Env, op: BinOp, left: Ty, l: int, r: int, m: Machine)
    requires Ok(m) && !m.stopped && OperandsRead(op, ResultType(op, left), left, l, r)
    ensures OperationKept(env, op, left, l, r, m)
  {
    hide OperationCode, OperandsRead, Rep;
    RunOperation(env, op, ResultType(op, left), left, l, r, WithOperands(m, l, r));
  }

  /** A value that the code does not give: it gives the one for another operand of the same word. */
  lemma NotKept(env: Env, op: BinOp, left: Ty, l: int, r: int, other: int, m: Machine)
    requires Ok(m) && !m.stopped && Rep(other) == Rep(r) && OperandsRead(op, ResultType(op, left), left, l, other)
    requires var v, w := BinValue(op, ResultType(op, left), l, r), BinValue(op, ResultType(op, left), l, other);
             v.Some? && w.Some? && Rep(v.value) != Rep(w.value)
    ensures !OperationKept(env, op, left, l, r, m)
  {
    hide OperationCode, OperandsRead, BinValue, OpWrites, Rep;
    KeptWhenRead(env, op, left, l, other, m);
    assert WithOperands(m, l, other) == WithOperands(m, l, r);
  }

  /** A left and a right value that are misread, and what the right one is taken for. */
  function MisreadLeft(op: BinOp, left: Ty): int {
    if op == EqOp || op == NeOp then (if left.I? then -1 else W - 1) else 1
  }

  function MisreadRight(left: Ty): int {
    if left.I? then W - 1 else -1
  }

  lemma MisreadInRange(op: BinOp, left: Ty, right: Ty)
    requires Misread(op, left, right)
    ensures InRange(left, MisreadLeft(op, left)) && InRange(right, MisreadRight(left))
  {
  }

  lemma MisreadWord(left: Ty)
    ensures Rep(MisreadRight(left)) == W - 1 && Rep(Taken(left)) == W - 1
  {
  }

  /** What the instructions take that right value for. */
  function Taken(left: Ty): int {
    if left.I? then -1 else W - 1
  }

  lemma DividedByMisread(op: BinOp, left: Ty)
    requires op == DivOp || op == ModOp
    ensures OperandsRead(op, left, left, 1, Taken(left))
    ensures var v, w := BinValue(op, left, 1, MisreadRight(left)), BinValue(op, left, 1, Taken(left));
            left == I(B64) || left == Ptr ==> v.Some? && w.Some? && Rep(v.value) != Rep(w.value)
  {
    assert TruncDiv(1, W - 1) == 0 && TruncDiv(1, -1) == -1;
    assert 1 / -1 == -1 && 1 % -1 == 0;
  }

  lemma ComparedWithMisread(op: BinOp, left: Ty, t: Ty)
    requires IsComparison(op)
    ensures OperandsRead(op, t, left, MisreadLeft(op, left), Taken(left))
    ensures Compare(op, MisreadLeft(op, left), MisreadRight(left)) != Compare(op, MisreadLeft(op, left), Taken(left))
  {
  }

  lemma MisreadDiffers(op: BinOp, left: Ty, right: Ty)
    requires Misread(op, left, right)
    ensures OperandsRead(op, ResultType(op, left), left, MisreadLeft(op, left), Taken(left))
    ensures var t, l := ResultType(op, left), MisreadLeft(op, left);
            var v, w := BinValue(op, t, l, MisreadRight(left)), BinValue(op, t, l, Taken(left));
            v.Some? && w.Some? && Rep(v.value) != Rep(w.value)
  {
    hide OperandsRead;
    if IsComparison(op) {
      ComparedWithMisread(op, left, ResultType(op, left));
    } else {
      DividedByMisread(op, left);
    }
  }

  /** An operation on operands of accepted types is right for all their values if and only if it does
      not misread them. */
  lemma OperationExact(env: Env, op: BinOp, left: Ty, right: Ty, m: Machine)
    requires Accepts(left, right) && Ok(m) && !m.stopped
    ensures (forall l, r :: InRange(left, l) && InRange(right, r) ==> OperationKept(env, op, left, l, r, m)) <==>
            !Misread(op, left, right)
  {
    hide OperationKept, Accepts, InRange, Misread, OperandTypes, BinValue, MisreadLeft, MisreadRight, Taken;
    MisreadIs(op, left, right);
    if Misread(op, left, right) {
      MisreadInRange(op, left, right);
      MisreadWord(left);
      MisreadDiffers(op, left, right);
      NotKept(env, op, left, MisreadLeft(op, left), MisreadRight(left), Taken(left), m);
    } else {
      forall l, r | InRange(left, l) && InRange(right, r)
        ensures OperationKept(env, op, left, l, r, m)
      {
        TypesRead(op, ResultType(op, left), left, right, l, r);
        KeptWhenRead(env, op, left, l, r, m);
      }
    }
  }

  // ----- What the code means, whatever the types -----

  /** What the instructions take a misread operand for. */
  function TakenAs(left: Ty): Ty {
    if left.I? then I(B64) else U(B64)
  }

  /** The tree with every misread operand made what it is taken for. A plus is a change of type that
      has no code. */
  function Reread(e: Expr): (r: Expr)
    ensures TypeOf(r) == TypeOf(e)
    decreases e, 0
  {
    match e
    case Unary(op, y, t) => Unary(op, Reread(y), t)
    case Binary(op, l, r, t) => Binary(op, Reread(l), RereadRight(op, TypeOf(l), TypeOf(r), Reread(r)), t)
    case CallTo(f, args, t) => CallTo(f, RereadAll(args), t)
    case _ => e
  }

  function RereadRight(op: BinOp, left: Ty, right: Ty, r: Expr): Expr {
    if Misread(op, left, right) then Unary(PosOp, r, TakenAs(left)) else r
  }

  function RereadAll(es: seq<Expr>): (rs: seq<Expr>)
    ensures |rs| == |es|
    decreases es, 0
  {
    if es == [] then [] else [Reread(es[0])] + RereadAll(es[1..])
  }

  /** Nothing is reread where nothing is misread. */
  predicate ReadRight(e: Expr)
    decreases e, 0
  {
    match e
    case Unary(_, y, _) => ReadRight(y)
    case Binary(op, l, r, _) => !Misread(op, TypeOf(l), TypeOf(r)) && ReadRight(l) && ReadRight(r)
    case CallTo(_, args, _) => AllReadRight(args)
    case _ => true
  }

  predicate AllReadRight(es: seq<Expr>)
    decreases es, 0
  {
    es != [] ==> ReadRight(es[0]) && AllReadRight(es[1..])
  }

  lemma {:induction false} RereadKeeps(e: Expr)
    ensures Reread(e) == e <==> ReadRight(e)
    decreases e, 0
  {
    hide Misread;
    match e
    case Unary(_, y, _) => RereadKeeps(y);
    case Binary(_, l, r, _) =>
      RereadKeeps(l);
      RereadKeeps(r);
      RereadDepth(r);
    case CallTo(_, args, _) => RereadAllKeeps(args);
    case _ =>
  }

  lemma {:induction false} RereadAllKeeps(es: seq<Expr>)
    ensures RereadAll(es) == es <==> AllReadRight(es)
    decreases es, 0
  {
    if es != [] {
      RereadKeeps(es[0]);
      RereadAllKeeps(es[1..]);
      assert es == [es[0]] + es[1..];
      assert RereadAll(es)[0] == Reread(es[0]) && RereadAll(es)[1..] == RereadAll(es[1..]);
    }
  }

  lemma {:induction false} RereadDepth(e: Expr)
    ensures Depth(Reread(e)) >= Depth(e)
    decreases e, 0
  {
    match e
    case Unary(_, y, _) => RereadDepth(y);
    case Binary(_, l, r, _) =>
      RereadDepth(l);
      RereadDepth(r);
    case CallTo(_, args, _) => RereadDepthAll(args);
    case _ =>
  }

  lemma {:induction false} RereadDepthAll(es: seq<Expr>)
    ensures DepthAll(RereadAll(es)) >= DepthAll(es)
    decreases es, 0
  {
    if es != [] {
      RereadDepth(es[0]);
      RereadDepthAll(es[1..]);
      assert RereadAll(es)[0] == Reread(es[0]) && RereadAll(es)[1..] == RereadAll(es[1..]);
    }
  }

  /** What the type checker leaves of a tree: accepted operand types, and results of the left one. */
  ghost predicate Readable(x: Context, e: Expr)
    decreases e, 0
  {
    match e
    case Unary(op, y, t) => (op == PosOp ==> Retypes(TypeOf(y), t)) && Readable(x, y)
    case Binary(op, l, r, t) =>
      && Accepts(TypeOf(l), TypeOf(r)) && t == ResultType(op, TypeOf(l)) && Readable(x, l) && Readable(x, r)
    case CallTo(f, args, _) =>
      && f < |x.env.callees| && CalleeOk(x, x.env.callees[f])
      && ReadableAll(x, x.env.callees[f].params, args, 0)
    case _ => WellFormed(x, e)
  }

  ghost predicate ReadableAll(x: Context, params: seq<Param>, args: seq<Expr>, i: nat)
    requires i <= |params|
    decreases args, |params| - i
  {
    if i == |params| then args == []
    else if params[i].direction == Out then ReadableAll(x, params, args, i + 1)
    else args != [] && Readable(x, args[0]) && ReadableAll(x, params, args[1..], i + 1)
  }

  lemma TakenIsRead(op: BinOp, left: Ty, right: Ty)
    requires Misread(op, left, right)
    ensures OperandTypes(op, ResultType(op, left), left, TakenAs(left)) && Retypes(right, TakenAs(left))
  {
  }

  lemma RereadRightForm(x: Context, op: BinOp, left: Ty, right: Ty, r: Expr)
    requires Accepts(left, right) && TypeOf(r) == right && WellFormed(x, r)
    ensures var r' := RereadRight(op, left, right, r);
            WellFormed(x, r') && OperandTypes(op, ResultType(op, left), left, TypeOf(r'))
  {
    hide Misread, OperandTypes, Accepts, Retypes, TakenAs;
    MisreadIs(op, left, right);
    if Misread(op, left, right) {
      TakenIsRead(op, left, right);
    }
  }

  lemma {:induction false} RereadForm(x: Context, e: Expr)
    requires Readable(x, e)
    ensures WellFormed(x, Reread(e))
    decreases e, 0
  {
    hide RereadRight, OperandTypes, Accepts, Retypes;
    match e
    case Unary(_, y, _) => RereadForm(x, y);
    case Binary(op, l, r, _) =>
      RereadForm(x, l);
      RereadForm(x, r);
      RereadRightForm(x, op, TypeOf(l), TypeOf(r), Reread(r));
    case CallTo(f, args, _) => RereadForms(x, x.env.callees[f].params, args, 0);
    case _ =>
  }

  lemma {:induction false} RereadForms(x: Context, params: seq<Param>, args: seq<Expr>, i: nat)
    requires i <= |params| && ReadableAll(x, params, args, i)
    ensures WellFormedAll(x, params, RereadAll(args), i)
    decreases args, |params| - i
  {
    if i < |params| {
      if params[i].direction == Out {
        RereadForms(x, params, args, i + 1);
      } else {
        RereadForm(x, args[0]);
        RereadForms(x, params, args[1..], i + 1);
        assert RereadAll(args)[1..] == RereadAll(args[1..]);
      }
    }
  }

  /** The same spill and call levels and the same registers written. */
  lemma {:induction false} RereadNeeds(callees: seq<Callee>, e: Expr)
    ensures var r := Reread(e);
            Spills(r) == Spills(e) && CallDepth(r) == CallDepth(e) && Writes(callees, r) == Writes(callees, e)
    decreases e, 0
  {
    hide Misread;
    match e
    case Unary(_, y, _) => RereadNeeds(callees, y);
    case Binary(_, l, r, _) =>
      RereadNeeds(callees, l);
      RereadNeeds(callees, r);
    case CallTo(_, args, _) => RereadAllNeed(callees, args);
    case _ =>
  }

  lemma {:induction false} RereadAllNeed(callees: seq<Callee>, es: seq<Expr>)
    ensures var rs := RereadAll(es);
            SpillsAll(rs) == SpillsAll(es) && CallDepthAll(rs) == CallDepthAll(es) && WritesAll(callees, rs) == WritesAll(callees, es)
    decreases es, 0
  {
    if es != [] {
      RereadNeeds(callees, es[0]);
      RereadAllNeed(callees, es[1..]);
      assert RereadAll(es)[0] == Reread(es[0]) && RereadAll(es)[1..] == RereadAll(es[1..]);
    }
  }

  lemma {:induction false} RereadClean(callees: seq<Callee>, e: Expr, dirt: set<Part>)
    ensures Clean(callees, Reread(e), dirt) <==> Clean(callees, e, dirt)
    decreases e, 0
  {
    hide Misread, Writes;
    match e
    case Unary(_, y, _) => RereadClean(callees, y, dirt);
    case Binary(_, l, r, _) =>
      RereadNeeds(callees, l);
      RereadClean(callees, l, dirt);
      RereadClean(callees, r, dirt + Writes(callees, l));
    case CallTo(_, args, _) =>
      RereadAllNeed(callees, args);
      RereadAllClean(callees, args, dirt);
    case _ =>
  }

  lemma {:induction false} RereadAllClean(callees: seq<Callee>, es: seq<Expr>, dirt: set<Part>)
    ensures CleanAll(callees, RereadAll(es), dirt) <==> CleanAll(callees, es, dirt)
    decreases es, 0
  {
    if es != [] {
      RereadNeeds(callees, es[0]);
      RereadClean(callees, es[0], dirt);
      RereadAllClean(callees, es[1..], dirt + Writes(callees, es[0]));
      assert RereadAll(es)[0] == Reread(es[0]) && RereadAll(es)[1..] == RereadAll(es[1..]);
    }
  }

  /** And the same code. */
  lemma {:induction false} RereadCode(callees: seq<Callee>, lay: Layout, e: Expr, s: nat, c: nat)
    ensures Code(callees, lay, Reread(e), s, c) == Code(callees, lay, e, s, c)
    decreases e, 0
  {
    hide Misread, OperationCode, CallCode, LeafCode;
    match e
    case Unary(_, y, _) => RereadCode(callees, lay, y, s, c);
    case Binary(op, l, r, _) =>
      RereadCode(callees, lay, l, s + 1, c);
      RereadCode(callees, lay, r, s + 1, c);
      PlusHasNoCode(callees, lay, op, TypeOf(l), TypeOf(r), Reread(r), s + 1, c);
    case CallTo(f, args, _) =>
      if f < |callees| {
        RereadArguments(callees, lay, callees[f].params, args, 0, s, c);
      }
    case _ =>
  }

  lemma PlusHasNoCode(callees: seq<Callee>, lay: Layout, op: BinOp, left: Ty, right: Ty, r: Expr, s: nat, c: nat)
    ensures Code(callees, lay, RereadRight(op, left, right, r), s, c) == Code(callees, lay, r, s, c)
  {
    hide Misread;
  }

  lemma {:induction false} RereadArguments(callees: seq<Callee>, lay: Layout, params: seq<Param>, args: seq<Expr>, i: nat, s: nat, c: nat)
    requires i <= |params|
    ensures ArgumentCode(callees, lay, params, RereadAll(args), i, s, c) == ArgumentCode(callees, lay, params, args, i, s, c)
    decreases args, |params| - i
  {
    if i < |params| {
      if params[i].direction == Out {
        RereadArguments(callees, lay, params, args, i + 1, s, c);
      } else if args != [] {
        RereadCode(callees, lay, args[0], s, c + 1);
        RereadArguments(callees, lay, params, args[1..], i + 1, s, c);
        assert RereadAll(args)[1..] == RereadAll(args[1..]);
      }
    }
  }

  /** The code of any accepted tree does what the tree means with its misread operands reread. */
  lemma RereadRuns(x: Context, e: Expr, m: Machine)
    requires Ready(x, m) && Readable(x, e) && Clean(x.env.callees, e, Whole(RAX))
    requires Depth(e) <= x.lay.depth && CallDepth(e) <= x.lay.calls
    ensures ExpressionRuns(x, ExpressionCode(x.env.callees, x.lay, e), Reread(e), m)
  {
    hide Ready, Code, Readable, WellFormed, Clean, Writes, Reread, ExpressionRuns, Whole;
    RereadForm(x, e);
    RereadNeeds(x.env.callees, e);
    RereadClean(x.env.callees, e, Whole(RAX));
    RereadCode(x.env.callees, x.lay, e, 0, 0);
    ExpressionCorrect(x, Reread(e), m);
  }

  // ----- When that is the source meaning -----

  /** From there the emitted code ends with the source's value, or traps where the source does. */
  ghost predicate Keeps(x: Context, m: Machine, e: Expr)
    requires Ok(m) && |x.snap| == REGS
  {
    && Block(ExpressionCode(x.env.callees, x.lay, e))
    && var m' := Run(x.env, ExpressionCode(x.env.callees, x.lay, e), m);
       match Eval(x.env, e, x.snap, x.vars, Started(m))
       case Fault(_) => m'.stopped
       case Done(v, _) => !m'.stopped && m'.regs[RAX] == Rep(v)
  }

  predicate SameOutcome(a: Result, b: Result) {
    match (a, b)
    case (Done(v, _), Done(w, _)) => Rep(v) == Rep(w)
    case (Fault(_), Fault(_)) => true
    case _ => false
  }

  /** The code of an accepted tree gives its value in a state exactly when the tree has the same value
      with its misread operands reread. */
  lemma KeepsExactly(x: Context, m: Machine, e: Expr)
    requires Ready(x, m) && Readable(x, e) && Clean(x.env.callees, e, Whole(RAX))
    requires Depth(e) <= x.lay.depth && CallDepth(e) <= x.lay.calls
    ensures Ok(m) && |x.snap| == REGS
    ensures Keeps(x, m, e) <==>
            SameOutcome(Eval(x.env, e, x.snap, x.vars, Started(m)), Eval(x.env, Reread(e), x.snap, x.vars, Started(m)))
  {
    hide Ready, ExpressionCode, Readable, Clean, Eval, Rep, Run, Whole, Reread;
    ReadyFacts(x, m, Whole(RAX));
    RereadRuns(x, e, m);
  }

  /** x op reg on a local x of the given type. */
  function Mixed(op: BinOp, left: Ty, reg: Register): Expr {
    Binary(op, Local(0, left), Raw(reg), ResultType(op, left))
  }

  /** The same start with a in the first local and b in the register. */
  function Start(x: Context, reg: Register, a: nat, b: nat): Context
    requires |x.snap| == REGS && |x.vars| > 0 && reg.family < REGS
  {
    x.(snap := x.snap[reg.family := b], vars := x.vars[0 := a])
  }

  function StartMachine(x: Context, m: Machine, reg: Register, a: nat, b: nat): (m': Machine)
    requires Ok(m) && reg.family < REGS && b < W
    ensures Ok(m')
  {
    m.(regs := m.regs[reg.family := b], mem := m.mem[LocalAt(x, 0) := Value(a)])
  }

  ghost predicate KeepsAt(x: Context, m: Machine, op: BinOp, left: Ty, reg: Register, a: nat, b: nat)
    requires Ok(m) && |x.snap| == REGS && |x.vars| > 0 && reg.family < REGS
  {
    a < W && b < W ==> Keeps(Start(x, reg, a, b), StartMachine(x, m, reg, a, b), Mixed(op, left, reg))
  }

  lemma StartIsReady(x: Context, m: Machine, reg: Register, a: nat, b: nat)
    requires Ready(x, m) && |x.vars| > 0 && reg.family < REGS && reg.family != RSP && reg.family != RBP && a < W && b < W
    ensures Ok(m) && |x.snap| == REGS && |x.vars| == x.lay.locals && Ready(Start(x, reg, a, b), StartMachine(x, m, reg, a, b))
  {
  }

  function FieldValue(reg: Register, t: Ty, b: nat): int {
    Wrap(t, Field(b, reg))
  }

  /** The value of x op reg when the register is taken for type t. */
  function ValueAs(op: BinOp, left: Ty, t: Ty, reg: Register, a: nat, b: nat): Option<int> {
    BinValue(op, ResultType(op, left), Wrap(left, a), FieldValue(reg, t, b))
  }

  /** The type the instructions take the register for. */
  function TakenFor(op: BinOp, left: Ty, reg: Register): Ty {
    if Misread(op, left, U(reg.width)) then TakenAs(left) else U(reg.width)
  }

  lemma ReadTwice(reg: Register, left: Ty, b: nat)
    requires left == I(B64) && reg.width == B64 && b < W
    ensures FieldValue(reg, TakenAs(left), b) == Wrap(TakenAs(left), FieldValue(reg, U(B64), b))
  {
  }

  lemma MixedValue(x: Context, op: BinOp, left: Ty, reg: Register, a: nat, b: nat, live: Live)
    requires |x.snap| == REGS && |x.vars| > 0 && reg.family < REGS && |live.regs| == REGS && b < W
    ensures var x' := Start(x, reg, a, b);
            && Eval(x.env, Mixed(op, left, reg), x'.snap, x'.vars, live) == Outcome(ValueAs(op, left, U(reg.width), reg, a, b), live)
            && Eval(x.env, Reread(Mixed(op, left, reg)), x'.snap, x'.vars, live) ==
               Outcome(ValueAs(op, left, TakenFor(op, left, reg), reg, a, b), live)
  {
    hide BinValue, Wrap, Field, TakenAs, ResultType;
    var x', l, r := Start(x, reg, a, b), Local(0, left), Raw(reg);
    assert Reread(l) == l && Reread(r) == r;
    assert Eval(x.env, r, x'.snap, x'.vars, live) == Done(FieldValue(reg, U(reg.width), b), live);
    assert Eval(x.env, l, x'.snap, x'.vars, live) == Done(Wrap(left, a), live);
    if Misread(op, left, U(reg.width)) {
      ReadTwice(reg, left, b);
      var r' := Unary(PosOp, r, TakenAs(left));
      assert Eval(x.env, r', x'.snap, x'.vars, live) == Done(FieldValue(reg, TakenAs(left), b), live);
    }
  }

  function Outcome(v: Option<int>, live: Live): Result {
    match v case None => Fault(live.trace) case Some(n) => Done(n, live)
  }

  lemma MixedReadable(x: Context, op: BinOp, left: Ty, reg: Register)
    requires x.lay.locals > 0 && WellFormedRegister(reg) && SameWidth(left, reg.width)
    ensures var e := Mixed(op, left, reg);
            Readable(x, e) && Clean(x.env.callees, e, Whole(RAX)) && Depth(e) == 2 && CallDepth(e) == 0
  {
    hide Whole;
    var l, r := Local(0, left), Raw(reg);
    assert Readable(x, l) && Readable(x, r) && TypeOf(l) == left && TypeOf(r) == U(reg.width);
  }

  /** So for given contents the source meaning is kept exactly when both readings give one value. */
  lemma KeepsAtExactly(x: Context, m: Machine, op: BinOp, left: Ty, reg: Register, a: nat, b: nat)
    requires Ready(x, m) && |x.vars| > 0 && 2 <= x.lay.depth && a < W && b < W && SameWidth(left, reg.width)
    requires WellFormedRegister(reg) && reg.family != RSP && reg.family != RBP
    ensures Ok(m) && |x.snap| == REGS
    ensures KeepsAt(x, m, op, left, reg, a, b) <==>
            match (ValueAs(op, left, U(reg.width), reg, a, b), ValueAs(op, left, TakenFor(op, left, reg), reg, a, b))
            case (Some(v), Some(w)) => Rep(v) == Rep(w)
            case (None, None) => true
            case _ => false
  {
    hide Ready, Keeps, ValueAs, Eval, Rep, Whole, TakenFor, Mixed, Readable, Clean, Depth, SameWidth;
    StartIsReady(x, m, reg, a, b);
    var x', m' := Start(x, reg, a, b), StartMachine(x, m, reg, a, b);
    MixedReadable(x', op, left, reg);
    ReadyFacts(x', m', Whole(RAX));
    KeepsExactly(x', m', Mixed(op, left, reg));
    MixedValue(x, op, left, reg, a, b, Started(m'));
  }

  /** Contents on which the readings differ: all ones in the register, and -1 or 1 on the left. */
  function Witness(op: BinOp): nat {
    if op == EqOp || op == NeOp then W - 1 else 1
  }

  lemma AllOnes(reg: Register)
    requires reg.width == B64 && !reg.high8
    ensures FieldValue(reg, U(B64), W - 1) == W - 1 && FieldValue(reg, I(B64), W - 1) == -1
  {
  }

  lemma WitnessValue(op: BinOp, left: Ty)
    requires left.I?
    ensures Wrap(left, Witness(op)) == if op == EqOp || op == NeOp then -1 else 1
  {
  }

  /** What the source makes of that. */
  function SourceOutcome(op: BinOp): int {
    if op == EqOp || op == DivOp || op == GtOp || op == GeOp then 0 else 1
  }

  lemma SmallValues(t: Ty)
    requires t.I?
    ensures Wrap(t, 1) == 1 && Wrap(t, 0) == 0 && Wrap(t, -1) == -1
  {
  }

  lemma SourceReading(op: BinOp, left: Ty, reg: Register)
    requires !IsUnit(op) && left.I? && reg.width == B64 && !reg.high8
    ensures ValueAs(op, left, U(B64), reg, Witness(op), W - 1) == Some(SourceOutcome(op))
  {
    hide FieldValue, Witness, Wrap, TruncDiv, BinValue;
    WitnessValue(op, left);
    AllOnes(reg);
    OutcomeAgainst(op, left);
  }

  /** The operations on what the two readings give. */
  lemma OutcomeAgainst(op: BinOp, left: Ty)
    requires !IsUnit(op) && left.I?
    ensures var t, l := ResultType(op, left), if op == EqOp || op == NeOp then -1 else 1;
            && BinValue(op, t, l, W - 1) == Some(SourceOutcome(op))
            && BinValue(op, t, l, -1) == Some(if op == DivOp then -1 else 1 - SourceOutcome(op))
  {
    hide Wrap, TruncDiv, Bits64, Pow2;
    Quotients();
    SmallValues(left);
  }

  lemma Quotients()
    ensures TruncDiv(1, W - 1) == 0 && TruncDiv(1, -1) == -1
  {
  }

  lemma CodeReading(op: BinOp, left: Ty, reg: Register)
    requires !IsUnit(op) && left.I? && reg.width == B64 && !reg.high8
    ensures ValueAs(op, left, I(B64), reg, Witness(op), W - 1) == Some(if op == DivOp then -1 else 1 - SourceOutcome(op))
  {
    hide FieldValue, Witness, Wrap, TruncDiv, BinValue;
    WitnessValue(op, left);
    AllOnes(reg);
    OutcomeAgainst(op, left);
  }

  lemma ReadingsDiffer(op: BinOp, left: Ty, reg: Register)
    requires !IsUnit(op) && left.I? && reg.width == B64 && !reg.high8
    ensures var v := ValueAs(op, left, U(B64), reg, Witness(op), W - 1);
            var w := ValueAs(op, left, I(B64), reg, Witness(op), W - 1);
            v.Some? && w.Some? && Rep(v.value) != Rep(w.value)
  {
    hide ValueAs;
    SourceReading(op, left, reg);
    CodeReading(op, left, reg);
  }

  /** The code of x op reg keeps the source meaning for all contents of x and the register if and only
      if the operation is a sum, product, bit operation or shift, or x is unsigned, or the register
      is narrower than 64 bits. */
  lemma RegisterOperandExact(x: Context, m: Machine, op: BinOp, left: Ty, reg: Register)
    requires Ready(x, m) && |x.vars| > 0 && 2 <= x.lay.depth && SameWidth(left, reg.width)
    requires WellFormedRegister(reg) && reg.family != RSP && reg.family != RBP
    ensures Ok(m) && |x.snap| == REGS
    ensures (forall a: nat, b: nat :: KeepsAt(x, m, op, left, reg, a, b)) <==> IsUnit(op) || !left.I? || reg.width != B64
  {
    hide Ready, Keeps, ValueAs, Rep;
    StartIsReady(x, m, reg, 0, 0);
    if IsUnit(op) || !left.I? || reg.width != B64 {
      forall a: nat, b: nat
        ensures KeepsAt(x, m, op, left, reg, a, b)
      {
        if a < W && b < W {
          KeepsAtExactly(x, m, op, left, reg, a, b);
        }
      }
    } else {
      ReadingsDiffer(op, left, reg);
      KeepsAtExactly(x, m, op, left, reg, Witness(op), W - 1);
      assert !KeepsAt(x, m, op, left, reg, Witness(op), W - 1);
    }
  }

  const RCX64: Register := Register(RCX, B64, false)

  /** For example x == rcx with x: i64, x == -1 and rcx all ones: the source says they differ, the
      code that they are equal. And 1 < rcx holds in the source and not in the code. */
  lemma AllOnesIsMinusOne(x: Context, m: Machine, op: BinOp)
    requires Ready(x, m) && |x.vars| > 0 && 2 <= x.lay.depth && (op == EqOp || op == LtOp)
    requires |x.snap| == REGS && x.vars[0] == Witness(op) && x.snap[RCX] == W - 1
    ensures var e := Mixed(op, I(B64), RCX64);
            var code := ExpressionCode(x.env.callees, x.lay, e);
            && Ok(m) && Block(code)
            && Eval(x.env, e, x.snap, x.vars, Started(m)) == Done(if op == EqOp then 0 else 1, Started(m))
            && !Run(x.env, code, m).stopped && Run(x.env, code, m).regs[RAX] == if op == EqOp then 1 else 0
  {
    hide Ready, ExpressionCode, Run, ValueAs, Eval, Witness, Mixed, Reread, Readable, Clean;
    StartIsReady(x, m, RCX64, 0, 0);
    ReadyFacts(x, m, Whole(RAX));
    MixedReadable(x, op, I(B64), RCX64);
    RereadRuns(x, Mixed(op, I(B64), RCX64), m);
    assert Start(x, RCX64, Witness(op), W - 1) == x by {
      assert x.snap[RCX := W - 1] == x.snap && x.vars[0 := Witness(op)] == x.vars;
    }
    MixedValue(x, op, I(B64), RCX64, Witness(op), W - 1, Started(m));
    SourceReading(op, I(B64), RCX64);
    CodeReading(op, I(B64), RCX64);
  }
}
