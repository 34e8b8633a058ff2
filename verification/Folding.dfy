/** Constant folding in the type checker: which trees are folded, at which value, and when loading
    that value is the same as running the operations. */
module Folding {
  import opened Words
  import opened X86
  import opened Codegen
  import opened Operations
  import opened Simulation
  import opened ExpressionProof
  import opened MixedOperands

  type Word = n: nat | n < W

  /** Expressions as parsed. NegLit is a literal under a minus, Sign any other unary operation, Direct
      a raw register; Other stands for a name or a call, already typed. */
  datatype Tree = Lit(value: Word) | NegLit(value: Word) | BoolLit(truth: bool) | Direct(reg: Register) | Other(expr: Expr)
                | Sign(sign: UnOp, operand: Tree) | Bin(op: BinOp, left: Tree, right: Tree)

  function Negated(n: int): int {
    -n
  }

  datatype Constant = Constant(value: Word, negative: bool)
  {
    function Number(): int { if negative then Negated(value) else value }
  }

  function Nonneg(n: int): Option<Constant> {
    if 0 <= n < W then Some(Constant(n, false)) else None
  }

  /** The folder works on 64-bit magnitudes. It gives up on negative operands and on overflow, but
      a left shift drops the bits that leave the word. */
  function Fold(op: BinOp, l: Word, r: Word): Option<Constant> {
    match op
    case AddOp => Nonneg(l + r)
    case SubOp => Some(if l < r then Constant(r - l, true) else Constant(l - r, false))
    case MulOp => Nonneg(l * r)
    case DivOp => if r == 0 then None else Nonneg(l / r)
    case ModOp => if r == 0 then None else Nonneg(l % r)
    case AndB => Nonneg(Bits64(And, l, r))
    case OrB => Nonneg(Bits64(Or, l, r))
    case XorB => Nonneg(Bits64(Xor, l, r))
    case ShlOp => if r >= 64 then None else Nonneg(l * Pow2(r) % W)
    case ShrOp => if r >= 64 then None else Nonneg(l / Pow2(r))
    case _ => Nonneg(Compare(op, l, r))
  }

  function FoldSign(op: UnOp, c: Constant): Option<Constant> {
    match op
    case PosOp => Some(c)
    case NegOp => if c.negative then None else Some(Constant(c.value, c.value != 0))
    case NotOp => Some(Constant(W - 1 - c.value, false))
  }

  function ConstantOf(t: Tree): Option<Constant> {
    match t
    case Lit(v) => Some(Constant(v, false))
    case NegLit(v) => Some(Constant(v, v != 0))
    case BoolLit(b) => Some(Constant(if b then 1 else 0, false))
    case Direct(_) => None
    case Other(_) => None
    case Sign(op, x) => (match ConstantOf(x) case None => None case Some(c) => FoldSign(op, c))
    case Bin(op, l, r) =>
      var a, b := ConstantOf(l), ConstantOf(r);
      if a.None? || b.None? || a.value.negative || b.value.negative then None
      else Fold(op, a.value.value, b.value.value)
  }

  predicate Integer(t: Ty) {
    t.U? || t.I?
  }

  predicate LiteralFits(t: Ty, value: nat, negative: bool) {
    match t
    case U(w) => !negative && value < Size(w)
    case I(w) => if negative then value <= Half(w) else value < Half(w)
    case _ => false
  }

  predicate Meets(e: Expr, expected: Option<Ty>) {
    expected.Some? ==> TypeOf(e) == expected.value
  }

  /** A register only has to have the expected width. */
  predicate WidthMeets(reg: Register, expected: Option<Ty>) {
    expected.Some? ==> SameWidth(expected.value, reg.width)
  }

  function LeftExpected(op: BinOp, expected: Option<Ty>): Option<Ty> {
    if IsComparison(op) then None else expected
  }

  /** The typed tree, or None when a diagnostic is given. The case of unary operations ends in that
      of string initialisers, which a scalar never is. With fold, constants replace the
      operations that make them, as in generated code. A folded value is held against the expected
      type if there is one, never against the type of its node. */
  function Typed(t: Tree, expected: Option<Ty>, fold: bool): Option<Expr> {
    match t
    case Lit(v) =>
      var ty := if expected.Some? then expected.value else U(B64);
      if LiteralFits(ty, v, false) then Some(Const(v, ty)) else None
    case NegLit(v) =>
      var ty := if expected.Some? && Integer(expected.value) then expected.value else I(B64);
      if LiteralFits(ty, v, true)
      then Some(if fold then Const(Rep(Negated(v)), ty) else Unary(NegOp, Const(v, ty), ty)) else None
    case BoolLit(b) =>
      if expected.Some? && expected.value != Bool then None else Some(Const(if b then 1 else 0, Bool))
    case Direct(reg) => if WidthMeets(reg, expected) then Some(Raw(reg)) else None
    case Other(e) => if Meets(e, expected) then Some(e) else None
    case Sign(_, _) => None
    case Bin(op, l, r) =>
      var a := Typed(l, LeftExpected(op, expected), fold);
      if a.None? then None
      else
        var b := Typed(r, Some(TypeOf(a.value)), fold);
        var c, ty := ConstantOf(t), if IsComparison(op) then Bool else TypeOf(a.value);
        if b.None? then None
        else if c.Some? then
          if expected.Some? && !LiteralFits(expected.value, c.value.value, c.value.negative) then None
          else Some(if fold then Const(Rep(c.value.Number()), ty) else Binary(op, a.value, b.value, ty))
        else if (op == DivOp || op == ModOp) && ConstantOf(r).Some? && ConstantOf(r).value.value == 0 then None
        else Some(Binary(op, a.value, b.value, ty))
  }

  /** Folding changes neither which trees are accepted nor their types. */
  lemma {:induction false} SameTypes(t: Tree, expected: Option<Ty>)
    ensures Typed(t, expected, true).Some? <==> Typed(t, expected, false).Some?
    ensures Typed(t, expected, false).Some? ==>
              TypeOf(Typed(t, expected, true).value) == TypeOf(Typed(t, expected, false).value)
  {
    if t.Bin? {
      var left := LeftExpected(t.op, expected);
      SameTypes(t.left, left);
      if Typed(t.left, left, false).Some? {
        SameTypes(t.right, Some(TypeOf(Typed(t.left, left, false).value)));
      }
    }
  }

  function RightExpected(t: Tree, expected: Option<Ty>): Option<Ty>
    requires t.Bin? && Typed(t, expected, false).Some?
  {
    Some(TypeOf(Typed(t.left, LeftExpected(t.op, expected), false).value))
  }

  // ----- When folding is exact -----

  /** Every constant is a value of the type that its node got. */
  predicate Fitting(t: Tree, expected: Option<Ty>)
    requires Typed(t, expected, false).Some?
  {
    && (ConstantOf(t).Some? ==> InRange(TypeOf(Typed(t, expected, false).value), ConstantOf(t).value.Number()))
    && (t.Bin? ==> Fitting(t.left, LeftExpected(t.op, expected)) && Fitting(t.right, RightExpected(t, expected)))
  }

  /** Every constant is the value that the operations it replaces compute. */
  ghost predicate Exact(env: Env, t: Tree, expected: Option<Ty>, snap: seq<nat>, vars: seq<nat>, live: Live)
    requires Typed(t, expected, false).Some? && |snap| == REGS && |live.regs| == REGS
  {
    && (ConstantOf(t).Some? ==>
          Eval(env, Typed(t, expected, false).value, snap, vars, live) == Done(ConstantOf(t).value.Number(), live))
    && (t.Bin? ==> Exact(env, t.left, LeftExpected(t.op, expected), snap, vars, live)
                   && Exact(env, t.right, RightExpected(t, expected), snap, vars, live))
  }

  lemma CutNear(w: Width, n: int)
    requires Negated(Size(w)) <= n < Size(w)
    ensures Cut(n, w) == if n < 0 then n + Size(w) else n
  {
  }

  lemma LiteralInRange(t: Ty, value: Word, negative: bool)
    requires LiteralFits(t, value, negative)
    ensures InRange(t, Constant(value, negative).Number())
  {
    hide Cut;
    CutNear(t.width, Constant(value, negative).Number());
  }

  lemma NegatedLiteral(t: Ty, v: nat)
    requires LiteralFits(t, v, true)
    ensures UnValue(NegOp, t, Wrap(t, v)) == Negated(v)
  {
    hide Cut;
    CutNear(t.width, v);
    CutNear(t.width, Negated(v));
  }

  lemma RepSmall(v: nat)
    requires v < W
    ensures Rep(v) == v
  {
  }

  lemma QuotientBelow(l: nat, r: nat)
    requires r > 0
    ensures TruncDiv(l, r) == l / r && l - l / r * r == l % r
  {
    assert l == r * (l / r) + l % r;
    assert l / r * r == r * (l / r);
  }

  /** One operation on constants: what it computes is the folded number cut to the type. */
  lemma FoldStep(op: BinOp, t: Ty, l: Word, r: Word)
    requires Fold(op, l, r).Some?
    ensures BinValue(op, t, l, r) ==
            Some(if IsComparison(op) then Compare(op, l, r) else Wrap(t, Fold(op, l, r).value.Number()))
    ensures IsComparison(op) ==> Fold(op, l, r).value.Number() == Compare(op, l, r) && InRange(Bool, Compare(op, l, r))
  {
    hide Cut, Bits64, Number, Pow2, TruncDiv, Half, Size, Bits;
    RepSmall(l);
    RepSmall(r);
    if op == ShlOp {
      WrapRep(t, l * Pow2(r));
    } else if op == DivOp || op == ModOp {
      QuotientBelow(l, r);
    }
  }

  /** Constant folding is exact if and only if every folded number is a value of its node's type. */
  lemma {:induction false} FoldIsExact(env: Env, t: Tree, expected: Option<Ty>, snap: seq<nat>, vars: seq<nat>, live: Live)
    requires Typed(t, expected, false).Some? && |snap| == REGS && |live.regs| == REGS
    ensures Exact(env, t, expected, snap, vars, live) <==> Fitting(t, expected)
  {
    hide Wrap, Fold, BinValue, UnValue, Compare, LiteralFits;
    match t
    case Lit(v) => LiteralInRange(TypeOf(Typed(t, expected, false).value), v, false);
    case NegLit(v) =>
      var ty := TypeOf(Typed(t, expected, false).value);
      LiteralInRange(ty, v, true);
      NegatedLiteral(ty, v);
      assert Eval(env, Const(v, ty), snap, vars, live) == Done(Wrap(ty, v), live);
      assert Eval(env, Unary(NegOp, Const(v, ty), ty), snap, vars, live) == Done(Negated(v), live);
    case BoolLit(_) =>
    case Direct(_) =>
    case Other(_) =>
    case Bin(op, l, r) =>
      FoldIsExact(env, l, LeftExpected(op, expected), snap, vars, live);
      FoldIsExact(env, r, RightExpected(t, expected), snap, vars, live);
      if ConstantOf(t).Some? && Exact(env, l, LeftExpected(op, expected), snap, vars, live)
         && Exact(env, r, RightExpected(t, expected), snap, vars, live) {
        FoldStep(op, TypeOf(Typed(t, expected, false).value), ConstantOf(l).value.value, ConstantOf(r).value.value);
      }
  }

  /** Where every constant fits, folding refines execution: the folded tree does what the tree as
      written does, with registers, locals and calls among its operands. */
  lemma {:induction false} FoldRefines(env: Env, t: Tree, expected: Option<Ty>, snap: seq<nat>, vars: seq<nat>, live: Live)
    requires Typed(t, expected, false).Some? && |snap| == REGS && |live.regs| == REGS && Fitting(t, expected)
    ensures Typed(t, expected, true).Some?
    ensures Eval(env, Typed(t, expected, true).value, snap, vars, live) ==
            Eval(env, Typed(t, expected, false).value, snap, vars, live)
  {
    SameTypes(t, expected);
    if ConstantOf(t).Some? {
      FoldIsExact(env, t, expected, snap, vars, live);
      ConstantLoads(env, t, expected, snap, vars, live);
    } else if t.Bin? {
      SameTypes(t.left, LeftExpected(t.op, expected));
      FoldRefines(env, t.left, LeftExpected(t.op, expected), snap, vars, live);
      var left := Eval(env, Typed(t.left, LeftExpected(t.op, expected), false).value, snap, vars, live);
      if left.Done? {
        FoldRefines(env, t.right, RightExpected(t, expected), snap, vars, left.live);
      }
    }
  }

  lemma ConstantLoads(env: Env, t: Tree, expected: Option<Ty>, snap: seq<nat>, vars: seq<nat>, live: Live)
    requires Typed(t, expected, false).Some? && |snap| == REGS && |live.regs| == REGS && ConstantOf(t).Some?
    requires Fitting(t, expected)
    ensures Typed(t, expected, true).Some?
    ensures Typed(t, expected, true).value ==
            Const(Rep(ConstantOf(t).value.Number()), TypeOf(Typed(t, expected, false).value))
    ensures Eval(env, Typed(t, expected, true).value, snap, vars, live) == Done(ConstantOf(t).value.Number(), live)
  {
    SameTypes(t, expected);
    WrapRep(TypeOf(Typed(t, expected, false).value), ConstantOf(t).value.Number());
    RepSmall(ConstantOf(t).value.value);
  }

  // ----- The constant that is loaded -----

  /** The constant of t when every number on the way is cut to the type of its node; none when that
      makes a divisor zero or a quotient too large. */
  function CutFold(t: Tree, expected: Option<Ty>): Option<int>
    requires Typed(t, expected, false).Some? && ConstantOf(t).Some?
  {
    match t
    case Bin(op, l, r) =>
      (match CutFold(l, LeftExpected(op, expected))
       case None => None
       case Some(a) =>
         match CutFold(r, RightExpected(t, expected))
         case None => None
         case Some(b) => BinValue(op, TypeOf(Typed(t, expected, false).value), a, b))
    case _ => Some(ConstantOf(t).value.Number())
  }

  lemma {:induction false} OperationsCut(env: Env, t: Tree, expected: Option<Ty>, snap: seq<nat>, vars: seq<nat>, live: Live)
    requires Typed(t, expected, false).Some? && ConstantOf(t).Some? && |snap| == REGS && |live.regs| == REGS
    ensures Eval(env, Typed(t, expected, false).value, snap, vars, live) ==
            match CutFold(t, expected) case None => Fault(live.trace) case Some(v) => Done(v, live)
  {
    hide Wrap, Fold, BinValue, UnValue, Compare, LiteralFits;
    match t
    case Bin(op, l, r) =>
      OperationsCut(env, l, LeftExpected(op, expected), snap, vars, live);
      OperationsCut(env, r, RightExpected(t, expected), snap, vars, live);
    case _ =>
      FoldIsExact(env, t, expected, snap, vars, live);
      LeafFits(t, expected);
  }

  lemma LeafFits(t: Tree, expected: Option<Ty>)
    requires Typed(t, expected, false).Some? && !t.Bin?
    ensures Fitting(t, expected)
  {
    hide LiteralFits;
    match t
    case Lit(v) => LiteralInRange(TypeOf(Typed(t, expected, false).value), v, false);
    case NegLit(v) => LiteralInRange(TypeOf(Typed(t, expected, false).value), v, true);
    case _ =>
  }

  /** The constant that is loaded for a tree is the value its operations compute if and only if the
      folded number, cut to the tree's type, is the number that cutting at every node gives. */
  lemma LoadedIsExact(env: Env, t: Tree, expected: Option<Ty>, snap: seq<nat>, vars: seq<nat>, live: Live)
    requires Typed(t, expected, false).Some? && ConstantOf(t).Some? && |snap| == REGS && |live.regs| == REGS
    ensures Typed(t, expected, true).Some?
    ensures Eval(env, Typed(t, expected, true).value, snap, vars, live) == Eval(env, Typed(t, expected, false).value, snap, vars, live) <==>
            CutFold(t, expected) == Some(Wrap(TypeOf(Typed(t, expected, false).value), ConstantOf(t).value.Number()))
  {
    hide Eval, CutFold, Wrap;
    OperationsCut(env, t, expected, snap, vars, live);
    LoadedNumber(env, t, expected, snap, vars, live);
  }

  /** One modulus for each type. */
  function Modulus(t: Ty): (m: nat)
    ensures m > 0
  {
    match t case U(w) => Size(w) case I(w) => Size(w) case Bool => 2 case Ptr => W
  }

  lemma WrapDiffers(t: Ty, n: int) returns (k: int)
    ensures Wrap(t, n) == n + k * Modulus(t)
  {
    var m, r := Modulus(t), n % Modulus(t);
    assert n == m * (n / m) + r;
    k := if t.I? && r >= Half(t.width) then -1 - n / m else -(n / m);
    assert -(n / m) * m == -(m * (n / m)) && (-1 - n / m) * m == -m - m * (n / m);
  }

  lemma WrapMore(t: Ty, n: int, k: int)
    ensures Wrap(t, n + k * Modulus(t)) == Wrap(t, n)
  {
    ModAdd(n, k, Modulus(t));
  }

  predicate IsRing(op: BinOp) {
    op == AddOp || op == SubOp || op == MulOp
  }

  function RingValue(op: BinOp, l: int, r: int): int {
    if op == AddOp then l + r else if op == SubOp then l - r else l * r
  }

  /** Sums, differences and products may be cut before or after. */
  lemma RingCut(op: BinOp, t: Ty, l: int, r: int)
    requires IsRing(op)
    ensures Wrap(t, RingValue(op, Wrap(t, l), Wrap(t, r))) == Wrap(t, RingValue(op, l, r))
  {
    hide Wrap, Modulus;
    var m := Modulus(t);
    var j := WrapDiffers(t, l);
    var k := WrapDiffers(t, r);
    if op == AddOp {
      assert (l + j * m) + (r + k * m) == l + r + (j + k) * m;
      WrapMore(t, l + r, j + k);
    } else if op == SubOp {
      assert (l + j * m) - (r + k * m) == l - r + (j - k) * m;
      WrapMore(t, l - r, j - k);
    } else {
      assert (l + j * m) * (r + k * m) == l * r + (l * k + j * r + j * k * m) * m;
      WrapMore(t, l * r, l * k + j * r + j * k * m);
    }
  }

  predicate FitsNode(t: Tree, expected: Option<Ty>)
    requires Typed(t, expected, false).Some? && ConstantOf(t).Some?
  {
    InRange(TypeOf(Typed(t, expected, false).value), ConstantOf(t).value.Number())
  }

  /** Both operands fit their types, short of those of sums, differences and products of one type. */
  predicate OperandsFit(t: Tree, expected: Option<Ty>)
    requires Typed(t, expected, false).Some? && ConstantOf(t).Some?
  {
    t.Bin? ==>
      var l, r := LeftExpected(t.op, expected), RightExpected(t, expected);
      && OperandsFit(t.left, l) && OperandsFit(t.right, r)
      && ((IsRing(t.op) && TypeOf(Typed(t.left, l, false).value) == TypeOf(Typed(t.right, r, false).value))
          || (FitsNode(t.left, l) && FitsNode(t.right, r)))
  }

  lemma FoldRing(op: BinOp, l: Word, r: Word)
    requires IsRing(op) && Fold(op, l, r).Some?
    ensures Fold(op, l, r).value.Number() == RingValue(op, l, r)
  {
  }

  lemma {:induction false} CutsBack(t: Tree, expected: Option<Ty>)
    requires Typed(t, expected, false).Some? && ConstantOf(t).Some? && OperandsFit(t, expected)
    ensures CutFold(t, expected) == Some(Wrap(TypeOf(Typed(t, expected, false).value), ConstantOf(t).value.Number()))
    decreases t
  {
    hide Wrap, Fold, Compare, LiteralFits, RingValue;
    if t.Bin? {
      var l, r := LeftExpected(t.op, expected), RightExpected(t, expected);
      CutsBack(t.left, l);
      CutsBack(t.right, r);
      NodeCuts(t, expected);
    } else {
      LeafFits(t, expected);
    }
  }

  lemma NodeCuts(t: Tree, expected: Option<Ty>)
    requires t.Bin? && Typed(t, expected, false).Some? && ConstantOf(t).Some? && OperandsFit(t, expected)
    ensures var a := Wrap(TypeOf(Typed(t.left, LeftExpected(t.op, expected), false).value), ConstantOf(t.left).value.Number());
            var b := Wrap(TypeOf(Typed(t.right, RightExpected(t, expected), false).value), ConstantOf(t.right).value.Number());
            var ty := TypeOf(Typed(t, expected, false).value);
            BinValue(t.op, ty, a, b) == Some(Wrap(ty, ConstantOf(t).value.Number()))
  {
    hide Wrap, Fold, Compare, LiteralFits, RingValue, OperandsFit;
    var ty, a, b := TypeOf(Typed(t, expected, false).value), ConstantOf(t.left).value, ConstantOf(t.right).value;
    if FitsNode(t.left, LeftExpected(t.op, expected)) && FitsNode(t.right, RightExpected(t, expected)) {
      FoldStep(t.op, ty, a.value, b.value);
    } else {
      RingFits(t, expected);
      FoldRing(t.op, a.value, b.value);
      RingCut(t.op, ty, a.value, b.value);
      RingIs(t.op, ty, Wrap(ty, a.value), Wrap(ty, b.value));
    }
  }

  lemma RingFits(t: Tree, expected: Option<Ty>)
    requires t.Bin? && Typed(t, expected, false).Some? && ConstantOf(t).Some? && OperandsFit(t, expected)
    requires !(FitsNode(t.left, LeftExpected(t.op, expected)) && FitsNode(t.right, RightExpected(t, expected)))
    ensures IsRing(t.op)
    ensures var l, r := Typed(t.left, LeftExpected(t.op, expected), false).value, Typed(t.right, RightExpected(t, expected), false).value;
            TypeOf(l) == TypeOf(r) == TypeOf(Typed(t, expected, false).value)
  {
    hide Fold, LiteralFits, FitsNode;
  }

  lemma RingIs(op: BinOp, t: Ty, l: int, r: int)
    requires IsRing(op)
    ensures BinValue(op, t, l, r) == Some(Wrap(t, RingValue(op, l, r)))
  {
    hide Wrap;
  }

  /** A condition on the operands alone: what the tree loads is what its operations compute if every
      operand of a division, comparison, bit operation or shift is a value of its type. The inner
      sums, differences and products may be out of range. */
  lemma LoadedWhenOperandsFit(env: Env, t: Tree, expected: Option<Ty>, snap: seq<nat>, vars: seq<nat>, live: Live)
    requires Typed(t, expected, false).Some? && ConstantOf(t).Some? && |snap| == REGS && |live.regs| == REGS
    requires OperandsFit(t, expected)
    ensures Typed(t, expected, true).Some?
    ensures Eval(env, Typed(t, expected, true).value, snap, vars, live) == Eval(env, Typed(t, expected, false).value, snap, vars, live)
  {
    hide Eval, CutFold, Wrap, OperandsFit, ConstantOf, Typed;
    CutsBack(t, expected);
    LoadedIsExact(env, t, expected, snap, vars, live);
  }

  lemma LoadedNumber(env: Env, t: Tree, expected: Option<Ty>, snap: seq<nat>, vars: seq<nat>, live: Live)
    requires Typed(t, expected, false).Some? && ConstantOf(t).Some? && |snap| == REGS && |live.regs| == REGS
    ensures Typed(t, expected, true).Some?
    ensures Eval(env, Typed(t, expected, true).value, snap, vars, live) ==
            Done(Wrap(TypeOf(Typed(t, expected, false).value), ConstantOf(t).value.Number()), live)
  {
    hide Wrap;
    SameTypes(t, expected);
    WrapRep(TypeOf(Typed(t, expected, false).value), ConstantOf(t).value.Number());
    RepSmall(ConstantOf(t).value.value);
  }

  /** So does the code generated for it: it ends as the unfolded tree evaluates. */
  lemma FoldedCodeRuns(x: Context, t: Tree, expected: Option<Ty>, dirt: set<Part>, m: X86.Machine, live: Live, s: nat, c: nat)
    requires Typed(t, expected, false).Some? && Typed(t, expected, true).Some? && |x.snap| == REGS && |live.regs| == REGS
    requires Fitting(t, expected)
    requires var e := Typed(t, expected, true).value;
             && WellFormed(x, e) && Fits(x, e, s, c) && Running(Dirty(x, dirt), m, live)
             && Clean(x.env.callees, e, dirt) && dirt + Writes(x.env.callees, e) <= x.dirt
    ensures var e := Typed(t, expected, true).value;
            Simulates(x, Code(x.env.callees, x.lay, e, s, c), m,
                      Eval(x.env, Typed(t, expected, false).value, x.snap, x.vars, live), TypeOf(e), s, c)
  {
    FoldRefines(x.env, t, expected, x.snap, x.vars, live);
    CodeSimulates(x, Typed(t, expected, true).value, dirt, m, live, s, c);
  }

  /** With an expected integer type, acceptance alone makes the condition hold for trees without
      comparisons: the check against the expected type is then a check against every node's type. */
  predicate Arithmetic(t: Tree) {
    match t
    case Bin(op, l, r) => !IsComparison(op) && Arithmetic(l) && Arithmetic(r)
    case Direct(_) => false
    case _ => true
  }

  lemma {:induction false} ArithmeticFits(t: Tree, ty: Ty)
    requires Integer(ty) && Arithmetic(t) && Typed(t, Some(ty), false).Some?
    ensures TypeOf(Typed(t, Some(ty), false).value) == ty && Fitting(t, Some(ty))
  {
    hide Wrap, Fold, LiteralFits;
    match t
    case Lit(v) => LiteralInRange(ty, v, false);
    case NegLit(v) => LiteralInRange(ty, v, true);
    case BoolLit(_) =>
    case Other(_) =>
    case Bin(op, l, r) =>
      ArithmeticFits(l, ty);
      ArithmeticFits(r, ty);
      if ConstantOf(t).Some? {
        LiteralInRange(ty, ConstantOf(t).value.value, ConstantOf(t).value.negative);
      }
  }

  // ----- What is accepted, and what of it the code is right for -----

  /** No unary operation but the minus of a literal. */
  predicate Unsigned(t: Tree) {
    match t
    case Sign(_, _) => false
    case Bin(_, l, r) => Unsigned(l) && Unsigned(r)
    case _ => true
  }

  /** A tree with any other unary operation, anywhere in it, is refused. */
  lemma {:induction false} UnaryRefused(t: Tree, expected: Option<Ty>, fold: bool)
    requires !Unsigned(t)
    ensures Typed(t, expected, fold).None?
    decreases t
  {
    if t.Bin? {
      if Unsigned(t.left) {
        var a := Typed(t.left, LeftExpected(t.op, expected), fold);
        if a.Some? {
          UnaryRefused(t.right, Some(TypeOf(a.value)), fold);
        }
      } else {
        UnaryRefused(t.left, LeftExpected(t.op, expected), fold);
      }
    }
  }

  /** What is accepted where a type is expected need not be of that type. */
  lemma {:induction false} TypedIsAccepted(t: Tree, ty: Ty, fold: bool)
    requires Typed(t, Some(ty), fold).Some?
    ensures Accepts(ty, TypeOf(Typed(t, Some(ty), fold).value))
    decreases t
  {
    hide Fold, LiteralFits, ConstantOf;
    match t
    case Lit(v) => LiteralTypes(ty, v, false);
    case NegLit(v) =>
    case BoolLit(_) =>
    case Direct(_) =>
    case Other(_) =>
    case Bin(op, l, r) =>
      if !IsComparison(op) {
        TypedIsAccepted(l, ty, fold);
      }
  }

  lemma LiteralTypes(t: Ty, value: nat, negative: bool)
    requires LiteralFits(t, value, negative)
    ensures Integer(t)
  {
  }

  /** Registers exist, and names and calls are well formed. */
  ghost predicate LeavesFine(x: Context, t: Tree) {
    match t
    case Direct(reg) => WellFormedRegister(reg)
    case Other(e) => WellFormed(x, e)
    case Bin(_, l, r) => LeavesFine(x, l) && LeavesFine(x, r)
    case _ => true
  }

  /** Every constant that is loaded is the word of a value of its type. */
  predicate LoadsNormal(t: Tree, expected: Option<Ty>)
    requires Typed(t, expected, true).Some?
  {
    var e := Typed(t, expected, true).value;
    if ConstantOf(t).Some? then Normalize(TypeOf(e), Rep(ConstantOf(t).value.Number())) == Rep(ConstantOf(t).value.Number())
    else t.Bin? ==> LoadsNormal(t.left, LeftExpected(t.op, expected)) && LoadsNormal(t.right, Some(TypeOf(e.left)))
  }

  /** Some operation of the code reads its right operand with the wrong sign. */
  predicate Misreads(t: Tree, expected: Option<Ty>)
    requires Typed(t, expected, true).Some?
  {
    var e := Typed(t, expected, true).value;
    ConstantOf(t).None? && t.Bin? &&
    (Misread(t.op, TypeOf(e.left), TypeOf(e.right)) || Misreads(t.left, LeftExpected(t.op, expected))
     || Misreads(t.right, Some(TypeOf(e.left))))
  }

  /** An accepted tree as it is generated has the form that the correctness of its code asks for if
      and only if its loaded constants are values of their types and no operand is misread. */
  lemma {:induction false} CoveredExactly(x: Context, t: Tree, expected: Option<Ty>)
    requires Typed(t, expected, true).Some? && LeavesFine(x, t)
    ensures WellFormed(x, Typed(t, expected, true).value) <==> LoadsNormal(t, expected) && !Misreads(t, expected)
    decreases t
  {
    hide Fold, LiteralFits, Normalize, Misread, OperandTypes, Accepts;
    if ConstantOf(t).Some? {
      LoadedForm(t, expected);
    } else if t.Bin? {
      var e := Typed(t, expected, true).value;
      CoveredExactly(x, t.left, LeftExpected(t.op, expected));
      CoveredExactly(x, t.right, Some(TypeOf(e.left)));
      TypedIsAccepted(t.right, TypeOf(e.left), true);
      MisreadIs(t.op, TypeOf(e.left), TypeOf(e.right));
    }
  }

  ghost predicate LeavesReadable(x: Context, t: Tree) {
    match t
    case Direct(reg) => WellFormedRegister(reg)
    case Other(e) => Readable(x, e)
    case Bin(_, l, r) => LeavesReadable(x, l) && LeavesReadable(x, r)
    case _ => true
  }

  /** Misread operands or not: an accepted tree has the form for which RereadRuns says what its code
      does if and only if its loaded constants are values of their types. */
  lemma {:induction false} AcceptedReadable(x: Context, t: Tree, expected: Option<Ty>)
    requires Typed(t, expected, true).Some? && LeavesReadable(x, t)
    ensures Readable(x, Typed(t, expected, true).value) <==> LoadsNormal(t, expected)
    decreases t
  {
    hide Fold, LiteralFits, Normalize, Accepts;
    if ConstantOf(t).Some? {
      LoadedForm(t, expected);
    } else if t.Bin? {
      var e := Typed(t, expected, true).value;
      AcceptedReadable(x, t.left, LeftExpected(t.op, expected));
      AcceptedReadable(x, t.right, Some(TypeOf(e.left)));
      TypedIsAccepted(t.right, TypeOf(e.left), true);
    }
  }

  lemma LoadedForm(t: Tree, expected: Option<Ty>)
    requires Typed(t, expected, true).Some? && ConstantOf(t).Some?
    ensures Typed(t, expected, true).value.Const?
    ensures Typed(t, expected, true).value.value == Rep(ConstantOf(t).value.Number())
  {
    hide Fold, LiteralFits;
    RepSmall(ConstantOf(t).value.value);
    if t.Sign? {
      UnaryRefused(t, expected, true);
    }
  }

  /** A register is accepted on the right of any operand of its width. */
  lemma RegisterAccepted(op: BinOp, left: Ty, reg: Register, fold: bool)
    requires SameWidth(left, reg.width)
    ensures Typed(Bin(op, Other(Local(0, left)), Direct(reg)), None, fold) == Some(Mixed(op, left, reg))
  {
    var l, r := Other(Local(0, left)), Direct(reg);
    assert Typed(l, LeftExpected(op, None), fold) == Some(Local(0, left));
    assert Typed(r, Some(left), fold) == Some(Raw(reg));
    assert ConstantOf(Bin(op, l, r)) == None && ConstantOf(r) == None;
  }

  /** flag < -5 is accepted, and the -5 is read as a number far above. */
  lemma NegativeAgainstBool()
    ensures var t := Bin(LtOp, Other(Local(0, Bool)), NegLit(5));
            && Typed(t, None, true) == Some(Binary(LtOp, Local(0, Bool), Const(W - 5, I(B64)), Bool))
            && Misreads(t, None)
  {
    var t := Bin(LtOp, Other(Local(0, Bool)), NegLit(5));
    assert Typed(t.right, Some(Bool), true) == Some(Const(W - 5, I(B64)));
    assert Typed(t.left, None, true) == Some(Local(0, Bool));
  }

  // ----- Where it is not exact -----

  /** On the left of a comparison nothing is expected: true + true folds to 2, a boolean that the
      operations would have made 0. */
  lemma BooleanSumFoldsToTwo(env: Env, snap: seq<nat>, vars: seq<nat>, live: Live)
    requires |snap| == REGS && |live.regs| == REGS
    ensures var sum := Bin(AddOp, BoolLit(true), BoolLit(true));
            && Typed(Bin(EqOp, sum, Other(Local(0, Bool))), None, true) ==
               Some(Binary(EqOp, Const(2, Bool), Local(0, Bool), Bool))
            && Typed(sum, None, false).Some?
            && Eval(env, Typed(sum, None, false).value, snap, vars, live) == Done(0, live)
  {
  }

  /** A leading -0 makes the operands of a comparison signed: M + M folds to 2M, no value of i64,
      and half of that is M where the operations give -1. */
  lemma SignedSumFoldsTooFar(env: Env, snap: seq<nat>, vars: seq<nat>, live: Live)
    requires |snap| == REGS && |live.regs| == REGS
    ensures var half := Bin(DivOp, Bin(AddOp, Bin(AddOp, NegLit(0), Lit(HALF - 1)), Lit(HALF - 1)), Lit(2));
            && Typed(half, None, true) == Some(Const(HALF - 1, I(B64)))
            && Typed(half, None, false).Some?
            && Eval(env, Typed(half, None, false).value, snap, vars, live) == Done(-1, live)
  {
    var m := Bin(AddOp, NegLit(0), Lit(HALF - 1));
    var sum := Bin(AddOp, m, Lit(HALF - 1));
    var minus, lit := Unary(NegOp, Const(0, I(B64)), I(B64)), Const(HALF - 1, I(B64));
    assert Typed(NegLit(0), None, false) == Some(minus) && Typed(Lit(HALF - 1), Some(I(B64)), false) == Some(lit);
    assert ConstantOf(m) == Some(Constant(HALF - 1, false));
    assert Typed(m, None, false) == Some(Binary(AddOp, minus, lit, I(B64)));
    assert ConstantOf(sum) == Some(Constant(2 * HALF - 2, false));
    assert Typed(sum, None, false) == Some(Binary(AddOp, Binary(AddOp, minus, lit, I(B64)), lit, I(B64)));
    assert Eval(env, minus, snap, vars, live) == Done(0, live) && Eval(env, lit, snap, vars, live) == Done(HALF - 1, live);
    assert Eval(env, Typed(m, None, false).value, snap, vars, live) == Done(HALF - 1, live);
    assert Eval(env, Typed(sum, None, false).value, snap, vars, live) == Done(-2, live);
    SameTypes(sum, None);
    assert Fold(DivOp, 2 * HALF - 2, 2) == Some(Constant(HALF - 1, false));
    assert ConstantOf(Lit(2)) == Some(Constant(2, false)) && Typed(Lit(2), Some(I(B64)), false).Some?;
    assert ConstantOf(Bin(DivOp, sum, Lit(2))) == Some(Constant(HALF - 1, false));
    SameTypes(Bin(DivOp, sum, Lit(2)), None);
  }

  lemma OneSum(op: BinOp, l: Tree, r: Word)
    requires IsRing(op) && Typed(Bin(op, l, Lit(r)), None, false).Some? && ConstantOf(Bin(op, l, Lit(r))).Some?
    requires ConstantOf(l).Some? && Typed(l, None, false).Some? && OperandsFit(l, None)
    requires TypeOf(Typed(l, None, false).value) == I(B64)
    ensures OperandsFit(Bin(op, l, Lit(r)), None)
  {
    hide Fold, FitsNode;
    assert RightExpected(Bin(op, l, Lit(r)), None) == Some(I(B64));
    assert OperandsFit(Lit(r), Some(I(B64)));
  }

  /** But M + M - M loads M, which is what the operations make of it: its inner sum is no value of
      i64 and is never loaded. */
  lemma OutOfRangeOnTheWay(env: Env, snap: seq<nat>, vars: seq<nat>, live: Live)
    requires |snap| == REGS && |live.regs| == REGS
    ensures var t := Bin(SubOp, Bin(AddOp, Bin(AddOp, NegLit(0), Lit(HALF - 1)), Lit(HALF - 1)), Lit(HALF - 1));
            && Typed(t, None, false).Some? && Typed(t, None, true).Some? && !Fitting(t, None)
            && ConstantOf(t).Some? && OperandsFit(t, None)
            && Eval(env, Typed(t, None, true).value, snap, vars, live) == Eval(env, Typed(t, None, false).value, snap, vars, live)
  {
    var m := Bin(AddOp, NegLit(0), Lit(HALF - 1));
    var sum := Bin(AddOp, m, Lit(HALF - 1));
    var t := Bin(SubOp, sum, Lit(HALF - 1));
    var minus, lit := Unary(NegOp, Const(0, I(B64)), I(B64)), Const(HALF - 1, I(B64));
    assert Typed(NegLit(0), None, false) == Some(minus) && Typed(Lit(HALF - 1), Some(I(B64)), false) == Some(lit);
    assert ConstantOf(m) == Some(Constant(HALF - 1, false));
    assert Typed(m, None, false) == Some(Binary(AddOp, minus, lit, I(B64)));
    assert ConstantOf(sum) == Some(Constant(2 * HALF - 2, false));
    assert Typed(sum, None, false) == Some(Binary(AddOp, Binary(AddOp, minus, lit, I(B64)), lit, I(B64)));
    assert ConstantOf(t) == Some(Constant(HALF - 1, false));
    assert Typed(t, None, false) == Some(Binary(SubOp, Typed(sum, None, false).value, lit, I(B64)));
    OneSum(AddOp, NegLit(0), HALF - 1);
    OneSum(AddOp, m, HALF - 1);
    OneSum(SubOp, sum, HALF - 1);
    assert !InRange(I(B64), 2 * HALF - 2);
    LoadedWhenOperandsFit(env, t, None, snap, vars, live);
  }

  /** A comparison of constants is a diagnostic wherever a bool is expected, true or not. */
  lemma ConstantComparisonRejected(t: Tree, fold: bool)
    requires t.Bin? && IsComparison(t.op) && ConstantOf(t).Some?
    ensures Typed(t, Some(Bool), fold).None?
  {
  }
}
