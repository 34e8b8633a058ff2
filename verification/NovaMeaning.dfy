/** What an evaluated Nova expression comes to, in numbers: the value of each operation, the code and
    position of each error, and what the runtime is asked for. */
module NovaMeaning {
  import opened Words
  import opened X86
  import opened Codegen
  import opened NovaSource
  import opened NovaLowering
  import opened NovaExpressions
  import opened WordMeaning

  /** The error record with a code of its own, at the position. */
  function Error(code: Quad, span: Span, w: World): Evaluated {
    Err(World(code, span.source, span.start, w.trace))
  }

  predicate Divides(op: BinOp) {
    op == DivOp || op == ModOp
  }

  predicate Shifts(op: BinOp) {
    op == ShlOp || op == ShrOp
  }

  function BitsOf(t: Ty): nat {
    match t
    case U(B8) => 8 case U(B16) => 16 case U(B32) => 32 case U(B64) => 64
    case I(B8) => 8 case I(B16) => 16 case I(B32) => 32 case I(B64) => 64
    case Bool => 8
    case Ptr => 64
  }

  /** v is the value of type t that n stands for. */
  predicate ValueOf(t: Ty, n: int, v: int) {
    Least(t) <= v < Least(t) + Count(t) && (n - v) % Count(t) == 0
  }

  /** q is the quotient cut towards zero. */
  predicate Quotient(l: int, r: int, q: int) {
    var rest := l - q * r;
    && (l >= 0 ==> 0 <= rest) && (l <= 0 ==> rest <= 0)
    && -(if r < 0 then -r else r) < rest < (if r < 0 then -r else r)
  }

  /** x has the bits, below 64, that the operation makes of those of l and r. */
  ghost predicate Bitwise(op: BinOp, l: nat, r: nat, x: nat) {
    forall i: nat :: BitSet(x, i) <==> (i < 64 && match op
                                                  case AndB => BitSet(l, i) && BitSet(r, i)
                                                  case OrB => BitSet(l, i) || BitSet(r, i)
                                                  case _ => BitSet(l, i) != BitSet(r, i))
  }

  /** The result of an operation that reports no error. A shift takes its count modulo 64, and a right
      shift of a signed value rounds down. */
  ghost predicate Result(op: BinOp, t: Ty, l: int, r: int, v: int) {
    match op
    case AddOp => ValueOf(t, l + r, v)
    case SubOp => ValueOf(t, l - r, v)
    case MulOp => ValueOf(t, l * r, v)
    case DivOp => exists q :: Quotient(l, r, q) && ValueOf(t, q, v)
    case ModOp => exists q :: Quotient(l, r, q) && ValueOf(t, l - q * r, v)
    case AndB => exists x: nat :: Bitwise(op, Rep(l), Rep(r), x) && ValueOf(t, x, v)
    case OrB => exists x: nat :: Bitwise(op, Rep(l), Rep(r), x) && ValueOf(t, x, v)
    case XorB => exists x: nat :: Bitwise(op, Rep(l), Rep(r), x) && ValueOf(t, x, v)
    case ShlOp => ValueOf(t, l * Pow2(r % 64), v)
    case ShrOp => ValueOf(t, l / Pow2(r % 64), v)
    case EqOp => v == if l == r then 1 else 0
    case NeOp => v == if l != r then 1 else 0
    case LtOp => v == if l < r then 1 else 0
    case LeOp => v == if l <= r then 1 else 0
    case GtOp => v == if l > r then 1 else 0
    case GeOp => v == if l >= r then 1 else 0
  }

  /** Division by zero is error 5, the quotient that does not fit error 11, and a count of the width
      or more error 12. Operands of division and of right shifts are as their types have them. */
  lemma OperationExact(env: Outside, op: BinOp, a: NExpr, b: NExpr, t: Ty, span: Span, s: map<nat, int>, w: World,
                       l: int, r: int, w1: World, w2: World)
    requires EvalN(env, a, s, w) == Val(l, w1) && EvalN(env, b, s, w1) == Val(r, w2)
    requires !t.I? && (Divides(op) || op == ShrOp) ==> 0 <= l < 18446744073709551616 && 0 <= r
    ensures var ev := EvalN(env, Bin(op, a, b, t, span), s, w);
            if Divides(op) && r == 0 then ev == Error(5, span, w2)
            else if Divides(op) && t == I(B64) && l == -9223372036854775808 && r == -1 then ev == Error(11, span, w2)
            else if Shifts(op) && r >= BitsOf(t) then ev == Error(12, span, w2)
            else ev.Val? && ev.w == w2 && Result(op, t, l, r, ev.v)
  {
    hide Arithmetic, Result;
    if Complaint(op, t, l, r) == 0 {
      ArithmeticIs(op, t, l, r);
    }
  }

  lemma CountIs(r: int)
    ensures Rep(r) % 64 == r % 64
  {
    var q, c := r / W, 0x400_0000_0000_0000;
    assert r == W * q + Rep(r);
    SixtyFour(q, c);
    ModAdd(Rep(r), q * c, 64);
  }

  lemma SixtyFour(q: int, c: int)
    ensures (64 * c) * q == (q * c) * 64
  {
  }

  lemma ArithmeticIs(op: BinOp, t: Ty, l: int, r: int)
    requires Complaint(op, t, l, r) == 0
    requires !t.I? && (Divides(op) || op == ShrOp) ==> 0 <= l < 18446744073709551616 && 0 <= r
    ensures Result(op, t, l, r, Arithmetic(op, t, l, r))
  {
    hide Wrap, Bits64, TruncDiv, Quotient, ValueOf, Bitwise, Rep, Pow2;
    match op
    case AddOp => WrapIs(t, l + r);
    case SubOp => WrapIs(t, l - r);
    case MulOp => WrapIs(t, l * r);
    case DivOp =>
      var q := QuotientOf(t, l, r);
      WrapIs(t, q);
    case ModOp =>
      var q := QuotientOf(t, l, r);
      WrapIs(t, l - q * r);
    case AndB => BitsMean(op, And, t, l, r);
    case OrB => BitsMean(op, Or, t, l, r);
    case XorB => BitsMean(op, Xor, t, l, r);
    case ShlOp => CountIs(r); WrapIs(t, l * Pow2(r % 64));
    case ShrOp => CountIs(r); WrapIs(t, l / Pow2(r % 64)); WordIs(t, l);
    case _ =>
  }

  lemma WordIs(t: Ty, l: int)
    ensures 0 <= l < 18446744073709551616 ==> Rep(l) == l
  {
  }

  lemma QuotientOf(t: Ty, l: int, r: int) returns (q: int)
    requires r != 0 && (!t.I? ==> 0 <= l && 0 < r)
    ensures Quotient(l, r, q)
    ensures q == if t.I? then TruncDiv(l, r) else l / r
    ensures l - q * r == if t.I? then l - TruncDiv(l, r) * r else l % r
  {
    q := if t.I? then TruncDiv(l, r) else l / r;
    if t.I? {
      TruncMeans(l, r, q);
    } else {
      assert l == q * r + l % r;
    }
  }

  lemma BitsMean(op: BinOp, bit: BitOp, t: Ty, l: int, r: int)
    requires (op == AndB && bit == And) || (op == OrB && bit == Or) || (op == XorB && bit == Xor)
    ensures Result(op, t, l, r, Wrap(t, Bits64(bit, Rep(l), Rep(r))))
  {
    hide Wrap, Bits64, BitSet, Rep, ValueOf, Bitwise;
    var x := Bits64(bit, Rep(l), Rep(r));
    BitsAre(op, bit, Rep(l), Rep(r));
    WrapIs(t, x);
  }

  lemma WrapIs(t: Ty, n: int)
    ensures ValueOf(t, n, Wrap(t, n))
  {
    WrapMeans(t, n, Wrap(t, n));
  }

  lemma BitsAre(op: BinOp, bit: BitOp, l: nat, r: nat)
    requires (op == AndB && bit == And) || (op == OrB && bit == Or) || (op == XorB && bit == Xor)
    ensures Bitwise(op, l, r, Bits64(bit, l, r))
  {
    hide BitSet, Bits;
    forall i: nat
      ensures BitSet(Bits64(bit, l, r), i) <==> i < 64 && match op
                case AndB => BitSet(l, i) && BitSet(r, i)
                case OrB => BitSet(l, i) || BitSet(r, i)
                case _ => BitSet(l, i) != BitSet(r, i)
    {
      BitsAt(bit, l, r, 64, i);
    }
  }

  // ----- Types -----

  predicate OfType(t: Ty, v: int) {
    Least(t) <= v < Least(t) + Count(t)
  }

  lemma WrapHasType(t: Ty, n: int)
    ensures OfType(t, Wrap(t, n))
  {
    WrapMeans(t, n, Wrap(t, n));
  }

  lemma ArithmeticHasType(op: BinOp, t: Ty, l: int, r: int)
    requires IsComparison(op) ==> t == Bool
    ensures OfType(t, Arithmetic(op, t, l, r))
  {
    hide Wrap, Bits64, TruncDiv, Pow2, OfType;
    forall n
      ensures OfType(t, Wrap(t, n))
    {
      WrapHasType(t, n);
    }
    if BinValue(op, t, l, r).None? || IsComparison(op) {
      SmallHasType(t);
    }
  }

  lemma SmallHasType(t: Ty)
    ensures OfType(t, 0) && OfType(Bool, 1)
  {
  }

  /** Every value is one of the type that its expression has. */
  lemma {:induction false} ValuesHaveTypes(env: Outside, e: NExpr, s: map<nat, int>, w: World)
    requires Sized(e) && EvalN(env, e, s, w).Val?
    ensures OfType(TypeIn(e), EvalN(env, e, s, w).v)
    decreases e
  {
    hide Wrap, Arithmetic, RunOperation, LoadFrom, UnValue, OfType, Complaint, TooFar, Scaled, IsComparison, Alike;
    match e
    case Lit(v, t) => WrapHasType(t, v);
    case Var(k, t) => WrapHasType(t, Get(s, k));
    case Un(op, x, t) => UnaryHasType(op, t, EvalN(env, x, s, w).v);
    case Bin(op, a, b, t, _) => ArithmeticHasType(op, t, EvalN(env, a, s, w).v, EvalN(env, b, s, EvalN(env, a, s, w).w).v);
    case LogicalAnd(a, b) =>
      ValuesHaveTypes(env, a, s, w);
      SmallHasType(Bool);
      if EvalN(env, a, s, w).v != 0 {
        ValuesHaveTypes(env, b, s, EvalN(env, a, s, w).w);
      }
    case LogicalOr(a, b) =>
      ValuesHaveTypes(env, a, s, w);
      if EvalN(env, a, s, w).v == 0 {
        ValuesHaveTypes(env, b, s, EvalN(env, a, s, w).w);
      }
    case Apply(_, args, t, span) => CallHasType(env, e, s, w);
    case Length(_, _, _) => LengthHasType(env, e, s, w);
    case _ => LoadHasType(env, e, s, w);
  }

  lemma UnaryHasType(op: UnOp, t: Ty, v: int)
    ensures OfType(t, UnValue(op, t, v))
  {
    WrapHasType(t, v);
    WrapHasType(t, -v);
    WrapHasType(t, -v - 1);
  }

  lemma CallHasType(env: Outside, e: NExpr, s: map<nat, int>, w: World)
    requires e.Apply? && EvalN(env, e, s, w).Val?
    ensures OfType(e.ty, EvalN(env, e, s, w).v)
  {
    hide Wrap, OfType;
    forall n
      ensures OfType(e.ty, Wrap(e.ty, n))
    {
      WrapHasType(e.ty, n);
    }
  }

  lemma LengthHasType(env: Outside, e: NExpr, s: map<nat, int>, w: World)
    requires e.Length? && EvalN(env, e, s, w).Val?
    ensures OfType(U(B64), EvalN(env, e, s, w).v)
  {
    hide HasRuntime;
    var h := EvalN(env, e.handle, s, w);
    var n := RunOperation(env, LENGTH, h.v, 0, 0, h.w, e.span).v;
    WrapHasType(U(B64), env.run(LENGTH, h.v, 0, 0, h.w).value);
    if e.width > 1 {
      Shrinks(n, e.width);
    }
  }

  lemma Shrinks(n: nat, d: nat)
    requires d > 0
    ensures 0 <= n / d <= n
  {
    FloorIs(n, d, n / d);
    Grows(n / d, d);
  }

  lemma Grows(q: int, d: nat)
    requires d > 0
    ensures q >= 0 ==> q <= d * q
    ensures q < 0 ==> d * q < 0
  {
    assert d * q == q + (d - 1) * q;
  }

  lemma LoadHasType(env: Outside, e: NExpr, s: map<nat, int>, w: World)
    requires (e.Element? || e.Member?) && EvalN(env, e, s, w).Val?
    ensures OfType(e.ty, EvalN(env, e, s, w).v)
  {
    hide Wrap, OfType, Resolve, TooFar, Scaled;
    forall n
      ensures OfType(e.ty, Wrap(e.ty, n))
    {
      WrapHasType(e.ty, n);
    }
  }

  // ----- The runtime -----

  /** The context has a runtime of version 2, long enough and with the entry. */
  predicate Available(env: Outside, operation: nat, w: World) {
    && env.table(Runtime, w) != 0 && env.table(Version, w) == 2 && env.table(Entry(operation), w) != 0
    && (if operation >= 12 then 128 else 120) <= env.table(Size, w)
  }

  /** What the caller of an operation gets: error 6 if it is not there, the error that it answers, with
      a position if it has none, or the word. */
  function Asked(env: Outside, operation: nat, a: int, b: int, d: int, w: World, span: Span): Evaluated {
    var answer := env.run(operation, a, b, d, w);
    var trace := w.trace + [Ran(operation, a, b, d)];
    if !Available(env, operation, w) then Error(6, span, w)
    else if answer.code == 0 then Val(answer.value % 18446744073709551616, World(0, answer.source, answer.start, trace))
    else if answer.source == 0 then Err(World(answer.code, span.source, span.start, trace))
    else Err(World(answer.code, answer.source, answer.start, trace))
  }

  lemma OperationAsked(env: Outside, operation: nat, a: int, b: int, d: int, w: World, span: Span)
    ensures RunOperation(env, operation, a, b, d, w, span) == Asked(env, operation, a, b, d, w, span)
  {
  }

  /** The lowered code of len(x) asks operation 10 of the runtime and divides by the element's width. */
  lemma LengthAsks(env: Outside, x: nat, width: nat, span: Span, n: nat, s: map<nat, int>, w: World, fuel: nat)
    requires 1 <= width <= 8 && x < n
    ensures var ev := Asked(env, 10, Rep(Get(s, x)), 0, 0, w, span);
            Computes(env, Lower(Length(Var(x, U(B64)), width, span), n), if ev.Val? then Val(ev.v / width, ev.w) else ev, n, s, w, fuel)
  {
    hide Computes, Lower, RunOperation, Asked;
    var e := Length(Var(x, U(B64)), width, span);
    assert VarsBelow(e, n) && Sized(e);
    LowerComputes(env, e, n, s, w, fuel);
    OperationAsked(env, 10, Rep(Get(s, x)), 0, 0, w, span);
    assert EvalN(env, Var(x, U(B64)), s, w) == Val(Rep(Get(s, x)), w);
  }

  /** A store to a member asks operation 8 for eight bytes to write to, by the highest bit, before and
      after its value is evaluated, and then stores. */
  lemma StoreAsks(env: Outside, x: nat, offset: nat, value: NExpr, at: Span, span: Span, s: map<nat, int>, w: World, ev: Evaluated)
    requires var h := Rep(Get(s, x));
             var first := Asked(env, 8, h, offset, 8 + 9223372036854775808, w, at);
             ev == if first.Err? then first
                   else match EvalN(env, value, s, first.w)
                     case Err(w') => Err(w')
                     case Val(v, w') =>
                       match Asked(env, 8, h, offset, 8 + 9223372036854775808, w', span)
                       case Err(w'') => Err(w'')
                       case Val(p, w'') => Val(v, w''.(trace := w''.trace + [Stored(p, 8, v)]))
    requires offset < W
    ensures Assign(env, MemberOf(Var(x, U(B64)), offset, at), value, s, w, span) == ev
  {
    hide RunOperation, Asked;
    var h := Rep(Get(s, x));
    assert EvalN(env, Var(x, U(B64)), s, w) == Val(h, w) && Wrap(U(B64), offset) == offset;
    OperationAsked(env, 8, h, offset, 8 + 9223372036854775808, w, at);
    var first := Asked(env, 8, h, offset, 8 + 9223372036854775808, w, at);
    if first.Val? && EvalN(env, value, s, first.w).Val? {
      OperationAsked(env, 8, h, offset, 8 + 9223372036854775808, EvalN(env, value, s, first.w).w, span);
    }
  }
}
