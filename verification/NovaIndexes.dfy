/** Where the index check of an element access means what the source says, and where it does not:
    a signed index of a byte buffer. */
module NovaIndexes {
  import opened Words
  import opened X86
  import opened Codegen
  import Operations
  import opened NovaSource
  import opened NovaTarget
  import opened NovaLowering
  import opened NovaExpressions
  import opened NovaStatements

  /** The comparison of lowered code is the one the generated instructions make: cmp on the whole
      registers, with the condition for the signedness of the left operand. */
  lemma MachineCompares(env: Env, op: BinOp, signed: bool, l: int, r: int)
    requires IsComparison(op)
    ensures X86.Holds(CondFor(op, signed), CompareFlags(env, Rep(l), Rep(r))) <==>
            Compare(op, Reading(signed, l), Reading(signed, r)) == 1
  {
    Operations.SignedLess(Rep(l), Rep(r));
  }

  /** The offset code of an access does what the source says for the index in variable k. */
  ghost predicate OffsetKept(env: Outside, k: nat, signed: bool, width: nat, span: Span, s: map<nat, int>, w: World, fuel: nat) {
    Walk(env, OffsetTail(k, signed, width, span), 0, s, w, fuel) ==
    if TooFar(Get(s, k), width) then Exits(0, Fail(w, BOUNDS, span)) else Next(s[k + 1 := Scaled(Get(s, k), width)], w)
  }

  /** Every index of its type is checked and scaled as the source says exactly when the index type
      is unsigned or the elements are wider than a byte. */
  lemma IndexKeptExactly(env: Outside, k: nat, signed: bool, width: nat, span: Span, w: World, fuel: nat)
    requires 1 <= width <= 8
    ensures (forall v :: Bounds(signed, v) ==> OffsetKept(env, k, signed, width, span, map[k := v], w, fuel)) <==>
            IndexSafe(signed, width)
  {
    if IndexSafe(signed, width) {
      forall v | Bounds(signed, v)
        ensures OffsetKept(env, k, signed, width, span, map[k := v], w, fuel)
      {
        RunOffsetTail(env, k, signed, width, span, v, map[k := v], w, fuel);
      }
    } else {
      RunIndexGuard(env, k, signed, width, span, 0, map[k := 0], w, fuel);
      assert Bounds(signed, 0) && !OffsetKept(env, k, signed, width, span, map[k := 0], w, fuel);
    }
  }

  /** The guard on a signed index of a byte buffer refuses every index from zero up. */
  lemma SignedOffsetFails(env: Outside, index: Lowered, v: int, w1: World, n: nat, span: Span, s: map<nat, int>, w: World, fuel: nat)
    requires n <= index.next && Computes(env, index, Val(v, w1), n, s, w, fuel) && 0 <= v < HALF
    ensures Computes(env, OffsetCode(index, true, 1, span), Err(Fail(w1, BOUNDS, span)), n, s, w, fuel)
  {
    hide Fail, OffsetTail, Walk;
    var k := index.next;
    var save, tail := index.code + [LLet(k, index.result)], OffsetTail(k, true, 1, span);
    Save(env, index, Val(v, w1), n, s, w, fuel);
    var o := Walk(env, save, 0, s, w, fuel);
    RunIndexGuard(env, k, true, 1, span, v, o.s, o.w, fuel);
    WalkAppend(env, save, tail, s, w, fuel);
    assert OffsetCode(index, true, 1, span).code == save + tail;
  }

  /** So a load through one returns the bounds error for every such index, whatever the buffer,
      where the source goes on to the runtime. */
  lemma SignedByteLoadFails(env: Outside, e: NExpr, n: nat, s: map<nat, int>, w: World, fuel: nat)
    requires e.Element? && VarsBelow(e, n) && Sized(e.handle) && Sized(e.index) && e.width == 1 && TypeIn(e.index).I?
    requires EvalN(env, e.handle, s, w).Val?
    requires var iv := EvalN(env, e.index, s, EvalN(env, e.handle, s, w).w); iv.Val? && iv.v >= 0
    ensures var hv := EvalN(env, e.handle, s, w);
            var iv := EvalN(env, e.index, s, hv.w);
            && Computes(env, Lower(e, n), Err(Fail(iv.w, BOUNDS, e.span)), n, s, w, fuel)
            && EvalN(env, e, s, w) == LoadFrom(env, hv.v, iv.v, 1, e.ty, iv.w, e.span)
  {
    hide Computes, OffsetCode, Lower, Walk;
    var hv, iv := PairComputes(env, e, e.handle, e.index, n, 1, s, w, fuel);
    ValueBounds(env, e.index, s, hv.w);
    var l, i := Lower(e.handle, n), Lower(e.index, Lower(e.handle, n).next + 1);
    var out := Err(Fail(iv.w, BOUNDS, e.span));
    forall s1 | Agree(n, s, s1) && Get(s1, l.next) == hv.v
      ensures Computes(env, OffsetCode(i, true, 1, e.span), out, l.next + 1, s1, hv.w, fuel)
    {
      SignedOffsetFails(env, i, iv.v, iv.w, l.next + 1, e.span, s1, hv.w, fuel);
    }
    JoinedFails(env, e, n, l, i, hv, out, s, w, fuel);
  }

  lemma JoinedFails(env: Outside, e: NExpr, n: nat, l: Lowered, i: Lowered, hv: Evaluated, out: Evaluated,
                    s: map<nat, int>, w: World, fuel: nat)
    requires e.Element? && e.width == 1 && TypeIn(e.index).I? && l == Lower(e.handle, n) && i == Lower(e.index, l.next + 1)
    requires Computes(env, l, hv, n, s, w, fuel) && hv.Val? && out.Err? && n <= l.next && Fine(i) && l.next < i.next
    requires Follows(env, hv, l.next, OffsetCode(i, true, 1, e.span), out, 1, n, s, fuel)
    ensures Computes(env, Lower(e, n), out, n, s, w, fuel)
  {
    hide Computes, JoinElement, OffsetCode;
    RunJoinElement(env, l, i, true, 1, e.ty, e.span, hv, out, out, n, s, w, fuel);
  }

  /** For example b[i] on a buffer of bytes with i: i64 and i == 0. */
  lemma SignedByteIndexLost(env: Outside, b: Quad, span: Span, w: World, fuel: nat)
    ensures var e := Element(Var(0, U(B64)), Var(1, I(B64)), 1, U(B8), span);
            var s: map<nat, int> := map[0 := b, 1 := 0];
            && Walk(env, Lower(e, 2).code, 0, s, w, fuel) == Exits(0, Fail(w, BOUNDS, span))
            && EvalN(env, e, s, w) == LoadFrom(env, b, 0, 1, U(B8), w, span)
  {
    var e := Element(Var(0, U(B64)), Var(1, I(B64)), 1, U(B8), span);
    var s: map<nat, int> := map[0 := b, 1 := 0];
    assert EvalN(env, e.handle, s, w) == Val(b, w) && EvalN(env, e.index, s, w) == Val(0, w);
    SignedByteLoadFails(env, e, 2, s, w, fuel);
  }

  /** A store likewise, before its value is evaluated. */
  lemma SignedByteStoreFails(env: Outside, t: Target, value: NExpr, n: nat, m: nat, span: Span,
                             s: map<nat, int>, w: World, fuel: nat)
    requires t.ElementOf? && t.width == 1 && TypeIn(t.index).I? && n <= m
    requires ExprFine(t.handle, n) && ExprFine(t.index, n) && ExprFine(value, n)
    requires EvalN(env, t.handle, s, w).Val?
    requires var iv := EvalN(env, t.index, s, EvalN(env, t.handle, s, w).w); iv.Val? && iv.v >= 0
    ensures var iv := EvalN(env, t.index, s, EvalN(env, t.handle, s, w).w);
            Continues(env, StoreCode(t, value, m, span).code, Err(Fail(iv.w, BOUNDS, t.span)), n, s, w, fuel)
  {
    var hv := EvalN(env, t.handle, s, w);
    var iv := EvalN(env, t.index, s, hv.w);
    var l := Lower(t.handle, m);
    var out := Err(Fail(iv.w, BOUNDS, t.span));
    ComputesFrom(env, t.handle, n, m, s, s, w, fuel);
    AfterHandleFine(t, value, n, m, span);
    forall s1 | Agree(m, s, s1) && Get(s1, l.next) == hv.v
      ensures Continues(env, AfterHandle(t, value, m, span), out, n, s1, hv.w, fuel)
    {
      StoreOffsetFails(env, t, value, n, m, span, iv.v, iv.w, s, s1, hv.w, fuel);
    }
    StoreFrom(env, l, hv, AfterHandle(t, value, m, span), out, n, m, s, w, fuel);
  }

  lemma StoreOffsetFails(env: Outside, t: Target, value: NExpr, n: nat, m: nat, span: Span, v: int, w1: World,
                         s: map<nat, int>, s1: map<nat, int>, w: World, fuel: nat)
    requires t.ElementOf? && t.width == 1 && TypeIn(t.index).I? && n <= m
    requires ExprFine(t.index, n) && ExprFine(value, n) && Agree(m, s, s1)
    requires EvalN(env, t.index, s, w) == Val(v, w1) && v >= 0
    ensures Continues(env, AfterHandle(t, value, m, span), Err(Fail(w1, BOUNDS, t.span)), n, s1, w, fuel)
  {
    hide Lower, CheckedCode, TypeIn;
    var k := Lower(t.handle, m).next;
    var i := Lower(t.index, k + 1);
    AgreeTrans(n, m, s, s, s1);
    ValueBounds(env, t.index, s, w);
    ComputesFrom(env, t.index, n, k + 1, s, s1, w, fuel);
    SignedOffsetFails(env, i, v, w1, k + 1, t.span, s1, w, fuel);
    AfterHandleFine(t, value, n, m, span);
    var o := AddressCode(t, m);
    ComputesThenContinues(env, o, Err(Fail(w1, BOUNDS, t.span)),
                          CheckedCode(k, o, Lower(value, o.next + RUN_TEMPS + 1), TargetWidth(t), t.span, span),
                          Err(Fail(w1, BOUNDS, t.span)), n, k + 1, o.next, s1, w, fuel);
  }

  lemma AfterHandleFine(t: Target, value: NExpr, n: nat, m: nat, span: Span)
    requires t.ElementOf? && ExprFine(t.index, n) && ExprFine(value, n) && n <= m
    ensures NoLabels(AfterHandle(t, value, m, span))
    ensures var o := AddressCode(t, m);
            NoLabels(CheckedCode(Lower(t.handle, m).next, o, Lower(value, o.next + RUN_TEMPS + 1), TargetWidth(t), t.span, span))
  {
    hide CheckedCode, Lower;
    var o := AddressCode(t, m);
    var k, i := Lower(t.handle, m).next, Lower(t.index, Lower(t.handle, m).next + 1);
    VarsBelowMore(t.index, n, k + 1);
    LowerFine(t.index, k + 1);
    SaveThenFine(i, OffsetTail(i.next, TypeIn(t.index).I?, t.width, t.span));
    CheckedNoLabels(k, o, value, n, TargetWidth(t), t.span, span);
    NoLabelsAppend(o.code, CheckedCode(k, o, Lower(value, o.next + RUN_TEMPS + 1), TargetWidth(t), t.span, span));
  }
}
