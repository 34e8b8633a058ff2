/** The lowering as the compiler does it: hidden variables are numbered as they are needed, and
    statements are chained to the end of a sequence while an expression is being taken apart. */
module NovaCompiler {
  import opened Words
  import opened X86
  import opened Codegen
  import opened NovaSource
  import opened NovaTarget
  import opened NovaLowering
  import opened NovaExpressions
  import opened NovaStatements

  lemma Chain(a: seq<LStmt>, b: seq<LStmt>, c: seq<LStmt>)
    ensures (a + b) + c == a + (b + c)
  {
  }

  lemma ChainFour(a: seq<LStmt>, b: seq<LStmt>, c: seq<LStmt>, d: seq<LStmt>)
    ensures ((a + b) + c) + d == a + (b + (c + d))
  {
    Chain(a + b, c, d);
    Chain(a, b, c + d);
  }

  class Sequence {
    var lines: seq<LStmt>

    constructor ()
      ensures lines == []
    {
      lines := [];
    }

    method Emit(st: LStmt)
      modifies this
      ensures lines == old(lines) + [st]
    {
      lines := lines + [st];
    }
  }

  class Compiler {
    var variables: nat
    var labels: nat
    var loops: seq<Labels>

    constructor (variables: nat)
      ensures this.variables == variables && labels == 0 && loops == []
    {
      this.variables := variables;
      labels := 0;
      loops := [];
    }

    method Fresh() returns (k: nat)
      modifies this`variables
      ensures k == old(variables) && variables == k + 1
    {
      k := variables;
      variables := variables + 1;
    }

    method Temporary(value: LExpr, q: Sequence) returns (name: LExpr)
      modifies this`variables, q
      ensures variables == old(variables) + 1 && name == LName(old(variables))
      ensures q.lines == old(q.lines) + [LLet(old(variables), value)]
    {
      var k := Fresh();
      q.Emit(LLet(k, value));
      name := LName(k);
    }

    method ReadInto(f: FieldName, q: Sequence) returns (name: LExpr)
      modifies this`variables, q
      ensures variables == old(variables) + 1 && name == LName(old(variables))
      ensures q.lines == old(q.lines) + [LRead(old(variables), f)]
    {
      var k := Fresh();
      q.Emit(LRead(k, f));
      name := LName(k);
    }

    method EmitGuard(q: Sequence, cond: LExpr, code: Quad, span: Span)
      modifies q
      ensures q.lines == old(q.lines) + [Guard(cond, code, span)]
    {
      var bad := new Sequence();
      bad.Emit(LError(GuardCode(code), span));
      bad.Emit(LReturn(Zero(U(B64))));
      assert bad.lines == [LError(GuardCode(code), span), LReturn(Zero(U(B64)))];
      q.Emit(LIf(cond, bad.lines, []));
    }

    method PropagateError(q: Sequence, span: Span)
      modifies this`variables, q
      ensures variables == old(variables) + 2
      ensures q.lines == old(q.lines) + Propagate(old(variables), span)
    {
      ghost var n := variables;
      var status := ReadInto(StatusField, q);
      var bad := new Sequence();
      var source := ReadInto(SourceField, bad);
      var position := new Sequence();
      position.Emit(LPosition(span));
      bad.Emit(LIf(LBin(EqOp, false, source, Zero(U(B64)), Bool), position.lines, []));
      bad.Emit(LReturn(Zero(U(B64))));
      assert position.lines == [LPosition(span)];
      assert bad.lines == BlameCode(n, span);
      q.Emit(LIf(LBin(NeOp, false, status, Zero(U(B64)), Bool), bad.lines, []));
    }

    method CheckTable(operation: nat, q: Sequence, span: Span)
      modifies this`variables, q
      ensures variables == old(variables) + 4
      ensures q.lines == old(q.lines) + TableCode(operation, old(variables), span)
    {
      ghost var n := variables;
      var runtime := ReadInto(TableField(Runtime), q);
      EmitGuard(q, LBin(EqOp, false, runtime, LConst(0, U(B64)), Bool), NO_RUNTIME, span);
      assert q.lines == old(q.lines) + ReadAndGuard(n, Runtime, EqOp, 0, span);
      var version := ReadInto(TableField(Version), q);
      var size := ReadInto(TableField(Size), q);
      EmitGuard(q, LBin(NeOp, false, version, LConst(2, U(B64)), Bool), NO_RUNTIME, span);
      EmitGuard(q, LBin(LtOp, false, size, LConst(if operation < 12 then 120 else 128, U(B64)), Bool), NO_RUNTIME, span);
      assert q.lines == old(q.lines) + ReadAndGuard(n, Runtime, EqOp, 0, span) + VersionCode(operation, n, span);
      var target := ReadInto(TableField(Entry(operation)), q);
      EmitGuard(q, LBin(EqOp, false, target, LConst(0, U(B64)), Bool), NO_RUNTIME, span);
      assert q.lines == old(q.lines) + ReadAndGuard(n, Runtime, EqOp, 0, span) + VersionCode(operation, n, span)
                        + ReadAndGuard(n + 3, Entry(operation), EqOp, 0, span);
      ChainFour(old(q.lines), ReadAndGuard(n, Runtime, EqOp, 0, span), VersionCode(operation, n, span),
                ReadAndGuard(n + 3, Entry(operation), EqOp, 0, span));
    }

    method CallRuntime(operation: nat, a: LExpr, b: LExpr, d: LExpr, q: Sequence, span: Span) returns (result: LExpr)
      modifies this`variables, q
      ensures variables == old(variables) + RUN_TEMPS && result == LName(old(variables) + 7)
      ensures q.lines == old(q.lines) + RunCode(operation, a, b, d, old(variables), span)
    {
      ghost var n := variables;
      var first := Temporary(a, q);
      var second := Temporary(b, q);
      var third := Temporary(d, q);
      assert q.lines == old(q.lines) + OperandCode(a, b, d, n);
      CheckTable(operation, q, span);
      var k := Fresh();
      q.Emit(LRun(k, operation, first, second, third));
      PropagateError(q, span);
      result := LName(k);
      assert q.lines == old(q.lines) + OperandCode(a, b, d, n) + TableCode(operation, n + 3, span) + ActionCode(operation, n, span);
      ChainFour(old(q.lines), OperandCode(a, b, d, n), TableCode(operation, n + 3, span), ActionCode(operation, n, span));
      Chain(OperandCode(a, b, d, n), TableCode(operation, n + 3, span), ActionCode(operation, n, span));
    }

    method EmitChecks(op: BinOp, t: Ty, l: LExpr, r: LExpr, operand: Ty, q: Sequence, span: Span)
      modifies q
      ensures q.lines == old(q.lines) + CheckCode(op, t, l, r, operand, span)
    {
      if op == DivOp || op == ModOp {
        EmitGuard(q, LBin(EqOp, operand.I?, r, Zero(operand), Bool), DIVISION_ERROR, span);
        if t == I(B64) {
          EmitGuard(q, LBin(AndB, false, LBin(EqOp, true, l, LConst(0x8000_0000_0000_0000, I(B64)), Bool),
                            LBin(EqOp, true, r, LConst(0xffff_ffff_ffff_ffff, I(B64)), Bool), Bool), OVERFLOW, span);
        }
      } else if op == ShlOp || op == ShrOp {
        EmitGuard(q, LBin(GeOp, operand.I?, r, LConst(SizeBits(WidthOf(t)), U(B64)), Bool), SHIFT, span);
      }
    }

    /** Takes the expression apart; what remains to be read is a pure expression. */
    method LowerExpr(e: NExpr, q: Sequence) returns (result: LExpr)
      modifies this`variables, q
      ensures var r := Lower(e, old(variables));
              variables == r.next && result == r.result && q.lines == old(q.lines) + r.code
      decreases e, 1
    {
      match e
      case Lit(v, t) => result := LConst(v, t);
      case Var(k, t) => result := LVar(k, t);
      case Un(op, x, t) =>
        var operand := LowerExpr(x, q);
        result := LUn(op, operand, t);
      case Bin(_, _, _, _, _) => result := LowerBinary(e, q);
      case LogicalAnd(_, _) => result := LowerShortCircuit(e, q);
      case LogicalOr(_, _) => result := LowerShortCircuit(e, q);
      case Apply(_, _, _, _) => result := LowerCall(e, q);
      case Length(_, _, _) => result := LowerLength(e, q);
      case Element(_, _, _, _, _) => result := LowerElement(e, q);
      case Member(_, _, _, _, _) => result := LowerMember(e, q);
    }

    method LowerBinary(e: NExpr, q: Sequence) returns (result: LExpr)
      requires e.Bin?
      modifies this`variables, q
      ensures var r := Lower(e, old(variables));
              variables == r.next && result == r.result && q.lines == old(q.lines) + r.code
      decreases e, 0
    {
      hide LowerBin, SaveThen, JoinUn, LowerLogical;
      ghost var l := Lower(e.left, variables);
      ghost var r := Lower(e.right, l.next + 1);
      var left := LowerExpr(e.left, q);
      var first := Temporary(left, q);
      var right := LowerExpr(e.right, q);
      var second := Temporary(right, q);
      result := EmitOperation(e.bop, e.ty, TypeIn(e.left).I?, TypeIn(e.right), first.id, second.id, q, e.span);
      SaveSave(old(q.lines), l, r, LowerBin(e.bop, e.ty, TypeIn(e.left).I?, TypeIn(e.right), l.next, r.next, r.next + 1, e.span).code);
    }

    /** The checks of an operator on two temporaries, then the operator or, for a signed right
        shift, the instruction that the backend does not have as one. */
    method EmitOperation(op: BinOp, t: Ty, signed: bool, operand: Ty, left: nat, right: nat, q: Sequence, span: Span) returns (result: LExpr)
      modifies this`variables, q
      ensures var r := LowerBin(op, t, signed, operand, left, right, old(variables), span);
              variables == r.next && result == r.result && q.lines == old(q.lines) + r.code
    {
      EmitChecks(op, t, LName(left), LName(right), operand, q, span);
      if op == ShrOp && t.I? {
        var k := Fresh();
        q.Emit(LShift(k, LName(left), LName(right), t));
        result := LName(k);
        Chain(old(q.lines), CheckCode(op, t, LName(left), LName(right), operand, span), [LShift(k, LName(left), LName(right), t)]);
      } else {
        result := LBin(op, signed, LName(left), LName(right), t);
      }
    }

    method LowerShortCircuit(e: NExpr, q: Sequence) returns (result: LExpr)
      requires e.LogicalAnd? || e.LogicalOr?
      modifies this`variables, q
      ensures var r := Lower(e, old(variables));
              variables == r.next && result == r.result && q.lines == old(q.lines) + r.code
      decreases e, 0
    {
      hide JoinElement, JoinMember;
      ghost var l := Lower(e.left, variables);
      ghost var r := Lower(e.right, l.next + 2);
      var left := LowerExpr(e.left, q);
      left := Temporary(left, q);
      var k := Fresh();
      q.Emit(LLet(k, left));
      var rhs := new Sequence();
      var right := LowerExpr(e.right, rhs);
      rhs.Emit(LLet(k, right));
      var condition := if e.LogicalAnd? then left else LBin(EqOp, false, left, Zero(Bool), Bool);
      q.Emit(LIf(condition, rhs.lines, []));
      result := LName(k);
      assert rhs.lines == r.code + [LLet(k, r.result)];
      assert q.lines == old(q.lines) + l.code + [LLet(l.next, l.result)] + [LLet(k, left)] + [LIf(condition, rhs.lines, [])];
      LogicalPieces(old(q.lines), l.code, [LLet(l.next, l.result)], LLet(k, left), LIf(condition, rhs.lines, []));
    }

    method LowerCall(e: NExpr, q: Sequence) returns (result: LExpr)
      requires e.Apply?
      modifies this`variables, q
      ensures var r := Lower(e, old(variables));
              variables == r.next && result == r.result && q.lines == old(q.lines) + r.code
      decreases e, 0
    {
      ghost var r := LowerAll(e.args, variables);
      var args := LowerArguments(e.args, q);
      var k := Fresh();
      q.Emit(LCall(k, e.f, args, e.ty));
      PropagateError(q, e.span);
      result := LName(k);
      Chain(old(q.lines) + r.code, [LCall(r.next, e.f, args, e.ty)], Propagate(r.next + 1, e.span));
      Chain(old(q.lines), r.code, [LCall(r.next, e.f, args, e.ty)] + Propagate(r.next + 1, e.span));
    }

    method LowerArguments(args: seq<NExpr>, q: Sequence) returns (names: seq<LExpr>)
      modifies this`variables, q
      ensures var r := LowerAll(args, old(variables));
              variables == r.next && names == r.results && q.lines == old(q.lines) + r.code
      decreases args, 0
    {
      hide Lower, SaveThen;
      ghost var all := LowerAll(args, variables);
      names := [];
      var i: nat := 0;
      assert args[0..] == args;
      while i < |args|
        invariant i <= |args|
        invariant LowerAll(args[i..], variables).next == all.next
        invariant names + LowerAll(args[i..], variables).results == all.results
        invariant q.lines + LowerAll(args[i..], variables).code == old(q.lines) + all.code
      {
        ghost var before, n := q.lines, variables;
        assert args[i..][0] == args[i] && args[i..][1..] == args[i + 1..];
        var value := LowerExpr(args[i], q);
        var name := Temporary(value, q);
        names := names + [name];
        ghost var first := Lower(args[i], n);
        SavePieces(before, first, LowerAll(args[i + 1..], first.next + 1).code);
        i := i + 1;
      }
    }

    method LowerLength(e: NExpr, q: Sequence) returns (result: LExpr)
      requires e.Length?
      modifies this`variables, q
      ensures var r := Lower(e, old(variables));
              variables == r.next && result == r.result && q.lines == old(q.lines) + r.code
      decreases e, 0
    {
      ghost var h := Lower(e.handle, variables);
      var handle := LowerExpr(e.handle, q);
      result := CallRuntime(LENGTH, handle, Zero(U(B64)), Zero(U(B64)), q, e.span);
      if e.width > 1 {
        result := LBin(DivOp, false, result, LConst(e.width, U(B64)), U(B64));
      }
      Chain(old(q.lines), h.code, RunCode(LENGTH, h.result, Zero(U(B64)), Zero(U(B64)), h.next, e.span));
    }

    /** The index in a temporary, checked against the largest that can be scaled. */
    method LowerOffset(index: NExpr, width: nat, q: Sequence, span: Span) returns (offset: LExpr)
      modifies this`variables, q
      ensures var r := OffsetCode(Lower(index, old(variables)), TypeIn(index).I?, width, span);
              variables == r.next && offset == r.result && q.lines == old(q.lines) + r.code
      decreases index, 2
    {
      hide Lower;
      ghost var i := Lower(index, variables);
      var value := LowerExpr(index, q);
      value := Temporary(value, q);
      EmitGuard(q, LBin(GtOp, TypeIn(index).I?, value, LConst(if width == 0 then 0 else (W - 1) / width, U(B64)), Bool), BOUNDS, span);
      offset := Temporary(if width == 1 then value else LBin(MulOp, TypeIn(index).I?, value, LConst(width, U(B64)), U(B64)), q);
      assert q.lines == old(q.lines) + i.code + [LLet(i.next, i.result)] + OffsetTail(i.next, TypeIn(index).I?, width, span);
      SavePieces(old(q.lines), i, OffsetTail(i.next, TypeIn(index).I?, width, span));
    }

    method EmitResolve(h: LExpr, offset: LExpr, width: nat, write: bool, q: Sequence, span: Span) returns (pointer: LExpr)
      modifies this`variables, q
      ensures variables == old(variables) + RUN_TEMPS && pointer == LName(old(variables) + 7)
      ensures q.lines == old(q.lines) + ResolveCode(h, offset, width, write, old(variables), span)
    {
      pointer := CallRuntime(RESOLVE, h, offset, LConst(Spec(width, write), U(B64)), q, span);
    }

    method EmitLoad(h: LExpr, offset: LExpr, width: nat, t: Ty, q: Sequence, span: Span) returns (result: LExpr)
      modifies this`variables, q
      ensures var r := LowerLoad(h, offset, width, t, old(variables), span);
              variables == r.next && result == r.result && q.lines == old(q.lines) + r.code
    {
      ghost var n := variables;
      var pointer := EmitResolve(h, offset, width, false, q, span);
      var k := Fresh();
      q.Emit(LLoad(k, pointer, width, t));
      result := LName(k);
      Chain(old(q.lines), ResolveCode(h, offset, width, false, n, span), [LLoad(k, pointer, width, t)]);
    }

    method EmitElement(h: LExpr, index: NExpr, width: nat, t: Ty, q: Sequence, span: Span) returns (result: LExpr)
      modifies this`variables, q
      ensures var r := LowerAt(h, Lower(index, old(variables)), TypeIn(index).I?, width, t, span);
              variables == r.next && result == r.result && q.lines == old(q.lines) + r.code
      decreases index, 3
    {
      ghost var o := OffsetCode(Lower(index, variables), TypeIn(index).I?, width, span);
      var offset := LowerOffset(index, width, q, span);
      result := EmitLoad(h, offset, width, t, q, span);
      Chain(old(q.lines), o.code, LowerLoad(h, offset, width, t, o.next, span).code);
    }

    method LowerElement(e: NExpr, q: Sequence) returns (result: LExpr)
      requires e.Element?
      modifies this`variables, q
      ensures var r := Lower(e, old(variables));
              variables == r.next && result == r.result && q.lines == old(q.lines) + r.code
      decreases e, 0
    {
      hide LowerAt;
      ghost var l := Lower(e.handle, variables);
      var handle := LowerExpr(e.handle, q);
      handle := Temporary(handle, q);
      result := EmitElement(handle, e.index, e.width, e.ty, q, e.span);
      SavePieces(old(q.lines), l, LowerAt(handle, Lower(e.index, l.next + 1), TypeIn(e.index).I?, e.width, e.ty, e.span).code);
    }

    method LowerMember(e: NExpr, q: Sequence) returns (result: LExpr)
      requires e.Member?
      modifies this`variables, q
      ensures var r := Lower(e, old(variables));
              variables == r.next && result == r.result && q.lines == old(q.lines) + r.code
      decreases e, 0
    {
      ghost var l := Lower(e.handle, variables);
      ghost var p := LowerLoad(LName(l.next), LName(l.next + 1), e.width, e.ty, l.next + 2, e.span);
      var handle := LowerExpr(e.handle, q);
      handle := Temporary(handle, q);
      var offset := Temporary(LConst(e.offset, U(B64)), q);
      result := EmitLoad(handle, offset, e.width, e.ty, q, e.span);
      Chain(old(q.lines) + l.code + [LLet(l.next, l.result)], [LLet(l.next + 1, LConst(e.offset, U(B64)))], p.code);
      SavePieces(old(q.lines), l, [LLet(l.next + 1, LConst(e.offset, U(B64)))] + p.code);
    }

    method LowerTarget(t: Target, q: Sequence) returns (handle: LExpr, offset: LExpr)
      modifies this`variables, q
      ensures var l, o := Lower(t.handle, old(variables)), AddressCode(t, old(variables));
              variables == o.next && handle == LName(l.next) && offset == o.result &&
              q.lines == old(q.lines) + l.code + [LLet(l.next, l.result)] + o.code
    {
      handle := LowerExpr(t.handle, q);
      handle := Temporary(handle, q);
      if t.MemberOf? {
        offset := Temporary(LConst(t.offset, U(B64)), q);
      } else {
        offset := LowerOffset(t.index, t.width, q, t.span);
      }
    }

    /** Evaluates the value, resolves the address again and stores. */
    method EmitValue(h: nat, offset: LExpr, width: nat, value: NExpr, q: Sequence, span: Span)
      modifies this`variables, q
      ensures var v := Lower(value, old(variables));
              variables == v.next + 1 + RUN_TEMPS && q.lines == old(q.lines) + ValueCode(h, offset, v, width, span)
    {
      hide Lower;
      ghost var v := Lower(value, variables);
      var what := LowerExpr(value, q);
      what := Temporary(what, q);
      var address := EmitResolve(LName(h), offset, width, true, q, span);
      var store := LStore(address, width, what);
      q.Emit(store);
      Chain(old(q.lines) + v.code + [LLet(v.next, v.result)], ResolveCode(LName(h), offset, width, true, v.next + 1, span), [store]);
      SavePieces(old(q.lines), v, ResolveCode(LName(h), offset, width, true, v.next + 1, span) + [store]);
    }

    /** Resolves the address a first time and keeps it, before the value is evaluated. */
    method EmitChecked(h: nat, ghost o: Lowered, offset: LExpr, width: nat, value: NExpr, q: Sequence, first: Span, span: Span)
      requires variables == o.next && offset == o.result
      modifies this`variables, q
      ensures var v := Lower(value, o.next + RUN_TEMPS + 1);
              variables == v.next + 1 + RUN_TEMPS && q.lines == old(q.lines) + CheckedCode(h, o, v, width, first, span)
    {
      hide ResolveCode;
      ghost var v := Lower(value, o.next + RUN_TEMPS + 1);
      var pointer := EmitResolve(LName(h), offset, width, true, q, first);
      var address := Temporary(pointer, q);
      EmitValue(h, offset, width, value, q, span);
      CheckedPieces(old(q.lines), ResolveCode(LName(h), offset, width, true, o.next, first), [LLet(o.next + RUN_TEMPS, pointer)],
                    ValueCode(h, offset, v, width, span));
    }

    method LowerStore(t: Target, value: NExpr, q: Sequence, span: Span)
      modifies this`variables, q
      ensures var r := StoreCode(t, value, old(variables), span);
              variables == r.next && q.lines == old(q.lines) + r.code
    {
      hide Lower;
      ghost var l, o := Lower(t.handle, variables), AddressCode(t, variables);
      ghost var rest := CheckedCode(l.next, o, Lower(value, o.next + RUN_TEMPS + 1), TargetWidth(t), t.span, span);
      var handle, offset := LowerTarget(t, q);
      EmitChecked(handle.id, o, offset, TargetWidth(t), value, q, t.span, span);
      StorePieces(old(q.lines), l, o.code, rest);
    }

    /** The innermost loop's labels; outside loops they are not used. */
    function Innermost(): Labels
      reads this
    {
      if loops == [] then Labels(0, 0) else loops[|loops| - 1]
    }

    /** Lowers one statement to the end of the sequence; break and continue jump to the labels of
        the innermost loop. */
    method LowerStatement(st: NStmt, q: Sequence)
      modifies this, q
      ensures loops == old(loops)
      ensures var r := LowerStmt(st, old(Innermost()), old(variables), old(labels));
              variables == r.next && labels == r.labels && q.lines == old(q.lines) + r.code
      decreases st, 2
    {
      ghost var n, before := variables, q.lines;
      match st
      case Let(k, e) =>
        var value := LowerExpr(e, q);
        q.Emit(LLet(k, value));
        Chain(before, Lower(e, n).code, [LLet(k, value)]);
      case Effect(e) =>
        var value := LowerExpr(e, q);
        q.Emit(LEval(value));
        Chain(before, Lower(e, n).code, [LEval(value)]);
      case Store(t, e, span) => LowerStore(t, e, q, span);
      case If(_, _, _) => LowerIf(st, q);
      case While(_, _) => LowerWhile(st, q);
      case Break => q.Emit(LJump(Innermost().end));
      case Continue => q.Emit(LJump(Innermost().start));
      case Return(e) =>
        var value := LowerExpr(e, q);
        q.Emit(LReturn(value));
        Chain(before, Lower(e, n).code, [LReturn(value)]);
      case Block(body) =>
        var inner := new Sequence();
        LowerStatements(body, inner);
        assert inner.lines == LowerBlock(body, old(Innermost()), n, old(labels)).code;
        q.Emit(LBlock(inner.lines));
    }

    method LowerIf(st: NStmt, q: Sequence)
      requires st.If?
      modifies this, q
      ensures loops == old(loops)
      ensures var r := LowerStmt(st, old(Innermost()), old(variables), old(labels));
              variables == r.next && labels == r.labels && q.lines == old(q.lines) + r.code
      decreases st, 1
    {
      hide LowerBlock;
      ghost var n, before := variables, q.lines;
      var condition := LowerExpr(st.cond, q);
      var yes := new Sequence();
      ghost var a := LowerBlock(st.yes, old(Innermost()), variables, labels);
      LowerStatements(st.yes, yes);
      assert yes.lines == a.code;
      var no := new Sequence();
      LowerStatements(st.no, no);
      assert no.lines == LowerBlock(st.no, old(Innermost()), a.next, a.labels).code;
      q.Emit(LIf(condition, yes.lines, no.lines));
      Chain(before, Lower(st.cond, n).code, [LIf(condition, yes.lines, no.lines)]);
    }

    /** The condition belongs to the loop: it is lowered after the label that the body jumps to. */
    method LowerWhile(st: NStmt, q: Sequence)
      requires st.While?
      modifies this, q
      ensures loops == old(loops)
      ensures var r := LowerStmt(st, old(Innermost()), old(variables), old(labels));
              variables == r.next && labels == r.labels && q.lines == old(q.lines) + r.code
      decreases st, 1
    {
      var start, end := labels, labels + 1;
      labels := labels + 2;
      loops := loops + [Labels(start, end)];
      var round := new Sequence();
      LowerRound(st, start, end, round);
      loops := loops[..|loops| - 1];
      q.Emit(LBlock(round.lines));
    }

    /** The label, the condition and the body of a loop, and the label after it. */
    method LowerRound(st: NStmt, start: nat, end: nat, round: Sequence)
      requires st.While? && loops != [] && Innermost() == Labels(start, end) && round.lines == [] && end == start + 1
      modifies this, round
      ensures loops == old(loops)
      ensures var r := Lower(st.cond, old(variables));
              var b := LowerBlock(st.body, Labels(start, end), r.next, old(labels));
              variables == b.next && labels == b.labels && round.lines == LoopCode(r, b.code, start)
      decreases st, 0
    {
      ghost var r := Lower(st.cond, variables);
      round.Emit(LLabel(start));
      var condition := LowerExpr(st.cond, round);
      var body := new Sequence();
      LowerStatements(st.body, body);
      ghost var code := LowerBlock(st.body, Labels(start, end), r.next, old(labels)).code;
      assert body.lines == code;
      CloseRound(round, body, condition, start, end, r, code);
    }

    method CloseRound(round: Sequence, body: Sequence, condition: LExpr, start: nat, end: nat, ghost r: Lowered, ghost code: seq<LStmt>)
      requires round != body && end == start + 1 && condition == r.result
      requires body.lines == code && round.lines == [LLabel(start)] + r.code
      modifies round, body
      ensures round.lines == LoopCode(r, code, start)
    {
      body.Emit(LJump(start));
      round.Emit(LIf(condition, body.lines, []));
      round.Emit(LLabel(end));
      Chain([LLabel(start)], r.code, [LIf(condition, code + [LJump(start)], [])]);
    }

    method LowerStatements(block: seq<NStmt>, q: Sequence)
      modifies this, q
      ensures loops == old(loops)
      ensures var r := LowerBlock(block, old(Innermost()), old(variables), old(labels));
              variables == r.next && labels == r.labels && q.lines == old(q.lines) + r.code
      decreases block, 0
    {
      ghost var loop := Innermost();
      ghost var all := LowerBlock(block, loop, variables, labels);
      var i: nat := 0;
      assert block[0..] == block;
      while i < |block|
        invariant i <= |block| && loops == old(loops)
        invariant LowerBlock(block[i..], loop, variables, labels).next == all.next
        invariant LowerBlock(block[i..], loop, variables, labels).labels == all.labels
        invariant q.lines + LowerBlock(block[i..], loop, variables, labels).code == old(q.lines) + all.code
      {
        ghost var before, first := q.lines, LowerStmt(block[i], loop, variables, labels);
        assert block[i..][0] == block[i] && block[i..][1..] == block[i + 1..];
        LowerStatement(block[i], q);
        Chain(before, first.code, LowerBlock(block[i + 1..], loop, first.next, first.labels).code);
        i := i + 1;
      }
    }
  }

  lemma CheckedPieces(before: seq<LStmt>, resolve: seq<LStmt>, copy: seq<LStmt>, rest: seq<LStmt>)
    ensures before + resolve + copy + rest == before + (resolve + (copy + rest))
  {
    Chain(before + resolve, copy, rest);
    Chain(before, resolve, copy + rest);
  }

  lemma StorePieces(before: seq<LStmt>, l: Lowered, offset: seq<LStmt>, rest: seq<LStmt>)
    ensures before + l.code + [LLet(l.next, l.result)] + offset + rest == before + SaveThen(l, offset + rest)
  {
    Chain(before + l.code + [LLet(l.next, l.result)], offset, rest);
    SavePieces(before, l, offset + rest);
  }

  lemma SavePieces(before: seq<LStmt>, r: Lowered, rest: seq<LStmt>)
    ensures before + r.code + [LLet(r.next, r.result)] + rest == before + SaveThen(r, rest)
  {
    Chain(before, r.code, [LLet(r.next, r.result)]);
    Chain(before, r.code + [LLet(r.next, r.result)], rest);
  }

  lemma SaveSave(before: seq<LStmt>, l: Lowered, r: Lowered, rest: seq<LStmt>)
    ensures before + l.code + [LLet(l.next, l.result)] + r.code + [LLet(r.next, r.result)] + rest ==
            before + SaveThen(l, SaveThen(r, rest))
  {
    SavePieces(before + l.code + [LLet(l.next, l.result)], r, rest);
    SavePieces(before, l, SaveThen(r, rest));
  }

  lemma LogicalPieces(before: seq<LStmt>, code: seq<LStmt>, save: seq<LStmt>, copy: LStmt, branch: LStmt)
    ensures before + code + save + [copy] + [branch] == before + (code + save + [copy, branch])
  {
    assert [copy] + [branch] == [copy, branch];
    Chain(before + code + save, [copy], [branch]);
    Chain(before, code, save);
    Chain(before, code + save, [copy, branch]);
  }
}
