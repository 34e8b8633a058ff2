/** The generator as it works: it appends instructions, moves its nesting levels up and down, and
    patches the distance of a jump once its target is known. */
module Generators {
  import opened Words
  import opened X86
  import opened Codegen
  import opened Abi
  import opened Statements
  import opened Functions

  lemma Assoc(a: seq<Instr>, b: seq<Instr>, c: seq<Instr>)
    ensures (a + b) + c == a + (b + c)
  {
  }

  /** The whole of an outermost expression, or a nested one in place. */
  function Whole(callees: seq<Callee>, lay: Layout, e: Expr, s: nat, c: nat, outer: bool): seq<Instr> {
    if outer then Around(lay, Code(callees, lay, e, s, c)) else Code(callees, lay, e, s, c)
  }

  function Around(lay: Layout, code: seq<Instr>): seq<Instr> {
    SnapshotCode(lay, 0) + (code + RestoreCode(lay, 1))
  }

  lemma Around3(before: seq<Instr>, lay: Layout, code: seq<Instr>)
    ensures before + SnapshotCode(lay, 0) + code + RestoreCode(lay, 1) == before + Around(lay, code)
  {
    Assoc(before, SnapshotCode(lay, 0), code);
    Assoc(before, SnapshotCode(lay, 0) + code, RestoreCode(lay, 1));
    Assoc(SnapshotCode(lay, 0), code, RestoreCode(lay, 1));
  }

  lemma FivePieces(before: seq<Instr>, a: seq<Instr>, b: seq<Instr>, c: seq<Instr>, d: seq<Instr>, e: seq<Instr>)
    ensures before + a + b + c + d + e == before + (a + b + (c + (d + e)))
    ensures before + a + b + c + d + e == before + (a + (b + (c + (d + e))))
  {
    Assoc(before + a + b + c, d, e);
    Assoc(before + a + b, c, d + e);
    Assoc(before + a, b, c + (d + e));
    Assoc(before, a, b + (c + (d + e)));
    Assoc(a, b, c + (d + e));
  }

  lemma ArgumentPieces(before: seq<Instr>, callees: seq<Callee>, lay: Layout, params: seq<Param>, args: seq<Expr>,
                       i: nat, s: nat, c: nat)
    requires i < |params| && params[i].direction != Out && args != []
    ensures before + Code(callees, lay, args[0], s, c + 1) + [Store(RBP, lay.CallSlot(c, i), RAX)] +
            ArgumentCode(callees, lay, params, args[1..], i + 1, s, c) ==
            before + ArgumentCode(callees, lay, params, args, i, s, c)
  {
    var one, store := Code(callees, lay, args[0], s, c + 1), [Store(RBP, lay.CallSlot(c, i), RAX)];
    var rest := ArgumentCode(callees, lay, params, args[1..], i + 1, s, c);
    Assoc(before, one, store);
    Assoc(before, one + store, rest);
  }

  lemma FourPieces(before: seq<Instr>, a: seq<Instr>, b: seq<Instr>, c: seq<Instr>, d: seq<Instr>)
    ensures before + a + b + c + d == before + (a + (b + (c + d)))
  {
    Assoc(before + a + b, c, d);
    Assoc(before + a, b, c + d);
    Assoc(before, a, b + (c + d));
  }

  lemma WholeIsExpression(callees: seq<Callee>, lay: Layout, e: Expr)
    ensures Whole(callees, lay, e, 0, 0, true) == ExpressionCode(callees, lay, e)
  {
  }

  lemma Sites(start: seq<Instr>, one: seq<Instr>, two: seq<Instr>)
    ensures var code := start + [Test(RAX)] + [Jcc(E, 0)] + one + [Jmp(0)] + two;
            && |code| == |start| + |one| + |two| + 3
            && code[|start| + 1] == Jcc(E, 0) && code[|start| + 2 + |one|] == Jmp(0)
  {
  }

  /** Patching the two jumps of an if gives them the lengths of the branches they skip. */
  lemma Patched(start: seq<Instr>, one: seq<Instr>, two: seq<Instr>, code: seq<Instr>, branch: nat, jump: nat)
    requires branch == |start| + 1 && jump == branch + 1 + |one|
    requires code == (start + [Test(RAX)] + [Jcc(E, 0)] + one + [Jmp(0)] + two)
                     [branch := Jcc(E, |one| + 1)][jump := Jmp(|two|)]
    ensures code == start + Conditional(one, two)
  {
  }

  lemma BinaryPieces(before: seq<Instr>, callees: seq<Callee>, lay: Layout, op: BinOp, l: Expr, r: Expr, t: Ty, s: nat, c: nat)
    ensures before + Code(callees, lay, l, s + 1, c) + [Store(RBP, lay.SpillSlot(s), RAX)] + Code(callees, lay, r, s + 1, c)
            + [Load(Register(R10, B64, false), RBP, lay.SpillSlot(s))] + OperationCode(op, t, TypeOf(l))
            == before + Code(callees, lay, Binary(op, l, r, t), s, c)
  {
    FivePieces(before, Code(callees, lay, l, s + 1, c), [Store(RBP, lay.SpillSlot(s), RAX)], Code(callees, lay, r, s + 1, c),
               [Load(Register(R10, B64, false), RBP, lay.SpillSlot(s))], OperationCode(op, t, TypeOf(l)));
  }

  class Generator {
    const callees: seq<Callee>
    const lay: Layout
    const self: Callee
    var code: seq<Instr>
    var spillDepth: nat
    var callDepth: nat
    var expressionLevel: nat

    constructor (callees: seq<Callee>, lay: Layout, self: Callee)
      ensures this.callees == callees && this.lay == lay && this.self == self
      ensures code == [] && spillDepth == 0 && callDepth == 0 && expressionLevel == 0
    {
      this.callees, this.lay, this.self := callees, lay, self;
      code := [];
      spillDepth, callDepth, expressionLevel := 0, 0, 0;
    }

    method Emit(instructions: seq<Instr>)
      modifies this`code
      ensures code == old(code) + instructions
    {
      code := code + instructions;
    }

    /** Sets the distance of the jump at site so that it lands on target. */
    method PatchJump(site: nat, target: nat)
      requires site < target <= |code| && (code[site].Jcc? || code[site].Jmp?)
      modifies this`code
      ensures code == old(code)[site := if old(code)[site].Jcc? then Jcc(old(code)[site].cond, target - site - 1)
                                        else Jmp(target - site - 1)]
    {
      code := code[site := if code[site].Jcc? then Jcc(code[site].cond, target - site - 1) else Jmp(target - site - 1)];
    }

    method EmitComparison(op: BinOp, t: Ty, operand: Ty)
      requires IsComparison(op)
      modifies this`code
      ensures code == old(code) + OperationCode(op, t, operand)
    {
      var start := |code|;
      Emit([Cmp(R10, RAX)]);
      var conditional := |code|;
      Emit([Jcc(CondFor(op, operand.I?), 0), MovImm(RAX, 0)]);
      var jump := |code|;
      Emit([Jmp(0)]);
      var taken := |code|;
      Emit([MovImm(RAX, 1)]);
      PatchJump(conditional, taken);
      PatchJump(jump, |code|);
      assert code[..start] == old(code);
      assert code[start..] == OperationCode(op, t, operand);
      assert code == code[..start] + code[start..];
    }

    method EmitOperation(op: BinOp, t: Ty, operand: Ty)
      modifies this`code
      ensures code == old(code) + OperationCode(op, t, operand)
    {
      if IsComparison(op) {
        EmitComparison(op, t, operand);
      } else if op == DivOp || op == ModOp {
        Emit([MovReg(R11, RAX), MovReg(RAX, R10)]);
        if t.I? {
          Emit([Cqo, Idiv(R11)]);
        } else {
          Emit([Alu(XorOp, RDX, RDX), Div(R11)]);
        }
        if op == ModOp {
          Emit([MovReg(RAX, RDX)]);
        }
        Emit(NormalizeCode(t));
      } else {
        if op == ShlOp {
          Emit([MovReg(RCX, RAX), Shl(R10)]);
        } else if op == ShrOp {
          Emit([MovReg(RCX, RAX), Shr(R10)]);
        } else {
          Emit([Alu(AluFor(op), R10, RAX)]);
        }
        Emit([MovReg(RAX, R10)]);
        Emit(NormalizeCode(t));
      }
    }

    method EmitSnapshot(first: nat)
      requires first <= REGS
      modifies this`code
      ensures code == old(code) + SnapshotCode(lay, first)
    {
      var r := first;
      while r < REGS
        invariant r <= REGS && code + SnapshotCode(lay, r) == old(code) + SnapshotCode(lay, first)
      {
        ghost var before := code;
        var pair := [Store(RBP, lay.RegisterSlot(r, false), r), Store(RBP, lay.RegisterSlot(r, true), r)];
        Emit(pair);
        Assoc(before, pair, SnapshotCode(lay, r + 1));
        r := r + 1;
      }
      ghost var before := code;
      Emit(FlagsCode(lay, false));
      Emit(FlagsCode(lay, true));
      Assoc(before, FlagsCode(lay, false), FlagsCode(lay, true));
    }

    method EmitRestore(first: nat)
      requires first <= REGS
      modifies this`code
      ensures code == old(code) + RestoreCode(lay, first)
    {
      var r := first;
      while r < REGS
        invariant r <= REGS && code + RestoreCode(lay, r) == old(code) + RestoreCode(lay, first)
      {
        ghost var before := code;
        if r != RSP && r != RBP {
          var load := [Load(Register(r, B64, false), RBP, lay.RegisterSlot(r, true))];
          Emit(load);
          Assoc(before, load, RestoreCode(lay, r + 1));
        } else {
          assert RestoreCode(lay, r) == RestoreCode(lay, r + 1);
        }
        r := r + 1;
      }
      Emit([PushSlot(RBP, lay.FlagsSlot(true)), Popfq]);
    }

    /** At the outermost level the registers are saved before and restored after; nested
        expressions are evaluated in place. */
    method EmitExpression(e: Expr) returns (ok: bool)
      modifies this
      ensures ok == Supported(callees, e)
      ensures ok ==> spillDepth == old(spillDepth) && callDepth == old(callDepth) && expressionLevel == old(expressionLevel)
      ensures ok ==>
        code == old(code) + Whole(callees, lay, e, old(spillDepth), old(callDepth), old(expressionLevel) == 0)
      decreases e, 3
    {
      var outer := expressionLevel == 0;
      if outer {
        EmitSnapshot(0);
      }
      expressionLevel := expressionLevel + 1;
      ghost var inner := Code(callees, lay, e, spillDepth, callDepth);
      ok := EmitInner(e);
      expressionLevel := if ok then expressionLevel - 1 else 0;
      if ok && outer {
        EmitRestore(1);
        Around3(old(code), lay, inner);
      }
    }

    method EmitInner(e: Expr) returns (ok: bool)
      requires expressionLevel > 0
      modifies this
      ensures ok == Supported(callees, e)
      ensures ok ==> spillDepth == old(spillDepth) && callDepth == old(callDepth) && expressionLevel == old(expressionLevel)
      ensures ok ==> code == old(code) + Code(callees, lay, e, old(spillDepth), old(callDepth))
      decreases e, 2
    {
      hide LeafCode;
      match e
      case Const(v, _) =>
        Emit([MovImm(RAX, v)]);
        ok := true;
      case AddressOf(symbol, a) =>
        Emit([Lea(RAX, symbol, a)]);
        ok := true;
      case Local(k, t) =>
        Emit([Load(Register(RAX, ScalarWidth(t), false), RBP, lay.LocalSlot(k))]);
        Emit(NormalizeCode(t));
        ok := true;
      case Leaf(reg, t) =>
        ok := reg.family < REGS;
        if ok {
          Emit(LeafCode(lay, reg, t));
        }
      case Unary(op, y, t) =>
        ok := EmitExpression(y);
        if ok {
          Emit(UnaryCode(op, t));
        }
      case Binary(op, l, r, t) => ok := EmitBinary(op, l, r, t);
      case CallTo(f, args, t) => ok := EmitCall(f, args, t);
    }

    method EmitBinary(op: BinOp, l: Expr, r: Expr, t: Ty) returns (ok: bool)
      requires expressionLevel > 0
      modifies this
      ensures ok == Supported(callees, Binary(op, l, r, t))
      ensures ok ==> spillDepth == old(spillDepth) && callDepth == old(callDepth) && expressionLevel == old(expressionLevel)
      ensures ok ==> code == old(code) + Code(callees, lay, Binary(op, l, r, t), old(spillDepth), old(callDepth))
      decreases Binary(op, l, r, t), 1
    {
      var level := spillDepth;
      ok := EmitOperands(op, l, r, t);
      if ok {
        FinishBinary(op, l, r, t, level, old(code));
      }
    }

    method FinishBinary(op: BinOp, l: Expr, r: Expr, t: Ty, s: nat, ghost before: seq<Instr>)
      requires code == before + Code(callees, lay, l, s + 1, callDepth) + [Store(RBP, lay.SpillSlot(s), RAX)]
                       + Code(callees, lay, r, s + 1, callDepth) + [Load(Register(R10, B64, false), RBP, lay.SpillSlot(s))]
      modifies this`code
      ensures code == before + Code(callees, lay, Binary(op, l, r, t), s, callDepth)
    {
      EmitOperation(op, t, TypeOf(l));
      BinaryPieces(before, callees, lay, op, l, r, t, s, callDepth);
    }

    /** The left operand waits in a spill slot while the right one is computed. */
    method EmitOperands(op: BinOp, l: Expr, r: Expr, ghost t: Ty) returns (ok: bool)
      requires expressionLevel > 0
      modifies this
      ensures ok == (Supported(callees, l) && Supported(callees, r))
      ensures ok ==> spillDepth == old(spillDepth) && callDepth == old(callDepth) && expressionLevel == old(expressionLevel)
      ensures ok ==> code == old(code) + Code(callees, lay, l, old(spillDepth) + 1, old(callDepth))
                             + [Store(RBP, lay.SpillSlot(old(spillDepth)), RAX)]
                             + Code(callees, lay, r, old(spillDepth) + 1, old(callDepth))
                             + [Load(Register(R10, B64, false), RBP, lay.SpillSlot(old(spillDepth)))]
      decreases Binary(op, l, r, t), 0
    {
      hide Supported;
      var level := spillDepth;
      spillDepth := spillDepth + 1;
      ok := EmitExpression(l);
      if !ok {
        return;
      }
      Emit([Store(RBP, lay.SpillSlot(level), RAX)]);
      ok := EmitExpression(r);
      if !ok {
        return;
      }
      Emit([Load(Register(R10, B64, false), RBP, lay.SpillSlot(level))]);
      spillDepth := spillDepth - 1;
    }

    method EmitCall(f: nat, args: seq<Expr>, t: Ty) returns (ok: bool)
      requires expressionLevel > 0
      modifies this
      ensures ok == Supported(callees, CallTo(f, args, t))
      ensures ok ==> spillDepth == old(spillDepth) && callDepth == old(callDepth) && expressionLevel == old(expressionLevel)
      ensures ok ==> code == old(code) + Code(callees, lay, CallTo(f, args, t), old(spillDepth), old(callDepth))
      decreases CallTo(f, args, t), 0
    {
      hide ArgumentCode;
      if f >= |callees| {
        return false;
      }
      var level := callDepth;
      callDepth := callDepth + 1;
      ok := EmitArguments(callees[f].params, args, level);
      if ok {
        EmitCallTail(callees[f], f, t, level);
        callDepth := callDepth - 1;
        Assoc(old(code), ArgumentCode(callees, lay, callees[f].params, args, 0, spillDepth, level),
              CallCode(callees[f], lay, f, t, level));
      }
    }

    method EmitCallTail(callee: Callee, f: nat, t: Ty, level: nat)
      modifies this`code
      ensures code == old(code) + CallCode(callee, lay, f, t, level)
    {
      EmitStack(callee.params, level);
      EmitBindings(callee.params, level);
      Emit([Instr.Call(f)]);
      EmitCapture(callee, 0);
      Emit(NormalizeCode(t));
      FivePieces(old(code), StackCode(lay, callee.params, 0, level), BindCode(lay, callee.params, 0, level), [Instr.Call(f)],
                 CaptureCode(lay, callee, 0), NormalizeCode(t));
    }

    method EmitArguments(params: seq<Param>, args: seq<Expr>, level: nat) returns (ok: bool)
      requires expressionLevel > 0 && callDepth == level + 1
      modifies this
      ensures ok == SupportedArguments(callees, params, args, 0)
      ensures ok ==> spillDepth == old(spillDepth) && callDepth == old(callDepth) && expressionLevel == old(expressionLevel)
      ensures ok ==> code == old(code) + ArgumentCode(callees, lay, params, args, 0, old(spillDepth), level)
      decreases args, 0
    {
      ghost var s := spillDepth;
      var i: nat, arg: nat := 0, 0;
      assert args[0..] == args;
      while i < |params|
        invariant i <= |params| && arg <= |args|
        invariant spillDepth == s && callDepth == level + 1 && expressionLevel == old(expressionLevel)
        invariant SupportedArguments(callees, params, args, 0) == SupportedArguments(callees, params, args[arg..], i)
        invariant code + ArgumentCode(callees, lay, params, args[arg..], i, s, level)
                  == old(code) + ArgumentCode(callees, lay, params, args, 0, s, level)
      {
        if params[i].direction != Out {
          if arg == |args| {
            return false;
          }
          ghost var before := code;
          assert args[arg..][0] == args[arg] && args[arg..][1..] == args[arg + 1..];
          var supported := EmitExpression(args[arg]);
          if !supported || !SupportedParam(params[i], i) {
            return false;
          }
          var store := [Store(RBP, lay.CallSlot(level, i), RAX)];
          Emit(store);
          ArgumentPieces(before, callees, lay, params, args[arg..], i, s, level);
          arg := arg + 1;
        }
        i := i + 1;
      }
      ok := true;
    }

    method EmitStack(params: seq<Param>, level: nat)
      modifies this`code
      ensures code == old(code) + StackCode(lay, params, 0, level)
    {
      var i: nat := 0;
      while i < |params|
        invariant i <= |params| && code + StackCode(lay, params, i, level) == old(code) + StackCode(lay, params, 0, level)
      {
        if params[i].onStack && i >= 4 {
          Emit(CopyCode(lay, i, level));
        }
        i := i + 1;
      }
    }

    method EmitBindings(params: seq<Param>, level: nat)
      modifies this`code
      ensures code == old(code) + BindCode(lay, params, 0, level)
    {
      var i: nat := 0;
      while i < |params|
        invariant i <= |params| && code + BindCode(lay, params, i, level) == old(code) + BindCode(lay, params, 0, level)
      {
        if !params[i].onStack && params[i].direction != Out {
          Emit([Load(params[i].reg, RBP, lay.CallSlot(level, i))]);
        }
        i := i + 1;
      }
    }

    method EmitCaptureOf(f: Callee, r: nat)
      requires r < REGS
      modifies this`code
      ensures code + CaptureCode(lay, f, r + 1) == old(code) + CaptureCode(lay, f, r)
    {
      if Changes(f, r) && r != RSP && r != RBP {
        var store := [Store(RBP, lay.RegisterSlot(r, true), r)];
        Emit(store);
        Assoc(old(code), store, CaptureCode(lay, f, r + 1));
      }
    }

    method EmitCapture(f: Callee, first: nat)
      requires first <= REGS
      modifies this`code
      ensures code == old(code) + CaptureCode(lay, f, first)
    {
      var r := first;
      while r < REGS
        invariant r <= REGS && code + CaptureCode(lay, f, r) == old(code) + CaptureCode(lay, f, first)
      {
        EmitCaptureOf(f, r);
        r := r + 1;
      }
      if f.clobbersFlags {
        Emit(FlagsCode(lay, true));
      }
    }

    // ----- Statements -----

    method EmitEpilogue()
      modifies this`code
      ensures code == old(code) + EpilogueCode(self)
    {
      Emit([MovReg(RSP, RBP), Pop(RBP)]);
      EmitPops(SAVED);
      Assoc(old(code), [MovReg(RSP, RBP), Pop(RBP)], PopCode(self, SAVED));
    }

    method EmitPops(count: nat)
      requires count <= SAVED
      modifies this`code
      ensures code == old(code) + PopCode(self, count)
    {
      var i: nat := count;
      while i > 0
        invariant i <= SAVED && code + PopCode(self, i) == old(code) + PopCode(self, count)
      {
        ghost var before := code;
        Emit(PopOne(self, SavedReg(i - 1)));
        Assoc(before, PopOne(self, SavedReg(i - 1)), PopCode(self, i - 1));
        i := i - 1;
      }
      ghost var before := code;
      if !self.clobbersFlags {
        Emit([Popfq]);
      }
      Emit([Ret]);
    }

    /** Every expression of the block can be compiled. */
    static predicate SupportedStmt(callees: seq<Callee>, s: Stmt)
      decreases s
    {
      match s
      case If(e, a, b) => Supported(callees, e) && SupportedBlock(callees, a) && SupportedBlock(callees, b)
      case _ => Supported(callees, s.value)
    }

    static predicate SupportedBlock(callees: seq<Callee>, block: seq<Stmt>)
      decreases block
    {
      block == [] || (SupportedStmt(callees, block[0]) && SupportedBlock(callees, block[1..]))
    }

    predicate Idle()
      reads this
    {
      spillDepth == 0 && callDepth == 0 && expressionLevel == 0
    }

    method EmitStatement(s: Stmt) returns (ok: bool)
      requires Idle()
      modifies this
      ensures ok == SupportedStmt(callees, s)
      ensures ok ==> Idle() && code == old(code) + StmtCode(callees, lay, EpilogueCode(self), s)
      decreases s, 1
    {
      match s
      case Let(k, e) => ok := EmitLet(k, e);
      case Do(e) => ok := EmitWhole(e);
      case Return(e) =>
        ok := EmitWhole(e);
        if ok {
          EmitEpilogue();
          Assoc(old(code), ExpressionCode(callees, lay, e), EpilogueCode(self));
        }
      case If(e, a, b) => ok := EmitIf(e, a, b);
    }

    method EmitWhole(e: Expr) returns (ok: bool)
      requires Idle()
      modifies this
      ensures ok == Supported(callees, e)
      ensures ok ==> Idle() && code == old(code) + ExpressionCode(callees, lay, e)
    {
      ok := EmitExpression(e);
      WholeIsExpression(callees, lay, e);
    }

    method EmitLet(k: nat, e: Expr) returns (ok: bool)
      requires Idle()
      modifies this
      ensures ok == Supported(callees, e)
      ensures ok ==> Idle() && code == old(code) + LetCode(callees, lay, k, e)
    {
      ok := EmitWhole(e);
      if ok {
        Emit(LetTail(lay, k));
        Assoc(old(code), ExpressionCode(callees, lay, e), LetTail(lay, k));
      }
    }

    /** Both jumps are emitted before their distances are known. */
    method EmitIf(e: Expr, a: seq<Stmt>, b: seq<Stmt>) returns (ok: bool)
      requires Idle()
      modifies this
      ensures ok == SupportedStmt(callees, If(e, a, b))
      ensures ok ==> Idle() && code == old(code) + StmtCode(callees, lay, EpilogueCode(self), If(e, a, b))
      decreases If(e, a, b), 0
    {
      ok := EmitWhole(e);
      if !ok {
        return;
      }
      ghost var start := code;
      ghost var one := ResumeCode(lay) + BlockCode(callees, lay, EpilogueCode(self), a);
      ghost var two := ResumeCode(lay) + BlockCode(callees, lay, EpilogueCode(self), b);
      Emit([Test(RAX)]);
      var branch := |code|;
      Emit([Jcc(E, 0)]);
      ok := EmitBranch(a);
      if !ok {
        return;
      }
      var jump := |code|;
      Emit([Jmp(0)]);
      var otherwise := |code|;
      ok := EmitBranch(b);
      if !ok {
        return;
      }
      PatchBoth(branch, otherwise, jump, start, one, two);
      Assoc(old(code), ExpressionCode(callees, lay, e), Conditional(one, two));
    }

    method PatchBoth(branch: nat, otherwise: nat, jump: nat,
                     ghost start: seq<Instr>, ghost one: seq<Instr>, ghost two: seq<Instr>)
      requires code == start + [Test(RAX)] + [Jcc(E, 0)] + one + [Jmp(0)] + two
      requires branch == |start| + 1 && jump == branch + 1 + |one| && otherwise == jump + 1
      modifies this`code
      ensures code == start + Conditional(one, two)
    {
      Sites(start, one, two);
      PatchJump(branch, otherwise);
      PatchJump(jump, |code|);
      Patched(start, one, two, code, branch, jump);
    }

    /** A branch resumes with rax and the flags as the condition left them. */
    method EmitBranch(block: seq<Stmt>) returns (ok: bool)
      requires Idle()
      modifies this
      ensures ok == SupportedBlock(callees, block)
      ensures ok ==> Idle()
      ensures ok ==> code == old(code) + (ResumeCode(lay) + BlockCode(callees, lay, EpilogueCode(self), block))
      decreases block, 1
    {
      Emit(ResumeCode(lay));
      ok := EmitBlock(block);
      if ok {
        Assoc(old(code), ResumeCode(lay), BlockCode(callees, lay, EpilogueCode(self), block));
      }
    }

    method EmitBlock(block: seq<Stmt>) returns (ok: bool)
      requires Idle()
      modifies this
      ensures ok == SupportedBlock(callees, block)
      ensures ok ==> Idle() && code == old(code) + BlockCode(callees, lay, EpilogueCode(self), block)
      decreases block, 0
    {
      var i: nat := 0;
      assert block[0..] == block;
      while i < |block|
        invariant i <= |block| && Idle()
        invariant SupportedBlock(callees, block) == SupportedBlock(callees, block[i..])
        invariant code + BlockCode(callees, lay, EpilogueCode(self), block[i..])
                  == old(code) + BlockCode(callees, lay, EpilogueCode(self), block)
      {
        assert block[i..][0] == block[i] && block[i..][1..] == block[i + 1..];
        ghost var before := code;
        var supported := EmitStatement(block[i]);
        if !supported {
          return false;
        }
        Assoc(before, StmtCode(callees, lay, EpilogueCode(self), block[i]),
              BlockCode(callees, lay, EpilogueCode(self), block[i + 1..]));
        i := i + 1;
      }
      ok := true;
    }

    method EmitPushes(first: nat)
      requires first <= SAVED
      modifies this`code
      ensures code == old(code) + PushCode(first)
    {
      var i := first;
      while i < SAVED
        invariant i <= SAVED && code + PushCode(i) == old(code) + PushCode(first)
      {
        ghost var before := code;
        Emit([Push(SavedReg(i))]);
        Assoc(before, [Push(SavedReg(i))], PushCode(i + 1));
        i := i + 1;
      }
      Emit([Push(RBP), MovReg(RBP, RSP)]);
    }

    method EmitSaves()
      modifies this`code
      ensures code == old(code) + FirstPush(self) + PushCode(0)
    {
      if !self.clobbersFlags {
        Emit([Pushfq]);
      }
      EmitPushes(0);
    }

    method EmitPrologue()
      modifies this`code
      ensures code == old(code) + PrologueCode(lay, self)
    {
      EmitSaves();
      EmitProbe(lay.Frame());
      EmitBinding();
      FourPieces(old(code), FirstPush(self), PushCode(0), ProbeCode(lay.Frame()), BindParams(lay, self));
    }

    method EmitBinding()
      modifies this`code
      ensures code == old(code) + BindParams(lay, self)
    {
      if UsesStack(self) {
        var store := [Store(RBP, lay.RegisterSlot(RAX, true), RAX)];
        var load := [Load(Register(RAX, B64, false), RBP, lay.RegisterSlot(RAX, true))];
        Emit(store);
        EmitParams();
        Emit(load);
        Assoc(old(code) + store, ParamCode(lay, self, 0), load);
        Assoc(old(code), store, ParamCode(lay, self, 0) + load);
      } else {
        EmitParams();
      }
    }

    method EmitProbe(frame: nat)
      modifies this`code
      ensures code == old(code) + ProbeCode(frame)
    {
      var remaining := frame;
      while remaining > 4096
        invariant code + ProbeCode(remaining) == old(code) + ProbeCode(frame)
      {
        ghost var before := code;
        Emit([LowerSp(4096), Touch]);
        ProbeUnfolds(remaining);
        Assoc(before, [LowerSp(4096), Touch], ProbeCode(remaining - 4096));
        remaining := remaining - 4096;
      }
      if remaining > 0 {
        Emit([LowerSp(remaining)]);
      }
    }

    method EmitParams()
      modifies this`code
      ensures code == old(code) + ParamCode(lay, self, 0)
    {
      var i: nat := 0;
      while i < |self.params|
        invariant i <= |self.params| && code + ParamCode(lay, self, i) == old(code) + ParamCode(lay, self, 0)
      {
        ghost var before := code;
        Emit(ParamOne(lay, self, i));
        Assoc(before, ParamOne(lay, self, i), ParamCode(lay, self, i + 1));
        i := i + 1;
      }
    }

    /** The code of a whole function, or a refusal when some expression cannot be compiled. */
    method EmitFunction(body: seq<Stmt>, aligned: bool) returns (ok: bool)
      requires Idle()
      modifies this
      ensures ok == SupportedBlock(callees, body)
      ensures ok ==> code == old(code) + WholeCode(callees, lay, self, body, aligned)
    {
      if !aligned && self.params == [] && |body| == 1 && body[0].Return? && body[0].value.Const? {
        Emit(ShortCode(body[0].value.value));
        return true;
      }
      EmitPrologue();
      ok := EmitBlock(body);
      if ok {
        Assoc(old(code), PrologueCode(lay, self), BlockCode(callees, lay, EpilogueCode(self), body));
      }
    }
  }
}
