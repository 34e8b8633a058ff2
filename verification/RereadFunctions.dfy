/** Whole functions with operands of different types: the compiled function does what its body means
    with the misread operands reread. */
module RereadFunctions {
  import opened Words
  import opened X86
  import opened Codegen
  import opened Operations
  import opened Simulation
  import opened Calls
  import opened ExpressionProof
  import opened Frames
  import opened Abi
  import opened Statements
  import opened Functions
  import opened MixedOperands

  // ----- What the type checker leaves of a body -----

  ghost predicate Accepted(callees: seq<Callee>, locals: nat, e: Expr)
    decreases e, 0
  {
    match e
    case Unary(op, y, t) => (op == PosOp ==> Retypes(TypeOf(y), t)) && Accepted(callees, locals, y)
    case Binary(op, l, r, t) =>
      && Accepts(TypeOf(l), TypeOf(r)) && t == ResultType(op, TypeOf(l))
      && Accepted(callees, locals, l) && Accepted(callees, locals, r)
    case CallTo(f, args, _) =>
      && f < |callees| && CalleeShape(callees[f])
      && AcceptedAll(callees, locals, callees[f].params, args, 0)
    case _ => Shape(callees, locals, e)
  }

  ghost predicate AcceptedAll(callees: seq<Callee>, locals: nat, params: seq<Param>, args: seq<Expr>, i: nat)
    requires i <= |params|
    decreases args, |params| - i
  {
    if i == |params| then args == []
    else if params[i].direction == Out then AcceptedAll(callees, locals, params, args, i + 1)
    else args != [] && Accepted(callees, locals, args[0]) && AcceptedAll(callees, locals, params, args[1..], i + 1)
  }

  ghost predicate StmtAccepted(callees: seq<Callee>, locals: nat, s: Stmt)
    decreases s
  {
    match s
    case Let(k, e) => k < locals && Accepted(callees, locals, e) && Clean(callees, e, Whole(RAX))
    case If(e, a, b) =>
      && Accepted(callees, locals, e) && Clean(callees, e, Whole(RAX))
      && BlockAccepted(callees, locals, a) && BlockAccepted(callees, locals, b)
    case _ => Accepted(callees, locals, s.value) && Clean(callees, s.value, Whole(RAX))
  }

  ghost predicate BlockAccepted(callees: seq<Callee>, locals: nat, block: seq<Stmt>)
    decreases block
  {
    block == [] || (StmtAccepted(callees, locals, block[0]) && BlockAccepted(callees, locals, block[1..]))
  }

  // ----- The body reread -----

  function RereadStmt(s: Stmt): Stmt
    decreases s
  {
    match s
    case Let(k, e) => Let(k, Reread(e))
    case Do(e) => Do(Reread(e))
    case If(e, a, b) => If(Reread(e), RereadBlock(a), RereadBlock(b))
    case Return(e) => Return(Reread(e))
  }

  function RereadBlock(block: seq<Stmt>): seq<Stmt>
    decreases block
  {
    if block == [] then [] else [RereadStmt(block[0])] + RereadBlock(block[1..])
  }

  lemma RereadFirst(block: seq<Stmt>)
    requires block != []
    ensures RereadBlock(block) != []
    ensures RereadBlock(block)[0] == RereadStmt(block[0]) && RereadBlock(block)[1..] == RereadBlock(block[1..])
  {
  }

  /** Nothing in the block is misread. */
  predicate StmtReadRight(s: Stmt)
    decreases s
  {
    match s
    case If(e, a, b) => ReadRight(e) && BlockReadRight(a) && BlockReadRight(b)
    case _ => ReadRight(s.value)
  }

  predicate BlockReadRight(block: seq<Stmt>)
    decreases block
  {
    block == [] || (StmtReadRight(block[0]) && BlockReadRight(block[1..]))
  }

  lemma {:induction false} StmtKept(s: Stmt)
    ensures RereadStmt(s) == s <==> StmtReadRight(s)
    decreases s
  {
    match s
    case If(e, a, b) =>
      RereadKeeps(e);
      BlockKept(a);
      BlockKept(b);
    case _ => RereadKeeps(s.value);
  }

  /** A block is as it was exactly when nothing in it is misread. */
  lemma {:induction false} BlockKept(block: seq<Stmt>)
    ensures RereadBlock(block) == block <==> BlockReadRight(block)
    decreases block
  {
    if block != [] {
      StmtKept(block[0]);
      BlockKept(block[1..]);
      RereadFirst(block);
      assert block == [block[0]] + block[1..];
    }
  }

  // ----- Its form, its needs and its code -----

  lemma RightShape(callees: seq<Callee>, locals: nat, op: BinOp, left: Ty, right: Ty, r: Expr)
    requires Accepts(left, right) && TypeOf(r) == right && Shape(callees, locals, r)
    ensures var r' := RereadRight(op, left, right, r);
            Shape(callees, locals, r') && OperandTypes(op, ResultType(op, left), left, TypeOf(r'))
  {
    hide Misread, OperandTypes, Accepts, Retypes, TakenAs;
    MisreadIs(op, left, right);
    if Misread(op, left, right) {
      TakenIsRead(op, left, right);
    }
  }

  lemma {:induction false} RereadShape(callees: seq<Callee>, locals: nat, e: Expr)
    requires Accepted(callees, locals, e)
    ensures Shape(callees, locals, Reread(e))
    decreases e, 0
  {
    hide RereadRight, OperandTypes, Accepts, Retypes;
    match e
    case Unary(_, y, _) => RereadShape(callees, locals, y);
    case Binary(op, l, r, _) =>
      RereadShape(callees, locals, l);
      RereadShape(callees, locals, r);
      RightShape(callees, locals, op, TypeOf(l), TypeOf(r), Reread(r));
    case CallTo(f, args, _) => RereadShapes(callees, locals, callees[f].params, args, 0);
    case _ =>
  }

  lemma {:induction false} RereadShapes(callees: seq<Callee>, locals: nat, params: seq<Param>, args: seq<Expr>, i: nat)
    requires i <= |params| && AcceptedAll(callees, locals, params, args, i)
    ensures ShapeAll(callees, locals, params, RereadAll(args), i)
    decreases args, |params| - i
  {
    if i < |params| {
      if params[i].direction == Out {
        RereadShapes(callees, locals, params, args, i + 1);
      } else {
        RereadShape(callees, locals, args[0]);
        RereadShapes(callees, locals, params, args[1..], i + 1);
        assert RereadAll(args)[1..] == RereadAll(args[1..]);
      }
    }
  }

  lemma {:induction false} RereadArgs(callees: seq<Callee>, e: Expr)
    ensures ArgsNeed(callees, Reread(e)) == ArgsNeed(callees, e) && StackNeed(callees, Reread(e)) == StackNeed(callees, e)
    decreases e, 0
  {
    hide Misread;
    match e
    case Unary(_, y, _) => RereadArgs(callees, y);
    case Binary(_, l, r, _) =>
      RereadArgs(callees, l);
      RereadArgs(callees, r);
    case CallTo(_, args, _) => RereadAllArgs(callees, args);
    case _ =>
  }

  lemma {:induction false} RereadAllArgs(callees: seq<Callee>, es: seq<Expr>)
    ensures ArgsNeedAll(callees, RereadAll(es)) == ArgsNeedAll(callees, es)
    ensures StackNeedAll(callees, RereadAll(es)) == StackNeedAll(callees, es)
    decreases es, 0
  {
    if es != [] {
      RereadArgs(callees, es[0]);
      RereadAllArgs(callees, es[1..]);
      assert RereadAll(es)[0] == Reread(es[0]) && RereadAll(es)[1..] == RereadAll(es[1..]);
    }
  }

  lemma WholeReread(callees: seq<Callee>, locals: nat, e: Expr)
    requires Accepted(callees, locals, e) && Clean(callees, e, Whole(RAX))
    ensures WholeShape(callees, locals, Reread(e))
  {
    hide Shape, Clean, Accepted, Whole, Reread;
    RereadShape(callees, locals, e);
    RereadClean(callees, e, Whole(RAX));
  }

  lemma {:induction false} StmtReread(callees: seq<Callee>, locals: nat, s: Stmt)
    requires StmtAccepted(callees, locals, s)
    ensures StmtShape(callees, locals, RereadStmt(s))
    decreases s
  {
    hide WholeShape, Accepted, Clean, Whole, Reread;
    match s
    case If(e, a, b) =>
      WholeReread(callees, locals, e);
      BlockReread(callees, locals, a);
      BlockReread(callees, locals, b);
    case _ => WholeReread(callees, locals, s.value);
  }

  lemma {:induction false} BlockReread(callees: seq<Callee>, locals: nat, block: seq<Stmt>)
    requires BlockAccepted(callees, locals, block)
    ensures BlockShape(callees, locals, RereadBlock(block))
    decreases block
  {
    if block != [] {
      StmtReread(callees, locals, block[0]);
      BlockReread(callees, locals, block[1..]);
      RereadFirst(block);
    }
  }

  lemma {:induction false} StmtNeeds(callees: seq<Callee>, s: Stmt)
    ensures var s' := RereadStmt(s);
            && StmtSpills(s') == StmtSpills(s) && StmtCalls(s') == StmtCalls(s)
            && StmtArgs(callees, s') == StmtArgs(callees, s) && StmtStack(callees, s') == StmtStack(callees, s)
    decreases s
  {
    hide Reread, Spills, CallDepth, ArgsNeed, StackNeed;
    match s
    case If(e, a, b) =>
      RereadNeeds(callees, e);
      RereadArgs(callees, e);
      BlockNeeds(callees, a);
      BlockNeeds(callees, b);
    case _ =>
      RereadNeeds(callees, s.value);
      RereadArgs(callees, s.value);
  }

  lemma {:induction false} BlockNeeds(callees: seq<Callee>, block: seq<Stmt>)
    ensures var b := RereadBlock(block);
            && BlockSpills(b) == BlockSpills(block) && BlockCalls(b) == BlockCalls(block)
            && BlockArgs(callees, b) == BlockArgs(callees, block) && BlockStack(callees, b) == BlockStack(callees, block)
    decreases block
  {
    if block != [] {
      StmtNeeds(callees, block[0]);
      BlockNeeds(callees, block[1..]);
      RereadFirst(block);
    }
  }

  lemma SameExpressionCode(callees: seq<Callee>, lay: Layout, e: Expr)
    ensures ExpressionCode(callees, lay, Reread(e)) == ExpressionCode(callees, lay, e)
  {
    hide Reread, Code;
    RereadCode(callees, lay, e, 0, 0);
  }

  lemma {:induction false} StmtSameCode(callees: seq<Callee>, lay: Layout, epilogue: seq<Instr>, s: Stmt)
    ensures StmtCode(callees, lay, epilogue, RereadStmt(s)) == StmtCode(callees, lay, epilogue, s)
    decreases s
  {
    hide Reread, ExpressionCode, BranchCode;
    match s
    case If(e, a, b) =>
      SameExpressionCode(callees, lay, e);
      BlockSameCode(callees, lay, epilogue, a);
      BlockSameCode(callees, lay, epilogue, b);
    case _ => SameExpressionCode(callees, lay, s.value);
  }

  lemma {:induction false} BlockSameCode(callees: seq<Callee>, lay: Layout, epilogue: seq<Instr>, block: seq<Stmt>)
    ensures BlockCode(callees, lay, epilogue, RereadBlock(block)) == BlockCode(callees, lay, epilogue, block)
    decreases block
  {
    if block != [] {
      StmtSameCode(callees, lay, epilogue, block[0]);
      BlockSameCode(callees, lay, epilogue, block[1..]);
      RereadFirst(block);
    }
  }

  // ----- Functions -----

  /** A function that the type checker lets through, entered with enough stack. */
  ghost predicate Callable(env: Env, lay: Layout, f: Callee, body: seq<Stmt>, entry: Machine) {
    && Ok(entry) && !entry.stopped && OutputsDeclared(f)
    && lay == LayoutFor(env.callees, f, lay.locals, body) && BlockAccepted(env.callees, lay.locals, body)
    && ParamsDeclared(lay, f) && 136 + lay.Frame() <= entry.regs[RSP] && entry.regs[RSP] + 8 < W
  }

  /** Every accepted function, misread operands or not: from the call on the compiled function does
      what its body means with the misread operands reread. */
  lemma FunctionRereads(env: Env, lay: Layout, f: Callee, body: seq<Stmt>, entry: Machine)
    returns (m1: Machine)
    requires Callable(env, lay, f, body, entry)
    ensures BodyStarts(lay, f, entry, m1, FramePointer(f, entry))
    ensures Block(FunctionCode(env.callees, lay, f, body))
    ensures FunctionEnds(f, entry, Run(env, FunctionCode(env.callees, lay, f, body), entry),
                         ExecBlock(env, RereadBlock(body), StartState(lay, m1, FramePointer(f, entry))))
  {
    hide ExecBlock, PrologueCode, BlockCode, Run, FunctionEnds, BodyStarts, BlockShape, BlockAccepted, RereadBlock;
    BlockReread(env.callees, lay.locals, body);
    BlockNeeds(env.callees, body);
    BlockSameCode(env.callees, lay, EpilogueCode(f), body);
    m1 := FunctionCorrect(env, lay, f, RereadBlock(body), entry);
  }
}
