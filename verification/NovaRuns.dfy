/** Runs of Nova statements as a whole: what the check for a missing return guarantees, and that
    the fuel of a run only bounds its length. */
module NovaRuns {
  import opened Words
  import opened Codegen
  import opened NovaSource

  /** The front end's test that a block cannot fall off its end. */
  predicate DefinitelyReturns(block: seq<NStmt>) {
    block != [] && (StmtReturns(block[0]) || DefinitelyReturns(block[1..]))
  }

  predicate StmtReturns(st: NStmt) {
    match st
    case Return(_) => true
    case Block(body) => DefinitelyReturns(body)
    case If(_, yes, no) => DefinitelyReturns(yes) && DefinitelyReturns(no)
    case _ => false
  }

  /** A block that passes the test never comes to its end, in any state and for any fuel. */
  lemma {:induction false} ReturningBlockNeverEnds(env: Outside, block: seq<NStmt>, s: map<nat, int>, w: World, fuel: nat)
    requires DefinitelyReturns(block)
    ensures !ExecNs(env, block, s, w, fuel).Normal?
    decreases block
  {
    if StmtReturns(block[0]) {
      ReturningStmtNeverEnds(env, block[0], s, w, fuel);
    } else {
      match ExecN(env, block[0], s, w, fuel)
      case Normal(s', w') => ReturningBlockNeverEnds(env, block[1..], s', w', fuel);
      case _ =>
    }
  }

  lemma {:induction false} ReturningStmtNeverEnds(env: Outside, st: NStmt, s: map<nat, int>, w: World, fuel: nat)
    requires StmtReturns(st)
    ensures !ExecN(env, st, s, w, fuel).Normal?
    decreases st
  {
    match st
    case Block(body) => ReturningBlockNeverEnds(env, body, s, w, fuel);
    case If(c, yes, no) =>
      var cv := EvalN(env, c, s, w);
      if cv.Val? {
        ReturningBlockNeverEnds(env, if cv.v != 0 then yes else no, s, cv.w, fuel);
      }
    case _ =>
  }

  // ----- Fuel -----

  /** A run that ends within its fuel ends the same way with more. */
  lemma {:induction false} MoreFuelStmt(env: Outside, st: NStmt, s: map<nat, int>, w: World, fuel: nat, more: nat)
    requires fuel <= more && !ExecN(env, st, s, w, fuel).OutOfFuel?
    ensures ExecN(env, st, s, w, more) == ExecN(env, st, s, w, fuel)
    decreases fuel, st, 1
  {
    match st
    case If(c, yes, no) =>
      var cv := EvalN(env, c, s, w);
      if cv.Val? {
        MoreFuelBlock(env, if cv.v != 0 then yes else no, s, cv.w, fuel, more);
      }
    case While(c, body) => MoreFuelLoop(env, c, body, s, w, fuel, more);
    case Block(body) => MoreFuelBlock(env, body, s, w, fuel, more);
    case _ =>
  }

  lemma {:induction false} MoreFuelBlock(env: Outside, block: seq<NStmt>, s: map<nat, int>, w: World, fuel: nat, more: nat)
    requires fuel <= more && !ExecNs(env, block, s, w, fuel).OutOfFuel?
    ensures ExecNs(env, block, s, w, more) == ExecNs(env, block, s, w, fuel)
    decreases fuel, block, 0
  {
    if block != [] {
      MoreFuelStmt(env, block[0], s, w, fuel, more);
      match ExecN(env, block[0], s, w, fuel)
      case Normal(s', w') => MoreFuelBlock(env, block[1..], s', w', fuel, more);
      case _ =>
    }
  }

  lemma {:induction false} MoreFuelLoop(env: Outside, c: NExpr, body: seq<NStmt>, s: map<nat, int>, w: World, fuel: nat, more: nat)
    requires fuel <= more && !Loop(env, c, body, s, w, fuel).OutOfFuel?
    ensures Loop(env, c, body, s, w, more) == Loop(env, c, body, s, w, fuel)
    decreases fuel, body, 1
  {
    match EvalN(env, c, s, w)
    case Err(_) =>
    case Val(v, w') =>
      if v != 0 {
        MoreFuelBlock(env, body, s, w', fuel, more);
        var o := ExecNs(env, body, s, w', fuel);
        if o.Normal? || o.Again? {
          MoreFuelLoop(env, c, body, o.s, o.w, fuel - 1, more - 1);
        }
      }
  }
}
