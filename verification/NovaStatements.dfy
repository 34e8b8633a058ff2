/** Lowered statements mean what the source says, loops with break and continue included. */
module NovaStatements {
  import opened Words
  import opened X86
  import opened Codegen
  import opened NovaSource
  import opened NovaTarget
  import opened NovaLowering
  import opened NovaExpressions

  /** Lowered statements, the next free variable and the next free label. */
  datatype Lines = Lines(code: seq<LStmt>, next: nat, labels: nat)

  /** Labels of the innermost loop: where continue and break go. */
  datatype Labels = Labels(start: nat, end: nat)

  function AddressCode(t: Target, n: nat): Lowered {
    var l := Lower(t.handle, n);
    if t.MemberOf? then Lowered([LLet(l.next + 1, LConst(t.offset, U(B64)))], LName(l.next + 1), l.next + 2)
    else OffsetCode(Lower(t.index, l.next + 1), TypeIn(t.index).I?, t.width, t.span)
  }

  /** The value and the second half of a store, once the address has been checked. */
  function ValueCode(h: nat, o: LExpr, v: Lowered, width: nat, span: Span): seq<LStmt> {
    SaveThen(v, ResolveCode(LName(h), o, width, true, v.next + 1, span) + [LStore(LName(v.next + 8), width, LName(v.next))])
  }

  /** The address is resolved and kept, then the value is evaluated. */
  function CheckedCode(h: nat, o: Lowered, v: Lowered, width: nat, first: Span, span: Span): seq<LStmt> {
    ResolveCode(LName(h), o.result, width, true, o.next, first) +
    ([LLet(o.next + RUN_TEMPS, LName(o.next + 7))] + ValueCode(h, o.result, v, width, span))
  }

  /** Checks the address, keeps it, evaluates the value, resolves again and stores. */
  function StoreCode(t: Target, value: NExpr, n: nat, span: Span): Lowered {
    var l, o := Lower(t.handle, n), AddressCode(t, n);
    var v := Lower(value, o.next + RUN_TEMPS + 1);
    Lowered(SaveThen(l, o.code + CheckedCode(l.next, o, v, TargetWidth(t), t.span, span)), LName(v.next), v.next + 1 + RUN_TEMPS)
  }

  function LowerStmt(st: NStmt, loop: Labels, n: nat, l: nat): (r: Lines)
    ensures r.next >= n && r.labels >= l
    decreases st, 0
  {
    match st
    case Let(k, e) =>
      var r := Lower(e, n);
      Lines(r.code + [LLet(k, r.result)], r.next, l)
    case Effect(e) =>
      var r := Lower(e, n);
      Lines(r.code + [LEval(r.result)], r.next, l)
    case Store(t, e, span) =>
      var r := StoreCode(t, e, n, span);
      Lines(r.code, if r.next > n then r.next else n, l)
    case If(c, yes, no) =>
      var r := Lower(c, n);
      var a := LowerBlock(yes, loop, r.next, l);
      var b := LowerBlock(no, loop, a.next, a.labels);
      Lines(r.code + [LIf(r.result, a.code, b.code)], b.next, b.labels)
    case While(c, body) =>
      var r := Lower(c, n);
      var b := LowerBlock(body, Labels(l, l + 1), r.next, l + 2);
      Lines([LBlock(LoopCode(r, b.code, l))], b.next, b.labels)
    case Break => Lines([LJump(loop.end)], n, l)
    case Continue => Lines([LJump(loop.start)], n, l)
    case Return(e) =>
      var r := Lower(e, n);
      Lines(r.code + [LReturn(r.result)], r.next, l)
    case Block(body) =>
      var b := LowerBlock(body, loop, n, l);
      Lines([LBlock(b.code)], b.next, b.labels)
  }

  /** The condition is lowered between the label and the test, so that it is evaluated anew on
      every round. */
  function LoopCode(c: Lowered, body: seq<LStmt>, l: nat): seq<LStmt> {
    [LLabel(l)] + RoundCode(c, body, l) + [LLabel(l + 1)]
  }

  function RoundCode(c: Lowered, body: seq<LStmt>, l: nat): seq<LStmt> {
    c.code + [LIf(c.result, body + [LJump(l)], [])]
  }

  function LowerBlock(block: seq<NStmt>, loop: Labels, n: nat, l: nat): (r: Lines)
    ensures r.next >= n && r.labels >= l
    decreases block, 0
  {
    if block == [] then Lines([], n, l)
    else
      var first := LowerStmt(block[0], loop, n, l);
      var rest := LowerBlock(block[1..], loop, first.next, first.labels);
      Lines(first.code + rest.code, rest.next, rest.labels)
  }

  // ----- What the front end admits -----

  predicate TargetFine(t: Target, n: nat) {
    VarsBelow(t.handle, n) && Sized(t.handle) && (t.ElementOf? ==> VarsBelow(t.index, n) && Sized(t.index) && 1 <= t.width <= 8 && IndexSafe(TypeIn(t.index).I?, t.width))
  }

  predicate ExprFine(e: NExpr, n: nat) {
    VarsBelow(e, n) && Sized(e)
  }

  /** Variables are declared, and break and continue are inside loops. */
  predicate StmtFine(st: NStmt, n: nat, inLoop: bool)
    decreases st, 0
  {
    match st
    case Let(k, e) => k < n && ExprFine(e, n)
    case Effect(e) => ExprFine(e, n)
    case Store(t, e, _) => TargetFine(t, n) && ExprFine(e, n)
    case If(c, yes, no) => ExprFine(c, n) && BlockFine(yes, n, inLoop) && BlockFine(no, n, inLoop)
    case While(c, body) => ExprFine(c, n) && BlockFine(body, n, true)
    case Break => inLoop
    case Continue => inLoop
    case Return(e) => ExprFine(e, n)
    case Block(body) => BlockFine(body, n, inLoop)
  }

  predicate BlockFine(block: seq<NStmt>, n: nat, inLoop: bool)
    decreases block, 0
  {
    block == [] || (StmtFine(block[0], n, inLoop) && BlockFine(block[1..], n, inLoop))
  }

  // ----- Correspondence -----

  /** The lowered outcome is the source's: the same variables and world, the same jump, the same
      value or the same error. */
  ghost predicate Matches(o: Outcome, src: Flow, loop: Labels, n: nat) {
    match src
    case Normal(s, w) => o.Next? && o.w == w && Agree(n, s, o.s)
    case Broke(s, w) => o.Jumps? && o.name == loop.end && o.w == w && Agree(n, s, o.s)
    case Again(s, w) => o.Jumps? && o.name == loop.start && o.w == w && Agree(n, s, o.s)
    case Returned(v, w) => o == Exits(v, w)
    case Failed(w) => o == Exits(0, w)
    case OutOfFuel => o == Spent
  }

  /** From every lowered store that agrees with the source store. */
  ghost predicate Carries(env: Outside, code: seq<LStmt>, src: Flow, loop: Labels, n: nat, s: map<nat, int>, w: World, fuel: nat) {
    && NoLabels(code)
    && forall s1 :: Agree(n, s, s1) ==> Matches(Walk(env, code, 0, s1, w, fuel), src, loop, n)
  }

  lemma CarriesAppend(env: Outside, a: seq<LStmt>, b: seq<LStmt>, first: Flow, src: Flow, loop: Labels, n: nat,
                      s: map<nat, int>, w: World, fuel: nat)
    requires Carries(env, a, first, loop, n, s, w, fuel) && NoLabels(b)
    requires if first.Normal? then Carries(env, b, src, loop, n, first.s, first.w, fuel) else src == first
    ensures Carries(env, a + b, src, loop, n, s, w, fuel)
  {
    assert NoLabels(a + b);
    forall s1 | Agree(n, s, s1)
      ensures Matches(Walk(env, a + b, 0, s1, w, fuel), src, loop, n)
    {
      WalkAppend(env, a, b, s1, w, fuel);
    }
  }

  /** An expression, then one statement on its value. */
  lemma ExprThen(env: Outside, e: NExpr, n: nat, m: nat, st: LStmt, src: Flow, loop: Labels, s: map<nat, int>, w: World, fuel: nat)
    requires ExprFine(e, n) && n <= m && !st.LLabel?
    requires match EvalN(env, e, s, w)
             case Err(w') => src == Failed(w')
             case Val(v, w') =>
               forall s1 :: Agree(n, s, s1) && EvalL(Lower(e, m).result, s1) == v && !Traps(Lower(e, m).result, s1) ==>
                 Matches(Step(env, st, s1, w', fuel), src, loop, n)
    ensures Carries(env, Lower(e, m).code + [st], src, loop, n, s, w, fuel)
  {
    var r := Lower(e, m);
    VarsBelowMore(e, n, m);
    LowerFine(e, m);
    forall s1 | Agree(n, s, s1)
      ensures Matches(Walk(env, r.code + [st], 0, s1, w, fuel), src, loop, n)
    {
      SameMeaning(env, e, n, s, s1, w);
      LowerComputes(env, e, m, s1, w, fuel);
      WalkAppend(env, r.code, [st], s1, w, fuel);
      var o := Walk(env, r.code, 0, s1, w, fuel);
      if o.Next? {
        AgreeTrans(n, m, s, s1, o.s);
        WalkOne(env, st, o.s, o.w, fuel);
      }
    }
  }

  lemma AgreeBoth(n: nat, s: map<nat, int>, s1: map<nat, int>, k: nat, v: int)
    requires Agree(n, s, s1)
    ensures Agree(n, s[k := v], s1[k := v])
  {
    var a, b := s[k := v], s1[k := v];
    forall j: nat | j < n
      ensures Get(b, j) == Get(a, j)
    {
      assert Get(s1, j) == Get(s, j);
    }
  }

  lemma LetCarries(env: Outside, k: nat, e: NExpr, loop: Labels, n: nat, m: nat, s: map<nat, int>, w: World, fuel: nat)
    requires ExprFine(e, n) && k < n <= m
    ensures Carries(env, Lower(e, m).code + [LLet(k, Lower(e, m).result)], ExecN(env, Let(k, e), s, w, fuel), loop, n, s, w, fuel)
  {
    var st, src := LLet(k, Lower(e, m).result), ExecN(env, Let(k, e), s, w, fuel);
    match EvalN(env, e, s, w) {
      case Err(_) =>
      case Val(v, w') =>
        forall s1 | Agree(n, s, s1) && EvalL(Lower(e, m).result, s1) == v && !Traps(Lower(e, m).result, s1)
          ensures Matches(Step(env, st, s1, w', fuel), src, loop, n)
        {
          AgreeBoth(n, s, s1, k, v);
        }
    }
    ExprThen(env, e, n, m, st, src, loop, s, w, fuel);
  }

  lemma EffectCarries(env: Outside, e: NExpr, loop: Labels, n: nat, m: nat, s: map<nat, int>, w: World, fuel: nat)
    requires ExprFine(e, n) && n <= m
    ensures Carries(env, Lower(e, m).code + [LEval(Lower(e, m).result)], ExecN(env, Effect(e), s, w, fuel), loop, n, s, w, fuel)
  {
    ExprThen(env, e, n, m, LEval(Lower(e, m).result), ExecN(env, Effect(e), s, w, fuel), loop, s, w, fuel);
  }

  lemma ReturnCarries(env: Outside, e: NExpr, loop: Labels, n: nat, m: nat, s: map<nat, int>, w: World, fuel: nat)
    requires ExprFine(e, n) && n <= m
    ensures Carries(env, Lower(e, m).code + [LReturn(Lower(e, m).result)], ExecN(env, Return(e), s, w, fuel), loop, n, s, w, fuel)
  {
    ExprThen(env, e, n, m, LReturn(Lower(e, m).result), ExecN(env, Return(e), s, w, fuel), loop, s, w, fuel);
  }

  // ----- Loops -----

  lemma {:induction false} LabelInLoop(mid: seq<LStmt>, l: nat, name: nat)
    requires NoLabels(mid)
    ensures LabelAt([LLabel(l)] + mid + [LLabel(l + 1)], name) ==
            if name == l then 0 else if name == l + 1 then 1 + |mid| else 2 + |mid|
  {
    var list := [LLabel(l)] + mid + [LLabel(l + 1)];
    if name != l {
      assert list[1..] == mid + [LLabel(l + 1)];
      LabelAtEnd(mid, l + 1, name);
    }
  }

  lemma {:induction false} LabelAtEnd(mid: seq<LStmt>, end: nat, name: nat)
    requires NoLabels(mid)
    ensures LabelAt(mid + [LLabel(end)], name) == if name == end then |mid| else 1 + |mid|
    decreases |mid|
  {
    if mid == [] {
      assert mid + [LLabel(end)] == [LLabel(end)];
    } else {
      assert (mid + [LLabel(end)])[1..] == mid[1..] + [LLabel(end)];
      LabelAtEnd(mid[1..], end, name);
    }
  }

  /** What a round's outcome means for the loop around it. */
  function AfterRound(env: Outside, list: seq<LStmt>, l: nat, o: Outcome, fuel: nat): Outcome {
    match o
    case Jumps(name, s, w) =>
      if name == l then (if fuel == 0 then Spent else Walk(env, list, 0, s, w, fuel - 1))
      else if name == l + 1 then Next(s, w) else o
    case _ => o
  }

  lemma {:induction false} WalkRound(env: Outside, mid: seq<LStmt>, l: nat, i: nat, s: map<nat, int>, w: World, fuel: nat)
    requires NoLabels(mid) && i <= |mid|
    ensures var list := [LLabel(l)] + mid + [LLabel(l + 1)];
            Walk(env, list, 1 + i, s, w, fuel) == AfterRound(env, list, l, Walk(env, mid, i, s, w, fuel), fuel)
    decreases |mid| - i
  {
    var list := [LLabel(l)] + mid + [LLabel(l + 1)];
    if i == |mid| {
      assert list[1 + i] == LLabel(l + 1);
      assert Walk(env, list, 2 + i, s, w, fuel) == Next(s, w);
    } else {
      assert list[1 + i] == mid[i];
      match Step(env, mid[i], s, w, fuel)
      case Next(s', w') => WalkRound(env, mid, l, i + 1, s', w', fuel);
      case Jumps(name, s', w') =>
        LabelInLoop(mid, l, name);
        NoLabelThere(mid, name);
        WalkLast(env, mid, l, s', w', fuel);
      case _ =>
    }
  }

  lemma WalkLast(env: Outside, mid: seq<LStmt>, l: nat, s: map<nat, int>, w: World, fuel: nat)
    ensures Walk(env, [LLabel(l)] + mid + [LLabel(l + 1)], 1 + |mid|, s, w, fuel) == Next(s, w)
  {
    var list := [LLabel(l)] + mid + [LLabel(l + 1)];
    assert list[1 + |mid|] == LLabel(l + 1);
    assert Walk(env, list, 2 + |mid|, s, w, fuel) == Next(s, w);
  }

  lemma WalkLoop(env: Outside, mid: seq<LStmt>, l: nat, s: map<nat, int>, w: World, fuel: nat)
    requires NoLabels(mid)
    ensures var list := [LLabel(l)] + mid + [LLabel(l + 1)];
            Walk(env, list, 0, s, w, fuel) == AfterRound(env, list, l, Walk(env, mid, 0, s, w, fuel), fuel)
  {
    assert ([LLabel(l)] + mid + [LLabel(l + 1)])[0] == LLabel(l);
    WalkRound(env, mid, l, 0, s, w, fuel);
  }

  /** One round: the condition, then the body and the jump back, or nothing. */
  ghost predicate RoundMatches(o: Outcome, c: Evaluated, body: Flow, l: nat, n: nat, s: map<nat, int>) {
    match c
    case Err(w) => o == Exits(0, w)
    case Val(v, w) =>
      if v == 0 then o.Next? && o.w == w && Agree(n, s, o.s)
      else match body
        case Normal(s', w') => o.Jumps? && o.name == l && o.w == w' && Agree(n, s', o.s)
        case Again(s', w') => o.Jumps? && o.name == l && o.w == w' && Agree(n, s', o.s)
        case Broke(s', w') => o.Jumps? && o.name == l + 1 && o.w == w' && Agree(n, s', o.s)
        case Returned(v', w') => o == Exits(v', w')
        case Failed(w') => o == Exits(0, w')
        case OutOfFuel => o == Spent
  }

  lemma StepBody(env: Outside, body: seq<LStmt>, flow: Flow, cond: LExpr, v: int, l: nat, n: nat, s: map<nat, int>, s1: map<nat, int>,
                 w: World, fuel: nat)
    requires !Traps(cond, s1) && EvalL(cond, s1) == v && Agree(n, s, s1)
    requires v != 0 ==> Carries(env, body, flow, Labels(l, l + 1), n, s, w, fuel)
    ensures RoundMatches(Step(env, LIf(cond, body + [LJump(l)], []), s1, w, fuel), Val(v, w), flow, l, n, s)
  {
    hide Traps, EvalL, Agree;
    if v != 0 {
      WalkAppend(env, body, [LJump(l)], s1, w, fuel);
      var o := Walk(env, body, 0, s1, w, fuel);
      if o.Next? {
        WalkOne(env, LJump(l), o.s, o.w, fuel);
      }
    } else {
      assert Walk(env, [], 0, s1, w, fuel) == Next(s1, w);
    }
  }

  lemma RunRound(env: Outside, c: NExpr, body: seq<LStmt>, flow: Flow, l: nat, n: nat, m: nat, s: map<nat, int>, s1: map<nat, int>,
                 w: World, fuel: nat)
    requires ExprFine(c, n) && n <= m && Agree(n, s, s1)
    requires var ev := EvalN(env, c, s, w);
             ev.Val? && ev.v != 0 ==> Carries(env, body, flow, Labels(l, l + 1), n, s, ev.w, fuel)
    ensures NoLabels(RoundCode(Lower(c, m), body, l))
    ensures RoundMatches(Walk(env, RoundCode(Lower(c, m), body, l), 0, s1, w, fuel), EvalN(env, c, s, w), flow, l, n, s)
  {
    var r := Lower(c, m);
    var st := LIf(r.result, body + [LJump(l)], []);
    VarsBelowMore(c, n, m);
    LowerFine(c, m);
    SameMeaning(env, c, n, s, s1, w);
    LowerComputes(env, c, m, s1, w, fuel);
    WalkAppend(env, r.code, [st], s1, w, fuel);
    var o := Walk(env, r.code, 0, s1, w, fuel);
    if o.Next? {
      AgreeTrans(n, m, s, s1, o.s);
      WalkOne(env, st, o.s, o.w, fuel);
      StepBody(env, body, flow, r.result, EvalL(r.result, o.s), l, n, s, o.s, o.w, fuel);
    }
  }

  /** The body of a loop corresponds at every fuel, from every store and world. */
  ghost predicate BodyCarries(env: Outside, body: seq<NStmt>, code: seq<LStmt>, l: nat, n: nat, fuel: nat) {
    forall s: map<nat, int>, w: World {:trigger ExecNs(env, body, s, w, fuel)} ::
      Carries(env, code, ExecNs(env, body, s, w, fuel), Labels(l, l + 1), n, s, w, fuel)
  }

  /** A loop after its first round, given what the rest of it does. */
  function Around(c: Evaluated, body: Flow, s: map<nat, int>, rest: Flow, fuel: nat): Flow {
    match c
    case Err(w) => Failed(w)
    case Val(v, w) =>
      if v == 0 then Normal(s, w)
      else match body
        case Broke(s', w') => Normal(s', w')
        case Normal(_, _) => if fuel == 0 then OutOfFuel else rest
        case Again(_, _) => if fuel == 0 then OutOfFuel else rest
        case o => o
  }

  predicate GoesOn(c: Evaluated, body: Flow) {
    c.Val? && c.v != 0 && (body.Normal? || body.Again?)
  }

  lemma LoopUnfolds(env: Outside, c: NExpr, body: seq<NStmt>, s: map<nat, int>, w: World, fuel: nat, rest: Flow)
    requires var ev := EvalN(env, c, s, w);
             var flow := if ev.Val? then ExecNs(env, body, s, ev.w, fuel) else OutOfFuel;
             GoesOn(ev, flow) && fuel > 0 ==> rest == Loop(env, c, body, flow.s, flow.w, fuel - 1)
    ensures var ev := EvalN(env, c, s, w);
            var flow := if ev.Val? then ExecNs(env, body, s, ev.w, fuel) else OutOfFuel;
            Loop(env, c, body, s, w, fuel) == Around(ev, flow, s, rest, fuel)
  {
    hide EvalN, ExecNs;
  }

  lemma RoundCloses(env: Outside, list: seq<LStmt>, o: Outcome, c: Evaluated, body: Flow, rest: Flow, loop: Labels, l: nat, n: nat,
                    s: map<nat, int>, fuel: nat)
    requires RoundMatches(o, c, body, l, n, s)
    requires GoesOn(c, body) && fuel > 0 && o.Jumps? ==> Matches(Walk(env, list, 0, o.s, o.w, fuel - 1), rest, loop, n)
    ensures Matches(AfterRound(env, list, l, o, fuel), Around(c, body, s, rest, fuel), loop, n)
  {
    hide Walk;
  }

  lemma {:induction false} LoopMatches(env: Outside, c: NExpr, body: seq<NStmt>, code: seq<LStmt>, loop: Labels, l: nat, n: nat, m: nat,
                                       s: map<nat, int>, s1: map<nat, int>, w: World, fuel: nat)
    requires ExprFine(c, n) && n <= m && Agree(n, s, s1)
    requires forall k: nat :: k <= fuel ==> BodyCarries(env, body, code, l, n, k)
    ensures Matches(Walk(env, LoopCode(Lower(c, m), code, l), 0, s1, w, fuel), Loop(env, c, body, s, w, fuel), loop, n)
    decreases fuel
  {
    hide Walk, RoundCode, Lower, EvalN, ExecNs, Matches, ExprFine, Around, Carries, Loop;
    var ev := EvalN(env, c, s, w);
    var flow := if ev.Val? then ExecNs(env, body, s, ev.w, fuel) else OutOfFuel;
    var rest := if GoesOn(ev, flow) && fuel > 0 then Loop(env, c, body, flow.s, flow.w, fuel - 1) else OutOfFuel;
    assert BodyCarries(env, body, code, l, n, fuel);
    RunRound(env, c, code, flow, l, n, m, s, s1, w, fuel);
    WalkLoop(env, RoundCode(Lower(c, m), code, l), l, s1, w, fuel);
    var o := Walk(env, RoundCode(Lower(c, m), code, l), 0, s1, w, fuel);
    if GoesOn(ev, flow) && fuel > 0 {
      LoopMatches(env, c, body, code, loop, l, n, m, flow.s, o.s, flow.w, fuel - 1);
    }
    LoopUnfolds(env, c, body, s, w, fuel, rest);
    RoundCloses(env, LoopCode(Lower(c, m), code, l), o, ev, flow, rest, loop, l, n, s, fuel);
  }

  // ----- Stores -----

  /** Code that goes on from a saved value, written in the lowered store. */
  ghost predicate Continues(env: Outside, code: seq<LStmt>, out: Evaluated, n: nat, s: map<nat, int>, w: World, fuel: nat) {
    && NoLabels(code)
    && var o := Walk(env, code, 0, s, w, fuel);
       match out
       case Err(w') => o == Exits(0, w')
       case Val(_, w') => o.Next? && o.w == w' && Agree(n, s, o.s)
  }

  lemma StoreLast(env: Outside, h: nat, o: LExpr, p: nat, width: nat, span: Span, s: map<nat, int>, w: World, fuel: nat)
    requires h <= p && Below(o, p) && !Traps(o, s) && width <= 8
    ensures var code := ResolveCode(LName(h), o, width, true, p + 1, span) + [LStore(LName(p + 8), width, LName(p))];
            Continues(env, code,
                      match Resolve(env, Get(s, h), EvalL(o, s), width, true, w, span)
                      case Err(w') => Err(w')
                      case Val(q, w') => Val(Get(s, p), w'.(trace := w'.trace + [Stored(q, width, Get(s, p))])), p + 1, s, w, fuel)
  {
    hide Below;
    var resolve, store := ResolveCode(LName(h), o, width, true, p + 1, span), LStore(LName(p + 8), width, LName(p));
    BelowMore(o, p, p + 1);
    RunResolve(env, LName(h), o, width, true, p + 1, span, s, w, fuel);
    WalkAppend(env, resolve, [store], s, w, fuel);
    var e := Walk(env, resolve, 0, s, w, fuel);
    if e.Next? {
      WalkOne(env, store, e.s, e.w, fuel);
    }
  }

  lemma {:induction false} BelowMore(e: LExpr, n: nat, m: nat)
    requires Below(e, n) && n <= m
    ensures Below(e, m)
    decreases e
  {
    match e
    case LUn(_, x, _) => BelowMore(x, n, m);
    case LBin(_, _, a, b, _) =>
      BelowMore(a, n, m);
      BelowMore(b, n, m);
    case _ =>
  }

  lemma ContinuesWeaken(env: Outside, code: seq<LStmt>, out: Evaluated, n: nat, m: nat, s: map<nat, int>, w: World, fuel: nat)
    requires Continues(env, code, out, m, s, w, fuel) && n <= m
    ensures Continues(env, code, out, n, s, w, fuel)
  {
  }

  /** A saved value, then code that goes on from it. */
  lemma SaveThenContinues(env: Outside, r: Lowered, ev: Evaluated, rest: seq<LStmt>, out: Evaluated, n: nat,
                          s: map<nat, int>, w: World, fuel: nat)
    requires Computes(env, r, ev, n, s, w, fuel) && n <= r.next && NoLabels(rest)
    requires match ev
             case Err(w') => out == Err(w')
             case Val(v, w') => forall s1 :: Agree(n, s, s1) && Get(s1, r.next) == v ==> Continues(env, rest, out, n, s1, w', fuel)
    ensures Continues(env, SaveThen(r, rest), out, n, s, w, fuel)
  {
    Save(env, r, ev, n, s, w, fuel);
    WalkAppend(env, r.code + [LLet(r.next, r.result)], rest, s, w, fuel);
  }

  lemma HoldsThenContinues(env: Outside, first: seq<LStmt>, k: nat, ev: Evaluated, rest: seq<LStmt>, out: Evaluated, n: nat,
                           s: map<nat, int>, w: World, fuel: nat)
    requires NovaExpressions.Holds(env, first, k, ev, n, s, w, fuel) && NoLabels(rest)
    requires match ev
             case Err(w') => out == Err(w')
             case Val(v, w') => forall s1 :: Agree(n, s, s1) && Get(s1, k) == v ==> Continues(env, rest, out, n, s1, w', fuel)
    ensures Continues(env, first + rest, out, n, s, w, fuel)
  {
    WalkAppend(env, first, rest, s, w, fuel);
  }

  function ValueOutcome(env: Outside, h: int, offset: int, ev: Evaluated, width: nat, span: Span): Evaluated {
    match ev
    case Err(w) => Err(w)
    case Val(v, w) =>
      match Resolve(env, h, offset, width, true, w, span)
      case Err(w') => Err(w')
      case Val(p, w') => Val(v, w'.(trace := w'.trace + [Stored(p, width, v)]))
  }

  lemma ValueNoLabels(h: nat, o: LExpr, v: Lowered, width: nat, span: Span)
    requires NoLabels(v.code)
    ensures NoLabels(ValueCode(h, o, v, width, span))
  {
    RunCodeNoLabels(RESOLVE, LName(h), o, LConst(Spec(width, true), U(B64)), v.next + 1, span);
    NoLabelsAppend(ResolveCode(LName(h), o, width, true, v.next + 1, span), [LStore(LName(v.next + 8), width, LName(v.next))]);
    SaveThenFine(v, ResolveCode(LName(h), o, width, true, v.next + 1, span) + [LStore(LName(v.next + 8), width, LName(v.next))]);
  }

  lemma RunValue(env: Outside, h: nat, o: LExpr, v: Lowered, ev: Evaluated, width: nat, span: Span, k: nat,
                 s: map<nat, int>, w: World, fuel: nat)
    requires Computes(env, v, ev, k, s, w, fuel) && h < k <= v.next && Below(o, k) && !Traps(o, s) && width <= 8
    ensures Continues(env, ValueCode(h, o, v, width, span), ValueOutcome(env, Get(s, h), EvalL(o, s), ev, width, span), k, s, w, fuel)
  {
    hide Computes, Below, Traps, Continues;
    var rest := ResolveCode(LName(h), o, width, true, v.next + 1, span) + [LStore(LName(v.next + 8), width, LName(v.next))];
    var out := ValueOutcome(env, Get(s, h), EvalL(o, s), ev, width, span);
    RunCodeNoLabels(RESOLVE, LName(h), o, LConst(Spec(width, true), U(B64)), v.next + 1, span);
    NoLabelsAppend(ResolveCode(LName(h), o, width, true, v.next + 1, span), [LStore(LName(v.next + 8), width, LName(v.next))]);
    if ev.Val? {
      forall s1 | Agree(k, s, s1) && Get(s1, v.next) == ev.v
        ensures Continues(env, rest, out, k, s1, ev.w, fuel)
      {
        SameValue(o, k, s, s1);
        BelowMore(o, k, v.next);
        StoreLast(env, h, o, v.next, width, span, s1, ev.w, fuel);
        ContinuesWeaken(env, rest, out, k, v.next + 1, s1, ev.w, fuel);
      }
    }
    SaveThenContinues(env, v, ev, rest, out, k, s, w, fuel);
  }

  function CheckedOutcome(env: Outside, h: int, offset: int, value: NExpr, s: map<nat, int>, w: World, width: nat, first: Span, span: Span): Evaluated {
    match Resolve(env, h, offset, width, true, w, first)
    case Err(w') => Err(w')
    case Val(_, w') => ValueOutcome(env, h, offset, EvalN(env, value, s, w'), width, span)
  }

  /** A checked store after its address has been resolved. */
  function CheckedRest(h: nat, o: Lowered, v: Lowered, width: nat, span: Span): seq<LStmt> {
    [LLet(o.next + RUN_TEMPS, LName(o.next + 7))] + ValueCode(h, o.result, v, width, span)
  }

  lemma RunCopied(env: Outside, h: nat, o: Lowered, hv: int, ov: int, v: Lowered, ev: Evaluated, width: nat, span: Span,
                  s: map<nat, int>, w: World, fuel: nat)
    requires h < o.next && Below(o.result, o.next) && !Traps(o.result, s) && width <= 8 && o.next + RUN_TEMPS + 1 <= v.next
    requires Get(s, h) == hv && EvalL(o.result, s) == ov
    requires Computes(env, v, ev, o.next + RUN_TEMPS + 1, s[o.next + RUN_TEMPS := Get(s, o.next + 7)], w, fuel)
    ensures Continues(env, CheckedRest(h, o, v, width, span), ValueOutcome(env, hv, ov, ev, width, span), o.next, s, w, fuel)
  {
    hide Below, ValueOutcome, ValueCode, NoLabels, Walk, Operate, Wrap, UnValue;
    var copy := LLet(o.next + RUN_TEMPS, LName(o.next + 7));
    var s1 := s[o.next + RUN_TEMPS := Get(s, o.next + 7)];
    var k := o.next + RUN_TEMPS + 1;
    SameValue(o.result, o.next, s, s1);
    BelowMore(o.result, o.next, k);
    RunValue(env, h, o.result, v, ev, width, span, k, s1, w, fuel);
    ValueNoLabels(h, o.result, v, width, span);
    WalkOne(env, copy, s, w, fuel);
    WalkAppend(env, [copy], ValueCode(h, o.result, v, width, span), s, w, fuel);
  }

  lemma CheckedRestNoLabels(h: nat, o: Lowered, value: NExpr, n: nat, width: nat, span: Span)
    requires ExprFine(value, n) && n <= o.next
    ensures NoLabels(CheckedRest(h, o, Lower(value, o.next + RUN_TEMPS + 1), width, span))
  {
    var v := Lower(value, o.next + RUN_TEMPS + 1);
    VarsBelowMore(value, n, o.next + RUN_TEMPS + 1);
    LowerFine(value, o.next + RUN_TEMPS + 1);
    ValueNoLabels(h, o.result, v, width, span);
    NoLabelsAppend([LLet(o.next + RUN_TEMPS, LName(o.next + 7))], ValueCode(h, o.result, v, width, span));
  }

  lemma CopyAgrees(n: nat, m: nat, src: map<nat, int>, s: map<nat, int>, s1: map<nat, int>)
    requires n <= m && Agree(n, src, s) && Agree(m, s, s1)
    ensures Agree(n, src, s1[m + RUN_TEMPS := Get(s1, m + 7)])
  {
    AgreeTrans(n, m, src, s, s1);
    AgreeUpdate(n, src, s1, m + RUN_TEMPS, Get(s1, m + 7));
  }

  /** The lowered expression computes what the source one means in a store that agrees below n. */
  lemma ComputesFrom(env: Outside, value: NExpr, n: nat, m: nat, src: map<nat, int>, s: map<nat, int>, w: World, fuel: nat)
    requires ExprFine(value, n) && n <= m && Agree(n, src, s)
    ensures Computes(env, Lower(value, m), EvalN(env, value, src, w), m, s, w, fuel) && Fine(Lower(value, m))
  {
    VarsBelowMore(value, n, m);
    LowerFine(value, m);
    SameMeaning(env, value, n, src, s, w);
    LowerComputes(env, value, m, s, w, fuel);
  }

  lemma RunCheckedRest(env: Outside, h: nat, o: Lowered, value: NExpr, n: nat, width: nat, span: Span,
                       src: map<nat, int>, s: map<nat, int>, s1: map<nat, int>, w: World, fuel: nat)
    requires h < o.next && Below(o.result, o.next) && !Traps(o.result, s) && width <= 8
    requires ExprFine(value, n) && n <= o.next && Agree(n, src, s) && Agree(o.next, s, s1)
    ensures Continues(env, CheckedRest(h, o, Lower(value, o.next + RUN_TEMPS + 1), width, span),
                      ValueOutcome(env, Get(s, h), EvalL(o.result, s), EvalN(env, value, src, w), width, span), o.next, s1, w, fuel)
  {
    hide ExprFine, Continues, CheckedRest, Lower;
    var m := o.next + RUN_TEMPS + 1;
    SameValue(o.result, o.next, s, s1);
    CopyAgrees(n, o.next, src, s, s1);
    ComputesFrom(env, value, n, m, src, s1[o.next + RUN_TEMPS := Get(s1, o.next + 7)], w, fuel);
    RunCopied(env, h, o, Get(s, h), EvalL(o.result, s), Lower(value, m), EvalN(env, value, src, w), width, span, s1, w, fuel);
  }

  lemma RunChecked(env: Outside, h: nat, o: Lowered, value: NExpr, n: nat, width: nat, first: Span, span: Span,
                   src: map<nat, int>, s: map<nat, int>, w: World, fuel: nat)
    requires h < o.next && Below(o.result, o.next) && !Traps(o.result, s) && width <= 8
    requires ExprFine(value, n) && n <= o.next && Agree(n, src, s)
    ensures Continues(env, CheckedCode(h, o, Lower(value, o.next + RUN_TEMPS + 1), width, first, span),
                      CheckedOutcome(env, Get(s, h), EvalL(o.result, s), value, src, w, width, first, span), o.next, s, w, fuel)
  {
    hide Lower, Get, Resolve, ResolveCode, NoLabels;
    var v := Lower(value, o.next + RUN_TEMPS + 1);
    var rest := CheckedRest(h, o, v, width, span);
    var rv := Resolve(env, Get(s, h), EvalL(o.result, s), width, true, w, first);
    var out := CheckedOutcome(env, Get(s, h), EvalL(o.result, s), value, src, w, width, first, span);
    RunResolve(env, LName(h), o.result, width, true, o.next, first, s, w, fuel);
    CheckedRestNoLabels(h, o, value, n, width, span);
    if rv.Val? {
      forall s1 | Agree(o.next, s, s1) && Get(s1, o.next + 7) == rv.v
        ensures Continues(env, rest, out, o.next, s1, rv.w, fuel)
      {
        RunCheckedRest(env, h, o, value, n, width, span, src, s, s1, rv.w, fuel);
      }
    }
    HoldsThenContinues(env, ResolveCode(LName(h), o.result, width, true, o.next, first), o.next + 7, rv, rest, out, o.next, s, w, fuel);
  }

  /** The byte offset of a target, from the store in which its handle has been saved. */
  function AddressOutcome(env: Outside, t: Target, s: map<nat, int>, w: World): Evaluated {
    if t.MemberOf? then Val(Wrap(U(B64), t.offset), w) else OffsetOutcome(EvalN(env, t.index, s, w), t.width, t.span)
  }

  function AddressedOutcome(env: Outside, t: Target, value: NExpr, h: int, s: map<nat, int>, w: World, span: Span): Evaluated {
    match AddressOutcome(env, t, s, w)
    case Err(w') => Err(w')
    case Val(offset, w') => CheckedOutcome(env, h, offset, value, s, w', TargetWidth(t), t.span, span)
  }

  lemma RunFixedOffset(env: Outside, offset: nat, k: nat, s: map<nat, int>, w: World, fuel: nat)
    ensures var o := Lowered([LLet(k, LConst(offset, U(B64)))], LName(k), k + 1);
            Fine(o) && Computes(env, o, Val(Wrap(U(B64), offset), w), k, s, w, fuel)
  {
    WalkOne(env, LLet(k, LConst(offset, U(B64))), s, w, fuel);
  }

  lemma RunIndexOffset(env: Outside, index: NExpr, width: nat, span: Span, n: nat, k: nat, s: map<nat, int>, s1: map<nat, int>, w: World, fuel: nat)
    requires ExprFine(index, n) && n <= k && Agree(n, s, s1) && 0 < width <= 8 && IndexSafe(TypeIn(index).I?, width)
    ensures var o := OffsetCode(Lower(index, k), TypeIn(index).I?, width, span);
            Fine(o) && k < o.next && Computes(env, o, OffsetOutcome(EvalN(env, index, s, w), width, span), k, s1, w, fuel)
  {
    var i := Lower(index, k);
    ComputesFrom(env, index, n, k, s, s1, w, fuel);
    ValueBounds(env, index, s, w);
    RunOffset(env, i, EvalN(env, index, s, w), TypeIn(index).I?, width, k, span, s1, w, fuel);
    SaveThenFine(i, OffsetTail(i.next, TypeIn(index).I?, width, span));
  }

  lemma RunAddress(env: Outside, t: Target, n: nat, m: nat, s: map<nat, int>, s1: map<nat, int>, w: World, fuel: nat)
    requires TargetFine(t, n) && n <= m && Agree(n, s, s1)
    ensures var k := Lower(t.handle, m).next;
            var o := AddressCode(t, m);
            Fine(o) && k < o.next && Computes(env, o, AddressOutcome(env, t, s, w), k + 1, s1, w, fuel)
  {
    var k := Lower(t.handle, m).next;
    if t.MemberOf? {
      RunFixedOffset(env, t.offset, k + 1, s1, w, fuel);
    } else {
      RunIndexOffset(env, t.index, t.width, t.span, n, k + 1, s, s1, w, fuel);
    }
  }

  lemma ComputesThenContinues(env: Outside, o: Lowered, av: Evaluated, rest: seq<LStmt>, out: Evaluated, n: nat, k: nat, m: nat,
                              s: map<nat, int>, w: World, fuel: nat)
    requires Computes(env, o, av, k, s, w, fuel) && n <= k && n <= m && NoLabels(rest)
    requires match av
             case Err(w') => out == Err(w')
             case Val(_, w') => Continues(env, rest, out, m, Walk(env, o.code, 0, s, w, fuel).s, w', fuel)
    ensures Continues(env, o.code + rest, out, n, s, w, fuel)
  {
    WalkAppend(env, o.code, rest, s, w, fuel);
  }

  lemma AddressThenChecked(env: Outside, t: Target, value: NExpr, n: nat, m: nat, span: Span, h: int,
                           s: map<nat, int>, s1: map<nat, int>, w: World, fuel: nat)
    requires TargetFine(t, n) && ExprFine(value, n) && n <= m && Agree(n, s, s1) && Get(s1, Lower(t.handle, m).next) == h
    ensures var k, o := Lower(t.handle, m).next, AddressCode(t, m);
            Continues(env, o.code + CheckedCode(k, o, Lower(value, o.next + RUN_TEMPS + 1), TargetWidth(t), t.span, span),
                      AddressedOutcome(env, t, value, h, s, w, span), n, s1, w, fuel)
  {
    hide Get, Lower, AddressCode, Continues, CheckedCode, AddressOutcome, Walk, Fine, Computes;
    var k, o := Lower(t.handle, m).next, AddressCode(t, m);
    var rest := CheckedCode(k, o, Lower(value, o.next + RUN_TEMPS + 1), TargetWidth(t), t.span, span);
    var av := AddressOutcome(env, t, s, w);
    RunAddress(env, t, n, m, s, s1, w, fuel);
    CheckedNoLabels(k, o, value, n, TargetWidth(t), t.span, span);
    var e := Walk(env, o.code, 0, s1, w, fuel);
    if e.Next? {
      AgreeTrans(n, k + 1, s, s1, e.s);
      assert Get(e.s, k) == h;
      RunChecked(env, k, o, value, n, TargetWidth(t), t.span, span, s, e.s, e.w, fuel);
    }
    ComputesThenContinues(env, o, av, rest, AddressedOutcome(env, t, value, h, s, w, span), n, k + 1, o.next, s1, w, fuel);
  }

  lemma CheckedNoLabels(h: nat, o: Lowered, value: NExpr, n: nat, width: nat, first: Span, span: Span)
    requires ExprFine(value, n) && n <= o.next
    ensures NoLabels(CheckedCode(h, o, Lower(value, o.next + RUN_TEMPS + 1), width, first, span))
  {
    var v := Lower(value, o.next + RUN_TEMPS + 1);
    CheckedRestNoLabels(h, o, value, n, width, span);
    RunCodeNoLabels(RESOLVE, LName(h), o.result, LConst(Spec(width, true), U(B64)), o.next, first);
    NoLabelsAppend(ResolveCode(LName(h), o.result, width, true, o.next, first), CheckedRest(h, o, v, width, span));
  }

  lemma AssignMeaning(env: Outside, t: Target, value: NExpr, s: map<nat, int>, w: World, span: Span)
    ensures Assign(env, t, value, s, w, span) ==
            match EvalN(env, t.handle, s, w)
            case Err(w1) => Err(w1)
            case Val(h, w1) => AddressedOutcome(env, t, value, h, s, w1, span)
  {
  }

  /** All of a store after its handle has been saved. */
  function AfterHandle(t: Target, value: NExpr, m: nat, span: Span): seq<LStmt> {
    var o := AddressCode(t, m);
    o.code + CheckedCode(Lower(t.handle, m).next, o, Lower(value, o.next + RUN_TEMPS + 1), TargetWidth(t), t.span, span)
  }

  lemma AddressFine(t: Target, n: nat, m: nat)
    requires TargetFine(t, n) && n <= m
    ensures Fine(AddressCode(t, m)) && AddressCode(t, m).next > Lower(t.handle, m).next
  {
    hide Lower;
    var k := Lower(t.handle, m).next;
    if t.ElementOf? {
      VarsBelowMore(t.index, n, k + 1);
      LowerFine(t.index, k + 1);
      SaveThenFine(Lower(t.index, k + 1), OffsetTail(Lower(t.index, k + 1).next, TypeIn(t.index).I?, t.width, t.span));
    }
  }

  lemma AfterHandleNoLabels(t: Target, value: NExpr, n: nat, m: nat, span: Span)
    requires TargetFine(t, n) && ExprFine(value, n) && n <= m
    ensures NoLabels(AfterHandle(t, value, m, span))
  {
    hide NoLabels;
    var o := AddressCode(t, m);
    AddressFine(t, n, m);
    var k, v := Lower(t.handle, m).next, Lower(value, o.next + RUN_TEMPS + 1);
    CheckedNoLabels(k, o, value, n, TargetWidth(t), t.span, span);
    NoLabelsAppend(o.code, CheckedCode(k, o, v, TargetWidth(t), t.span, span));
  }

  lemma RunStore(env: Outside, t: Target, value: NExpr, n: nat, m: nat, span: Span, s: map<nat, int>, s1: map<nat, int>, w: World, fuel: nat)
    requires TargetFine(t, n) && ExprFine(value, n) && n <= m && Agree(n, s, s1)
    ensures Continues(env, StoreCode(t, value, m, span).code, Assign(env, t, value, s, w, span), n, s1, w, fuel)
  {
    hide ExprFine, Agree, Continues, Assign, Lower, EvalN;
    var l, rest := Lower(t.handle, m), AfterHandle(t, value, m, span);
    var lv, out := EvalN(env, t.handle, s, w), Assign(env, t, value, s, w, span);
    AssignMeaning(env, t, value, s, w, span);
    VarsBelowMore(t.handle, n, m);
    SameMeaning(env, t.handle, n, s, s1, w);
    LowerComputes(env, t.handle, m, s1, w, fuel);
    AfterHandleNoLabels(t, value, n, m, span);
    if lv.Val? {
      forall s2 | Agree(m, s1, s2) && Get(s2, l.next) == lv.v
        ensures Continues(env, rest, out, n, s2, lv.w, fuel)
      {
        AgreeTrans(n, m, s, s1, s2);
        AddressThenChecked(env, t, value, n, m, span, lv.v, s, s2, lv.w, fuel);
      }
    }
    StoreFrom(env, l, lv, rest, out, n, m, s1, w, fuel);
  }

  lemma StoreFrom(env: Outside, l: Lowered, lv: Evaluated, rest: seq<LStmt>, out: Evaluated, n: nat, m: nat,
                  s1: map<nat, int>, w: World, fuel: nat)
    requires Computes(env, l, lv, m, s1, w, fuel) && n <= m <= l.next && NoLabels(rest)
    requires match lv
             case Err(w') => out == Err(w')
             case Val(v, w') => forall s2 :: Agree(m, s1, s2) && Get(s2, l.next) == v ==> Continues(env, rest, out, n, s2, w', fuel)
    ensures Continues(env, SaveThen(l, rest), out, n, s1, w, fuel)
  {
    Save(env, l, lv, m, s1, w, fuel);
    WalkAppend(env, l.code + [LLet(l.next, l.result)], rest, s1, w, fuel);
  }

  // ----- The theorem for statements -----

  lemma StoreCarries(env: Outside, t: Target, value: NExpr, loop: Labels, n: nat, m: nat, span: Span, s: map<nat, int>, w: World, fuel: nat)
    requires TargetFine(t, n) && ExprFine(value, n) && n <= m
    ensures Carries(env, StoreCode(t, value, m, span).code, ExecN(env, NStmt.Store(t, value, span), s, w, fuel), loop, n, s, w, fuel)
  {
    hide TargetFine, ExprFine, StoreCode, NoLabels, Walk;
    var code := StoreCode(t, value, m, span).code;
    forall s1 | Agree(n, s, s1)
      ensures NoLabels(code) && Matches(Walk(env, code, 0, s1, w, fuel), ExecN(env, NStmt.Store(t, value, span), s, w, fuel), loop, n)
    {
      RunStore(env, t, value, n, m, span, s, s1, w, fuel);
      var o := Walk(env, code, 0, s1, w, fuel);
      if o.Next? {
        AgreeTrans(n, n, s, s1, o.s);
      }
    }
    assert Agree(n, s, s);
  }

  lemma IfCarries(env: Outside, c: NExpr, yes: seq<NStmt>, no: seq<NStmt>, a: seq<LStmt>, b: seq<LStmt>, loop: Labels, n: nat, m: nat,
                  s: map<nat, int>, w: World, fuel: nat)
    requires ExprFine(c, n) && n <= m
    requires var ev := EvalN(env, c, s, w);
             ev.Val? ==> Carries(env, if ev.v != 0 then a else b, ExecNs(env, if ev.v != 0 then yes else no, s, ev.w, fuel), loop, n, s, ev.w, fuel)
    ensures Carries(env, Lower(c, m).code + [LIf(Lower(c, m).result, a, b)], ExecN(env, If(c, yes, no), s, w, fuel), loop, n, s, w, fuel)
  {
    hide ExprFine, EvalN, Lower, Matches;
    ExprThen(env, c, n, m, LIf(Lower(c, m).result, a, b), ExecN(env, If(c, yes, no), s, w, fuel), loop, s, w, fuel);
  }

  lemma OneCarries(env: Outside, st: LStmt, src: Flow, loop: Labels, n: nat, s: map<nat, int>, w: World, fuel: nat)
    requires !st.LLabel?
    requires forall s1 :: Agree(n, s, s1) ==> Matches(Step(env, st, s1, w, fuel), src, loop, n)
    ensures Carries(env, [st], src, loop, n, s, w, fuel)
  {
    hide Walk, Step, Matches, Agree, NoLabels;
    WalkOne(env, st, s, w, fuel);
    forall s1 | Agree(n, s, s1)
      ensures Matches(Walk(env, [st], 0, s1, w, fuel), src, loop, n)
    {
      WalkOne(env, st, s1, w, fuel);
    }
  }

  lemma {:induction false} WhileCarries(env: Outside, c: NExpr, body: seq<NStmt>, loop: Labels, n: nat, m: nat, l: nat,
                                        s: map<nat, int>, w: World, fuel: nat)
    requires ExprFine(c, n) && BlockFine(body, n, true) && n <= m
    ensures Carries(env, LowerStmt(While(c, body), loop, m, l).code, ExecN(env, While(c, body), s, w, fuel), loop, n, s, w, fuel)
    decreases While(c, body), 0
  {
    hide LowerBlock, ExecNs, Agree, Matches, LoopCode;
    var r := Lower(c, m);
    var code := LowerBlock(body, Labels(l, l + 1), r.next, l + 2).code;
    forall k: nat | k <= fuel
      ensures BodyCarries(env, body, code, l, n, k)
    {
      forall s': map<nat, int>, w': World
        ensures Carries(env, code, ExecNs(env, body, s', w', k), Labels(l, l + 1), n, s', w', k)
      {
        BlockCarries(env, body, Labels(l, l + 1), true, n, r.next, l + 2, s', w', k);
      }
    }
    forall s1 | Agree(n, s, s1)
      ensures Matches(Step(env, LBlock(LoopCode(r, code, l)), s1, w, fuel), ExecN(env, While(c, body), s, w, fuel), loop, n)
    {
      LoopMatches(env, c, body, code, loop, l, n, m, s, s1, w, fuel);
    }
    OneCarries(env, LBlock(LoopCode(r, code, l)), ExecN(env, While(c, body), s, w, fuel), loop, n, s, w, fuel);
  }

  lemma NestedCarries(env: Outside, code: seq<LStmt>, src: Flow, loop: Labels, n: nat, s: map<nat, int>, w: World, fuel: nat)
    requires Carries(env, code, src, loop, n, s, w, fuel)
    ensures Carries(env, [LBlock(code)], src, loop, n, s, w, fuel)
  {
    OneCarries(env, LBlock(code), src, loop, n, s, w, fuel);
  }

  lemma JumpCarries(env: Outside, loop: Labels, n: nat, s: map<nat, int>, w: World, fuel: nat)
    ensures Carries(env, [LJump(loop.end)], Broke(s, w), loop, n, s, w, fuel)
    ensures Carries(env, [LJump(loop.start)], Again(s, w), loop, n, s, w, fuel)
  {
    OneCarries(env, LJump(loop.end), Broke(s, w), loop, n, s, w, fuel);
    OneCarries(env, LJump(loop.start), Again(s, w), loop, n, s, w, fuel);
  }

  /** A lowered statement does what the source statement does, from every store that agrees on the
      source variables, at every fuel. */
  lemma {:induction false} StmtCarries(env: Outside, st: NStmt, loop: Labels, inLoop: bool, n: nat, m: nat, l: nat,
                                       s: map<nat, int>, w: World, fuel: nat)
    requires StmtFine(st, n, inLoop) && n <= m
    ensures Carries(env, LowerStmt(st, loop, m, l).code, ExecN(env, st, s, w, fuel), loop, n, s, w, fuel)
    decreases st, 1
  {
    hide Carries, Lower, LowerBlock, ExecNs, EvalN;
    match st
    case Let(k, e) => LetCarries(env, k, e, loop, n, m, s, w, fuel);
    case Effect(e) => EffectCarries(env, e, loop, n, m, s, w, fuel);
    case Store(t, e, span) => StoreCarries(env, t, e, loop, n, m, span, s, w, fuel);
    case If(c, yes, no) => BranchesCarry(env, c, yes, no, loop, inLoop, n, m, l, s, w, fuel);
    case While(c, body) => WhileCarries(env, c, body, loop, n, m, l, s, w, fuel);
    case Break => JumpCarries(env, loop, n, s, w, fuel);
    case Continue => JumpCarries(env, loop, n, s, w, fuel);
    case Return(e) => ReturnCarries(env, e, loop, n, m, s, w, fuel);
    case Block(body) =>
      BlockCarries(env, body, loop, inLoop, n, m, l, s, w, fuel);
      NestedCarries(env, LowerBlock(body, loop, m, l).code, ExecNs(env, body, s, w, fuel), loop, n, s, w, fuel);
  }

  lemma {:induction false} BranchesCarry(env: Outside, c: NExpr, yes: seq<NStmt>, no: seq<NStmt>, loop: Labels, inLoop: bool,
                                         n: nat, m: nat, l: nat, s: map<nat, int>, w: World, fuel: nat)
    requires ExprFine(c, n) && BlockFine(yes, n, inLoop) && BlockFine(no, n, inLoop) && n <= m
    ensures Carries(env, LowerStmt(If(c, yes, no), loop, m, l).code, ExecN(env, If(c, yes, no), s, w, fuel), loop, n, s, w, fuel)
    decreases If(c, yes, no), 0
  {
    var r := Lower(c, m);
    var a := LowerBlock(yes, loop, r.next, l);
    var b := LowerBlock(no, loop, a.next, a.labels);
    var ev := EvalN(env, c, s, w);
    if ev.Val? {
      if ev.v != 0 {
        BlockCarries(env, yes, loop, inLoop, n, r.next, l, s, ev.w, fuel);
      } else {
        BlockCarries(env, no, loop, inLoop, n, a.next, a.labels, s, ev.w, fuel);
      }
    }
    IfCarries(env, c, yes, no, a.code, b.code, loop, n, m, s, w, fuel);
  }

  /** A lowered block of a function does what the source block does: same variables, same calls and
      stores in the same order, same value, or the same first error at the same position. */
  lemma {:induction false} BlockCarries(env: Outside, block: seq<NStmt>, loop: Labels, inLoop: bool, n: nat, m: nat, l: nat,
                                        s: map<nat, int>, w: World, fuel: nat)
    requires BlockFine(block, n, inLoop) && n <= m
    ensures Carries(env, LowerBlock(block, loop, m, l).code, ExecNs(env, block, s, w, fuel), loop, n, s, w, fuel)
    decreases block, 0
  {
    if block == [] {
      assert forall s1 :: Walk(env, [], 0, s1, w, fuel) == Next(s1, w);
    } else {
      var first := LowerStmt(block[0], loop, m, l);
      var rest := LowerBlock(block[1..], loop, first.next, first.labels);
      var flow := ExecN(env, block[0], s, w, fuel);
      StmtCarries(env, block[0], loop, inLoop, n, m, l, s, w, fuel);
      if flow.Normal? {
        BlockCarries(env, block[1..], loop, inLoop, n, first.next, first.labels, flow.s, flow.w, fuel);
      } else {
        BlockCarries(env, block[1..], loop, inLoop, n, first.next, first.labels, s, w, fuel);
      }
      CarriesAppend(env, first.code, rest.code, flow, ExecNs(env, block, s, w, fuel), loop, n, s, w, fuel);
    }
  }

  // ----- The status tells -----

  predicate StatusOk(ev: Evaluated) {
    match ev case Err(w) => w.code != 0 case Val(_, w) => w.code == 0
  }

  lemma RuntimeStatus(env: Outside, operation: nat, a: int, b: int, d: int, w: World, span: Span)
    requires w.code == 0
    ensures StatusOk(RunOperation(env, operation, a, b, d, w, span))
  {
  }

  /** Evaluation goes on exactly as long as no error is recorded. */
  lemma {:induction false} EvalStatus(env: Outside, e: NExpr, s: map<nat, int>, w: World)
    requires w.code == 0
    ensures StatusOk(EvalN(env, e, s, w))
    decreases e, 1
  {
    match e
    case Lit(_, _) =>
    case Var(_, _) =>
    case Un(_, x, _) => EvalStatus(env, x, s, w);
    case Bin(_, a, b, _, _) => PairStatus(env, e, a, b, s, w);
    case LogicalAnd(a, b) => PairStatus(env, e, a, b, s, w);
    case LogicalOr(a, b) => PairStatus(env, e, a, b, s, w);
    case Apply(_, args, _, _) => ArgumentsStatus(env, args, s, w);
    case Length(h, _, _) => EvalStatus(env, h, s, w);
    case Element(h, i, _, _, _) => PairStatus(env, e, h, i, s, w);
    case Member(h, _, _, _, _) => EvalStatus(env, h, s, w);
  }

  lemma {:induction false} PairStatus(env: Outside, e: NExpr, a: NExpr, b: NExpr, s: map<nat, int>, w: World)
    requires w.code == 0 && a < e && b < e
    ensures StatusOk(EvalN(env, a, s, w))
    ensures EvalN(env, a, s, w).Val? ==> StatusOk(EvalN(env, b, s, EvalN(env, a, s, w).w))
    decreases e, 0
  {
    EvalStatus(env, a, s, w);
    if EvalN(env, a, s, w).Val? {
      EvalStatus(env, b, s, EvalN(env, a, s, w).w);
    }
  }

  lemma {:induction false} ArgumentsStatus(env: Outside, es: seq<NExpr>, s: map<nat, int>, w: World)
    requires w.code == 0
    ensures match EvalNs(env, es, s, w) case Errs(w') => w'.code != 0 case Vals(_, w') => w'.code == 0
    decreases es, 0
  {
    if es != [] {
      EvalStatus(env, es[0], s, w);
      match EvalN(env, es[0], s, w)
      case Err(_) =>
      case Val(_, w') => ArgumentsStatus(env, es[1..], s, w');
    }
  }

  lemma AssignStatus(env: Outside, t: Target, value: NExpr, s: map<nat, int>, w: World, span: Span)
    requires w.code == 0
    ensures StatusOk(Assign(env, t, value, s, w, span))
  {
    EvalStatus(env, t.handle, s, w);
    AssignMeaning(env, t, value, s, w, span);
    var lv := EvalN(env, t.handle, s, w);
    if lv.Val? {
      if t.ElementOf? {
        EvalStatus(env, t.index, s, lv.w);
      }
      var av := AddressOutcome(env, t, s, lv.w);
      if av.Val? {
        CheckedStatus(env, lv.v, av.v, value, s, av.w, TargetWidth(t), t.span, span);
      }
    }
  }

  lemma CheckedStatus(env: Outside, h: int, offset: int, value: NExpr, s: map<nat, int>, w: World, width: nat, first: Span, span: Span)
    requires w.code == 0
    ensures StatusOk(CheckedOutcome(env, h, offset, value, s, w, width, first, span))
  {
    RuntimeStatus(env, RESOLVE, h, offset, Spec(width, true), w, first);
    var rv := Resolve(env, h, offset, width, true, w, first);
    if rv.Val? {
      EvalStatus(env, value, s, rv.w);
      var ev := EvalN(env, value, s, rv.w);
      if ev.Val? {
        RuntimeStatus(env, RESOLVE, h, offset, Spec(width, true), ev.w, span);
      }
    }
  }

  predicate FlowStatus(o: Flow) {
    match o
    case Failed(w) => w.code != 0
    case Returned(_, w) => w.code == 0
    case OutOfFuel => true
    case _ => o.w.code == 0
  }

  lemma {:induction false} StmtStatus(env: Outside, st: NStmt, s: map<nat, int>, w: World, fuel: nat)
    requires w.code == 0
    ensures FlowStatus(ExecN(env, st, s, w, fuel))
    decreases fuel, st, 1
  {
    match st
    case Let(_, e) => EvalStatus(env, e, s, w);
    case Effect(e) => EvalStatus(env, e, s, w);
    case Store(t, e, span) => AssignStatus(env, t, e, s, w, span);
    case If(c, yes, no) =>
      EvalStatus(env, c, s, w);
      var ev := EvalN(env, c, s, w);
      if ev.Val? {
        BlockStatus(env, if ev.v != 0 then yes else no, s, ev.w, fuel);
      }
    case While(c, body) => LoopStatus(env, c, body, s, w, fuel);
    case Return(e) => EvalStatus(env, e, s, w);
    case Block(body) => BlockStatus(env, body, s, w, fuel);
    case _ =>
  }

  lemma {:induction false} LoopStatus(env: Outside, c: NExpr, body: seq<NStmt>, s: map<nat, int>, w: World, fuel: nat)
    requires w.code == 0
    ensures FlowStatus(Loop(env, c, body, s, w, fuel))
    decreases fuel, body, 1
  {
    EvalStatus(env, c, s, w);
    var ev := EvalN(env, c, s, w);
    if ev.Val? && ev.v != 0 {
      BlockStatus(env, body, s, ev.w, fuel);
      var o := ExecNs(env, body, s, ev.w, fuel);
      if (o.Normal? || o.Again?) && fuel > 0 {
        LoopStatus(env, c, body, o.s, o.w, fuel - 1);
      }
    }
  }

  lemma {:induction false} BlockStatus(env: Outside, block: seq<NStmt>, s: map<nat, int>, w: World, fuel: nat)
    requires w.code == 0
    ensures FlowStatus(ExecNs(env, block, s, w, fuel))
    decreases fuel, block, 0
  {
    if block != [] {
      StmtStatus(env, block[0], s, w, fuel);
      var o := ExecN(env, block[0], s, w, fuel);
      if o.Normal? {
        BlockStatus(env, block[1..], o.s, o.w, fuel);
      }
    }
  }

  /** A whole body, entered without an error: the caller of the lowered code sees status zero and
      the source's value, or the source's error with a non-zero status; never a trap. */
  lemma BodyCorrect(env: Outside, body: seq<NStmt>, n: nat, s: map<nat, int>, w: World, fuel: nat)
    requires BlockFine(body, n, false) && w.code == 0
    ensures var o := Walk(env, LowerBlock(body, Labels(0, 0), n, 0).code, 0, s, w, fuel);
            match ExecNs(env, body, s, w, fuel)
            case Returned(v, w') => o == Exits(v, w') && w'.code == 0
            case Failed(w') => o == Exits(0, w') && w'.code != 0
            case OutOfFuel => o == Spent
            case _ => !o.Exits? && !o.Trapped?
  {
    BlockCarries(env, body, Labels(0, 0), false, n, n, 0, s, w, fuel);
    BlockStatus(env, body, s, w, fuel);
    assert Agree(n, s, s);
  }
}
