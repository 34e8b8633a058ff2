/** The static analyses of the generator find the very numbers that a body needs, and its frame is no
    larger than they and the alignment make it. */
module FrameSizes {
  import opened Words
  import opened X86
  import opened Codegen
  import opened Statements
  import opened Functions

  /** x is an operand or argument of y. */
  predicate Child(y: Expr, x: Expr) {
    match y
    case Unary(_, z, _) => x == z
    case Binary(_, l, r, _) => x == l || x == r
    case CallTo(_, args, _) => x in args
    case _ => false
  }

  /** From e down to a node in it, operand by operand. */
  predicate Chain(e: Expr, path: seq<Expr>) {
    path != [] && path[0] == e && forall i :: 0 <= i < |path| - 1 ==> Child(path[i], path[i + 1])
  }

  function CallsOn(path: seq<Expr>): nat {
    if path == [] then 0 else (if path[0].CallTo? then 1 else 0) + CallsOn(path[1..])
  }

  lemma ChainTail(e: Expr, path: seq<Expr>)
    requires Chain(e, path) && |path| > 1
    ensures Child(e, path[1]) && Chain(path[1], path[1..])
  {
    var rest := path[1..];
    forall i | 0 <= i < |rest| - 1
      ensures Child(rest[i], rest[i + 1])
    {
      assert rest[i] == path[i + 1] && rest[i + 1] == path[i + 2];
    }
  }

  lemma {:induction false} AllBound(es: seq<Expr>, x: Expr)
    requires x in es
    ensures Depth(x) <= DepthAll(es) && CallDepth(x) <= CallDepthAll(es)
    decreases es
  {
    if x != es[0] {
      AllBound(es[1..], x);
    }
  }

  /** No chain is longer than the depth, and none has more calls than the call depth. */
  lemma {:induction false} ChainBound(e: Expr, path: seq<Expr>)
    requires Chain(e, path)
    ensures |path| <= Depth(e) && CallsOn(path) <= CallDepth(e)
    decreases path
  {
    if |path| > 1 {
      ChainTail(e, path);
      ChainBound(path[1], path[1..]);
      if e.CallTo? {
        AllBound(e.args, path[1]);
      }
    } else {
      assert path[1..] == [];
    }
  }

  lemma {:induction false} DeepestOf(es: seq<Expr>) returns (x: Expr)
    requires es != []
    ensures x in es && Depth(x) == DepthAll(es)
    decreases es
  {
    x := es[0];
    assert es[1..] == [] ==> DepthAll(es[1..]) == 0;
    if Depth(x) < DepthAll(es) {
      x := DeepestOf(es[1..]);
    }
  }

  lemma {:induction false} MostCallsOf(es: seq<Expr>) returns (x: Expr)
    requires es != []
    ensures x in es && CallDepth(x) == CallDepthAll(es)
    decreases es
  {
    x := es[0];
    assert es[1..] == [] ==> CallDepthAll(es[1..]) == 0;
    if CallDepth(x) < CallDepthAll(es) {
      x := MostCallsOf(es[1..]);
    }
  }

  lemma LongerChain(e: Expr, x: Expr, path: seq<Expr>)
    requires Child(e, x) && Chain(x, path)
    ensures Chain(e, [e] + path) && CallsOn([e] + path) == CallsOn(path) + if e.CallTo? then 1 else 0
  {
    var longer := [e] + path;
    assert longer[1..] == path;
    forall i | 0 <= i < |longer| - 1
      ensures Child(longer[i], longer[i + 1])
    {
      if i > 0 {
        assert longer[i] == path[i - 1] && longer[i + 1] == path[i];
      }
    }
  }

  /** Some chain is as long as the depth. */
  lemma {:induction false} DeepestChain(e: Expr) returns (path: seq<Expr>)
    ensures Chain(e, path) && |path| == Depth(e)
    decreases e
  {
    path := [e];
    assert DepthAll([]) == 0;
    if Depth(e) > 1 {
      var x := match e
        case Unary(_, z, _) => z
        case Binary(_, l, r, _) => if Depth(l) > Depth(r) then l else r
        case _ => e;
      if e.CallTo? {
        x := DeepestOf(e.args);
      }
      path := DeepestChain(x);
      LongerChain(e, x, path);
      path := [e] + path;
    }
  }

  /** Some chain has as many calls as the call depth. */
  lemma {:induction false} MostCallsChain(e: Expr) returns (path: seq<Expr>)
    ensures Chain(e, path) && CallsOn(path) == CallDepth(e)
    decreases e
  {
    path := [e];
    assert path[1..] == [];
    if e.Unary? || e.Binary? || (e.CallTo? && e.args != []) {
      var x := match e
        case Unary(_, z, _) => z
        case Binary(_, l, r, _) => if CallDepth(l) > CallDepth(r) then l else r
        case _ => e;
      if e.CallTo? {
        x := MostCallsOf(e.args);
      }
      path := MostCallsChain(x);
      LongerChain(e, x, path);
      path := [e] + path;
    }
  }

  // ----- Calls -----

  /** x is e or somewhere in it. */
  predicate Within(e: Expr, x: Expr)
    decreases e
  {
    x == e ||
    match e
    case Unary(_, y, _) => Within(y, x)
    case Binary(_, l, r, _) => Within(l, x) || Within(r, x)
    case CallTo(_, args, _) => exists a :: a in args && Within(a, x)
    case _ => false
  }

  /** A call of a function of callees, with so many parameters. */
  predicate Passes(callees: seq<Callee>, x: Expr, n: nat) {
    x.CallTo? && x.callee < |callees| && |callees[x.callee].params| == n
  }

  /** And so many of them behind the fourth, when they go onto the stack. */
  predicate PassesOnStack(callees: seq<Callee>, x: Expr, n: nat) {
    x.CallTo? && x.callee < |callees| &&
    var ps := callees[x.callee].params; n == if |ps| > 4 && ps[|ps| - 1].onStack then |ps| - 4 else 0
  }

  lemma {:induction false} CallBound(callees: seq<Callee>, e: Expr, x: Expr, n: nat)
    requires Within(e, x)
    ensures Passes(callees, x, n) ==> n <= ArgsNeed(callees, e)
    ensures PassesOnStack(callees, x, n) ==> n <= StackNeed(callees, e)
    decreases e, 0
  {
    if x != e {
      match e
      case Unary(_, y, _) => CallBound(callees, y, x, n);
      case Binary(_, l, r, _) => if Within(l, x) { CallBound(callees, l, x, n); } else { CallBound(callees, r, x, n); }
      case CallTo(_, args, _) =>
        var a :| a in args && Within(a, x);
        CallBoundAll(callees, args, a, x, n);
      case _ =>
    }
  }

  lemma {:induction false} CallBoundAll(callees: seq<Callee>, es: seq<Expr>, a: Expr, x: Expr, n: nat)
    requires a in es && Within(a, x)
    ensures Passes(callees, x, n) ==> n <= ArgsNeedAll(callees, es)
    ensures PassesOnStack(callees, x, n) ==> n <= StackNeedAll(callees, es)
    decreases es, 0
  {
    if a == es[0] {
      CallBound(callees, a, x, n);
    } else {
      CallBoundAll(callees, es[1..], a, x, n);
    }
  }

  /** Some call has as many parameters as the analysis says, if it says any. */
  lemma {:induction false} MostArguments(callees: seq<Callee>, e: Expr) returns (x: Expr)
    ensures Within(e, x) && (ArgsNeed(callees, e) > 0 ==> Passes(callees, x, ArgsNeed(callees, e)))
    decreases e, 1
  {
    x := e;
    match e
    case Unary(_, y, _) => x := MostArguments(callees, y);
    case Binary(_, l, r, _) =>
      if ArgsNeed(callees, l) > ArgsNeed(callees, r) { x := MostArguments(callees, l); } else { x := MostArguments(callees, r); }
    case CallTo(f, args, _) =>
      if ArgsNeedAll(callees, args) > 0 && !Passes(callees, e, ArgsNeed(callees, e)) {
        var a;
        a, x := MostArgumentsOf(callees, args);
      }
    case _ =>
  }

  lemma {:induction false} MostArgumentsOf(callees: seq<Callee>, es: seq<Expr>) returns (a: Expr, x: Expr)
    requires ArgsNeedAll(callees, es) > 0
    ensures a in es && Within(a, x) && Passes(callees, x, ArgsNeedAll(callees, es))
    decreases es, 0
  {
    if ArgsNeed(callees, es[0]) > ArgsNeedAll(callees, es[1..]) {
      a := es[0];
      x := MostArguments(callees, a);
    } else {
      a, x := MostArgumentsOf(callees, es[1..]);
    }
  }

  lemma {:induction false} MostOnStack(callees: seq<Callee>, e: Expr) returns (x: Expr)
    ensures Within(e, x) && (StackNeed(callees, e) > 0 ==> PassesOnStack(callees, x, StackNeed(callees, e)))
    decreases e, 1
  {
    x := e;
    match e
    case Unary(_, y, _) => x := MostOnStack(callees, y);
    case Binary(_, l, r, _) =>
      if StackNeed(callees, l) > StackNeed(callees, r) { x := MostOnStack(callees, l); } else { x := MostOnStack(callees, r); }
    case CallTo(f, args, _) =>
      if StackNeedAll(callees, args) > 0 && !PassesOnStack(callees, e, StackNeed(callees, e)) {
        var a;
        a, x := MostOnStackOf(callees, args);
      }
    case _ =>
  }

  lemma {:induction false} MostOnStackOf(callees: seq<Callee>, es: seq<Expr>) returns (a: Expr, x: Expr)
    requires StackNeedAll(callees, es) > 0
    ensures a in es && Within(a, x) && PassesOnStack(callees, x, StackNeedAll(callees, es))
    decreases es, 0
  {
    if StackNeed(callees, es[0]) > StackNeedAll(callees, es[1..]) {
      a := es[0];
      x := MostOnStack(callees, a);
    } else {
      a, x := MostOnStackOf(callees, es[1..]);
    }
  }

  // ----- Bodies -----

  /** The statement evaluates e, as its value or condition or inside. */
  predicate Evaluates(s: Stmt, e: Expr)
    decreases s
  {
    match s
    case If(c, a, b) => e == c || BodyEvaluates(a, e) || BodyEvaluates(b, e)
    case _ => e == s.value
  }

  predicate BodyEvaluates(body: seq<Stmt>, e: Expr)
    decreases body
  {
    exists s :: s in body && Evaluates(s, e)
  }

  function Need(k: nat, callees: seq<Callee>, e: Expr): nat {
    if k == 0 then Depth(e) else if k == 1 then CallDepth(e) else if k == 2 then ArgsNeed(callees, e) else StackNeed(callees, e)
  }

  function StmtNeed(k: nat, callees: seq<Callee>, s: Stmt): nat {
    if k == 0 then StmtDepth(s) else if k == 1 then StmtCalls(s) else if k == 2 then StmtArgs(callees, s) else StmtStack(callees, s)
  }

  function BodyNeed(k: nat, callees: seq<Callee>, body: seq<Stmt>): nat {
    if k == 0 then BlockDepth(body) else if k == 1 then BlockCalls(body) else if k == 2 then BlockArgs(callees, body)
    else BlockStack(callees, body)
  }

  lemma NeedOf(k: nat, callees: seq<Callee>, s: Stmt)
    ensures StmtNeed(k, callees, s) ==
            if s.If? then Max(Need(k, callees, s.cond), Max(BodyNeed(k, callees, s.thenBlock), BodyNeed(k, callees, s.elseBlock)))
            else Need(k, callees, s.value)
  {
  }

  lemma NeedsOf(k: nat, callees: seq<Callee>, body: seq<Stmt>)
    ensures BodyNeed(k, callees, body) == if body == [] then 0 else Max(StmtNeed(k, callees, body[0]), BodyNeed(k, callees, body[1..]))
  {
  }

  lemma {:induction false} BodyBound(k: nat, callees: seq<Callee>, body: seq<Stmt>, e: Expr)
    requires BodyEvaluates(body, e)
    ensures Need(k, callees, e) <= BodyNeed(k, callees, body)
    decreases body
  {
    hide Need, StmtNeed, BodyNeed;
    NeedsOf(k, callees, body);
    var s :| s in body && Evaluates(s, e);
    if s == body[0] {
      NeedOf(k, callees, s);
      if s.If? && e != s.cond {
        if BodyEvaluates(s.thenBlock, e) { BodyBound(k, callees, s.thenBlock, e); } else { BodyBound(k, callees, s.elseBlock, e); }
      }
    } else {
      assert s in body[1..];
      BodyBound(k, callees, body[1..], e);
    }
  }

  lemma {:induction false} BodyReached(k: nat, callees: seq<Callee>, body: seq<Stmt>) returns (e: Expr)
    requires BodyNeed(k, callees, body) > 0
    ensures BodyEvaluates(body, e) && Need(k, callees, e) == BodyNeed(k, callees, body)
    decreases body
  {
    hide Need, StmtNeed, BodyNeed;
    NeedsOf(k, callees, body);
    var s := body[0];
    if StmtNeed(k, callees, s) >= BodyNeed(k, callees, body[1..]) {
      NeedOf(k, callees, s);
      assert s in body;
      if !s.If? {
        e := s.value;
      } else if Need(k, callees, s.cond) == BodyNeed(k, callees, body) {
        e := s.cond;
      } else if BodyNeed(k, callees, s.thenBlock) == BodyNeed(k, callees, body) {
        e := BodyReached(k, callees, s.thenBlock);
      } else {
        e := BodyReached(k, callees, s.elseBlock);
      }
    } else {
      e := BodyReached(k, callees, body[1..]);
      var t :| t in body[1..] && Evaluates(t, e);
      assert t in body;
    }
  }

  /** No expression of the body needs more than its layout has: operands nested so deep, calls nested
      in arguments so deep, so many parameters of one call, and so many of them on the stack. */
  lemma LayoutSuffices(callees: seq<Callee>, f: Callee, locals: nat, body: seq<Stmt>, e: Expr, path: seq<Expr>, x: Expr, n: nat)
    requires BodyEvaluates(body, e) && Chain(e, path) && Within(e, x)
    ensures var lay := LayoutFor(callees, f, locals, body);
            && |path| <= lay.depth && CallsOn(path) <= lay.calls
            && (Passes(callees, x, n) ==> n <= lay.perCall) && (PassesOnStack(callees, x, n) ==> n <= lay.outgoing)
  {
    ChainBound(e, path);
    CallBound(callees, e, x, n);
    BodyBound(0, callees, body, e);
    BodyBound(1, callees, body, e);
    BodyBound(2, callees, body, e);
    BodyBound(3, callees, body, e);
  }

  /** And the body needs each of these: some chain is so long, some has so many calls, some call so many
      parameters, or there is none and one slot, and some call so many on the stack. */
  lemma LayoutNeeded(callees: seq<Callee>, f: Callee, locals: nat, body: seq<Stmt>)
    ensures var lay := LayoutFor(callees, f, locals, body);
            && lay.locals == locals && lay.preserveFlags == !f.clobbersFlags
            && (lay.depth > 0 ==> exists e, path :: BodyEvaluates(body, e) && Chain(e, path) && |path| == lay.depth)
            && (lay.calls > 0 ==> exists e, path :: BodyEvaluates(body, e) && Chain(e, path) && CallsOn(path) == lay.calls)
            && (lay.perCall != 1 ==> exists e, x :: BodyEvaluates(body, e) && Within(e, x) && Passes(callees, x, lay.perCall))
            && (lay.outgoing > 0 ==> exists e, x :: BodyEvaluates(body, e) && Within(e, x) && PassesOnStack(callees, x, lay.outgoing))
  {
    hide Chain, BodyEvaluates, Within, Passes, PassesOnStack;
    if BlockDepth(body) > 0 {
      var e := BodyReached(0, callees, body);
      var path := DeepestChain(e);
    }
    if BlockCalls(body) > 0 {
      var e := BodyReached(1, callees, body);
      var path := MostCallsChain(e);
    }
    if BlockArgs(callees, body) > 0 {
      var e := BodyReached(2, callees, body);
      var x := MostArguments(callees, e);
    }
    if BlockStack(callees, body) > 0 {
      var e := BodyReached(3, callees, body);
      var x := MostOnStack(callees, e);
    }
  }

  /** The eight-byte slots of a frame in their order below rbp, counted from 1: locals, the registers at
      the start of the expression, those to be kept, the flags of both, one slot that is not used, the
      spilled operands, and the arguments of each call level. */
  lemma SlotsAre(lay: Layout, k: nat, r: nat, level: nat, i: nat)
    ensures lay.LocalSlot(k) == -8 * (1 + k)
    ensures lay.RegisterSlot(r, false) == -8 * (lay.locals + 1 + r) && lay.RegisterSlot(r, true) == -8 * (lay.locals + 17 + r)
    ensures lay.FlagsSlot(false) == -8 * (lay.locals + 33) && lay.FlagsSlot(true) == -8 * (lay.locals + 34)
    ensures lay.SpillSlot(level) == -8 * (lay.locals + 36 + level)
    ensures lay.CallSlot(level, i) == -8 * (lay.locals + 36 + lay.depth + level * lay.perCall + i)
  {
    assert level * (lay.perCall * 8) == 8 * (level * lay.perCall);
  }

  /** The frame is the least that has 32 bytes of shadow space, 280 for snapshots and eight for every
      slot, and aligns the body: by 8 of 16 when the flags are pushed before it, and otherwise not. */
  lemma FrameExactly(lay: Layout, n: nat)
    requires 312 + 8 * (lay.locals + lay.depth + lay.calls * lay.perCall + lay.outgoing) <= n
    requires n % 16 == if lay.preserveFlags then 0 else 8
    ensures lay.Frame() <= n && 312 + 8 * (lay.locals + lay.depth + lay.calls * lay.perCall + lay.outgoing) <= lay.Frame()
    ensures lay.Frame() % 16 == if lay.preserveFlags then 0 else 8
  {
    NeededIs(lay);
    Rounded(lay.Needed(), n);
  }

  lemma NeededIs(lay: Layout)
    ensures lay.Needed() == 312 + 8 * (lay.locals + lay.depth + lay.calls * lay.perCall + lay.outgoing)
  {
    assert lay.calls * (lay.perCall * 8) == 8 * (lay.calls * lay.perCall);
  }

  lemma Rounded(needed: nat, n: nat)
    requires needed <= n
    ensures n % 16 == 0 ==> needed <= (needed + 15) / 16 * 16 <= n
    ensures n % 16 == 8 ==> needed <= (needed + 7) / 16 * 16 + 8 <= n
  {
  }

  // ----- What the generator refuses -----

  /** How many of the parameters from i on take an argument. */
  function Inputs(params: seq<Param>, i: nat): nat
    requires i <= |params|
    decreases |params| - i
  {
    if i == |params| then 0 else (if params[i].direction == Out then 0 else 1) + Inputs(params, i + 1)
  }

  /** A parameter in a register is in one of the sixteen, and not in rsp or rbp. */
  predicate Placeable(p: Param) {
    p.direction == Out || p.onStack || (p.reg.family < 16 && p.reg.family != 4 && p.reg.family != 5)
  }

  lemma FirstArgument(callees: seq<Callee>, args: seq<Expr>, n: nat)
    requires n < |args|
    ensures (forall j :: 0 <= j < n + 1 ==> Supported(callees, args[j])) <==>
            Supported(callees, args[0]) && forall j :: 0 <= j < n ==> Supported(callees, args[1..][j])
  {
    var rest := args[1..];
    if forall j :: 0 <= j < n ==> Supported(callees, rest[j]) {
      forall j | 1 <= j < n + 1
        ensures Supported(callees, args[j])
      {
        assert rest[j - 1] == args[j];
      }
    }
  }

  lemma {:induction false} ArgumentsSupported(callees: seq<Callee>, params: seq<Param>, args: seq<Expr>, i: nat)
    requires i <= |params|
    ensures SupportedArguments(callees, params, args, i) <==>
      && Inputs(params, i) <= |args| && (forall j :: 0 <= j < Inputs(params, i) ==> Supported(callees, args[j]))
      && forall k :: i <= k < |params| ==> Placeable(params[k])
    decreases |params| - i
  {
    if i < |params| {
      if params[i].direction == Out {
        ArgumentsSupported(callees, params, args, i + 1);
      } else if args != [] {
        ArgumentsSupported(callees, params, args[1..], i + 1);
        if Inputs(params, i + 1) < |args| {
          FirstArgument(callees, args, Inputs(params, i + 1));
        }
      }
    }
  }

  /** A call is generated when the function is known, every parameter that takes an argument has one that
      can be generated, and every parameter can be placed. */
  lemma CallSupported(callees: seq<Callee>, f: nat, args: seq<Expr>, t: Ty)
    ensures Supported(callees, Expr.CallTo(f, args, t)) <==>
      && f < |callees| && Inputs(callees[f].params, 0) <= |args|
      && (forall j :: 0 <= j < Inputs(callees[f].params, 0) ==> Supported(callees, args[j]))
      && forall p :: p in callees[f].params ==> Placeable(p)
  {
    if f < |callees| {
      ArgumentsSupported(callees, callees[f].params, args, 0);
      var params := callees[f].params;
      assert (forall p :: p in params ==> Placeable(p)) ==> forall k :: 0 <= k < |params| ==> params[k] in params;
    }
  }

  /** Nothing else is refused but a register that is none of the sixteen, and what has a refused operand. */
  lemma OthersSupported(callees: seq<Callee>, e: Expr)
    requires !e.CallTo?
    ensures Supported(callees, e) <==> (e.Leaf? ==> e.reg.family < 16) && forall x :: Child(e, x) ==> Supported(callees, x)
  {
    match e
    case Unary(_, x, _) => assert Child(e, x);
    case Binary(_, l, r, _) => assert Child(e, l) && Child(e, r);
    case _ =>
  }
}
