/** The control-flow graph of the conformance verifier: the structured statement language with
    its small-step meaning, and the builder that turns a function body into graph nodes. */
module Cfg {
  type Id = nat  // statement numbers are one-based; zero is "no statement"

  datatype Kind = Block | Let | Return | Call | If | Instruction | Label
  datatype Branch = NotBranch | Jump | Conditional
  datatype Condition = Computed | LiteralTrue | LiteralFalse
  datatype Stmt = Stmt(kind: Kind, next: Id, first: Id, thenBranch: Id, elseBranch: Id,
                       branch: Branch, target: Id, terminal: bool, condition: Condition)

  predicate ValidId(p: seq<Stmt>, id: Id) {
    1 <= id <= |p|
  }

  predicate IsBranch(s: Stmt) {
    s.kind == Instruction && s.branch != NotBranch
  }

  function NextOf(p: seq<Stmt>, id: Id): Id {
    if ValidId(p, id) then p[id - 1].next else 0
  }

  // ----- Meaning: a statement together with the stack of constructs it is nested in -----

  datatype Frame = InBlock(owner: Id) | InBranch(owner: Id)
  datatype Config = At(id: Id, stack: seq<Frame>) | Exit

  /** Where control goes when statement id, nested as stack says, completes normally. */
  function After(p: seq<Stmt>, id: Id, stack: seq<Frame>): Config
    decreases |stack|
  {
    if stack == [] then Exit
    else match stack[0]
      case InBlock(b) => if NextOf(p, id) != 0 then At(NextOf(p, id), stack) else After(p, b, stack[1..])
      case InBranch(i) => After(p, i, stack[1..])
  }

  function Dest(c: Config): Id {
    if c.At? then c.id else 0
  }

  /** d is written directly inside c, or right after c in the same block. */
  predicate Child(p: seq<Stmt>, c: Config, d: Config) {
    && c.At? && d.At? && ValidId(p, c.id)
    && var s := p[c.id - 1];
       || (s.kind == Block && s.first != 0 && d == At(s.first, [InBlock(c.id)] + c.stack))
       || (s.kind == If && d == At(s.thenBranch, [InBranch(c.id)] + c.stack))
       || (s.kind == If && s.elseBranch != 0 && d == At(s.elseBranch, [InBranch(c.id)] + c.stack))
       || (c.stack != [] && c.stack[0].InBlock? && s.next != 0 && d == At(s.next, c.stack))
  }

  ghost predicate Trail(p: seq<Stmt>, body: Id, t: seq<Config>) {
    && |t| > 0 && t[0] == At(body, [])
    && forall i :: 0 <= i < |t| - 1 ==> Child(p, t[i], t[i + 1])
  }

  /** c is a place in the function body. */
  ghost predicate Occurs(p: seq<Stmt>, body: Id, c: Config) {
    exists t :: Trail(p, body, t) && t[|t| - 1] == c
  }

  /** Every place in the function body. */
  ghost function Places(p: seq<Stmt>, body: Id): iset<Config> {
    iset c | Occurs(p, body, c)
  }

  lemma OccursChild(p: seq<Stmt>, body: Id, c: Config, d: Config)
    requires Occurs(p, body, c) && Child(p, c, d)
    ensures Occurs(p, body, d)
  {
    var t :| Trail(p, body, t) && t[|t| - 1] == c;
    var longer := t + [d];
    assert Trail(p, body, longer) && longer[|longer| - 1] == d;
  }

  /** One small step. A jump goes to any place in the body where its target statement stands. */
  ghost predicate Step(p: seq<Stmt>, body: Id, c: Config, d: Config) {
    && c.At? && ValidId(p, c.id)
    && var s := p[c.id - 1];
       match s.kind
       case Block =>
         d == if s.first != 0 then At(s.first, [InBlock(c.id)] + c.stack) else After(p, c.id, c.stack)
       case Return => false
       case If =>
         || (s.condition != LiteralFalse && d == At(s.thenBranch, [InBranch(c.id)] + c.stack))
         || (s.condition != LiteralTrue &&
             d == if s.elseBranch != 0 then At(s.elseBranch, [InBranch(c.id)] + c.stack)
                  else After(p, c.id, c.stack))
       case _ =>
         if IsBranch(s) then
           || (d.At? && d.id == s.target && d in Places(p, body))
           || (s.branch == Conditional && d == After(p, c.id, c.stack))
         else !s.terminal && d == After(p, c.id, c.stack)
  }

  ghost predicate Execution(p: seq<Stmt>, body: Id, run: seq<Config>) {
    && |run| > 0 && run[0] == At(body, [])
    && forall i :: 0 <= i < |run| - 1 ==> Step(p, body, run[i], run[i + 1])
  }

  // ----- The builder -----

  /** The edges build_statement and build_block record for statement id when next follows it. */
  function EdgesOf(p: seq<Stmt>, id: Id, next: Id): seq<Id>
    requires ValidId(p, id)
  {
    var s := p[id - 1];
    match s.kind
    case Block => [if s.first != 0 then s.first else next]
    case Return => []
    case If =>
      (if s.condition != LiteralFalse then [s.thenBranch] else []) +
      (if s.condition != LiteralTrue then [if s.elseBranch != 0 then s.elseBranch else next] else [])
    case _ =>
      if IsBranch(s) then [s.target] + (if s.branch == Conditional then [next] else [])
      else if s.terminal then [] else [next]
  }

  type Continuations = map<Id, seq<Frame>>

  ghost predicate Nested(cont: Continuations, stack: seq<Frame>) {
    stack != [] ==> stack[0].owner in cont && cont[stack[0].owner] == stack[1..]
  }

  ghost predicate Holds(cont: Continuations, id: Id, stack: seq<Frame>) {
    id in cont && cont[id] == stack
  }

  /** What is written directly inside j has been built at its place. */
  ghost predicate DownClosed(p: seq<Stmt>, cont: Continuations, j: Id) {
    j in cont && ValidId(p, j) ==>
      var s := p[j - 1];
      && (s.kind == Block && s.first != 0 ==> Holds(cont, s.first, [InBlock(j)] + cont[j]))
      && (s.kind == If ==> Holds(cont, s.thenBranch, [InBranch(j)] + cont[j]))
      && (s.kind == If && s.elseBranch != 0 ==> Holds(cont, s.elseBranch, [InBranch(j)] + cont[j]))
  }

  /** The statement that follows j in its block has been built at its place. */
  ghost predicate RightClosed(p: seq<Stmt>, cont: Continuations, j: Id) {
    j in cont && cont[j] != [] && cont[j][0].InBlock? && NextOf(p, j) != 0 ==>
      Holds(cont, NextOf(p, j), cont[j])
  }

  ghost predicate Closed(p: seq<Stmt>, cont: Continuations, j: Id) {
    DownClosed(p, cont, j) && RightClosed(p, cont, j)
  }

  ghost predicate Extends(cont: Continuations, more: Continuations) {
    forall j :: j in cont ==> Holds(more, j, cont[j])
  }

  /** Building statement id at stack took cont to more: only places inside id were added, each
      complete except that the successor of id itself is still to come. */
  ghost predicate Grown(p: seq<Stmt>, cont: Continuations, more: Continuations, id: Id, stack: seq<Frame>) {
    && Extends(cont, more) && id !in cont && Holds(more, id, stack)
    && forall j :: j in more && j !in cont ==>
         DownClosed(p, more, j) && (j != id ==> RightClosed(p, more, j))
  }

  lemma ExtendsTrans(a: Continuations, b: Continuations, c: Continuations)
    requires Extends(a, b) && Extends(b, c)
    ensures Extends(a, c)
  {
  }

  lemma ClosedStays(p: seq<Stmt>, cont: Continuations, more: Continuations)
    requires Extends(cont, more)
    ensures forall j :: j in cont && DownClosed(p, cont, j) ==> DownClosed(p, more, j)
    ensures forall j :: j in cont && RightClosed(p, cont, j) ==> RightClosed(p, more, j)
  {
  }

  datatype Node = Node(edge: seq<Id>, built: bool)
  /** The edge lists, which the analyses read. */
  function Edges(nodes: seq<Node>): (edges: seq<seq<Id>>)
    ensures |edges| == |nodes| && forall j :: 0 <= j < |nodes| ==> edges[j] == nodes[j].edge
  {
    seq(|nodes|, j requires 0 <= j < |nodes| => nodes[j].edge)
  }

  datatype Verdict = Ok | Flow | NestingLimit

  /** Node j holds the edges of its statement as seen from the place it was built at. */
  ghost predicate Recorded(p: seq<Stmt>, cont: Continuations, j: Id, node: Node) {
    && (node.built <==> j in cont)
    && (j !in cont ==> node.edge == [])
    && (j in cont ==> ValidId(p, j) && Nested(cont, cont[j]) &&
                      node.edge == EdgesOf(p, j, Dest(After(p, j, cont[j]))) &&
                      (IsBranch(p[j - 1]) ==> p[j - 1].target != 0))
  }

  ghost predicate ChildClosed(p: seq<Stmt>, place: iset<Config>) {
    forall c, d :: c in place && Child(p, c, d) ==> d in place
  }

  lemma PlacesClosed(p: seq<Stmt>, body: Id)
    ensures At(body, []) in Places(p, body)
    ensures ChildClosed(p, Places(p, body))
  {
    assert Trail(p, body, [At(body, [])]);
    forall c, d | c in Places(p, body) && Child(p, c, d)
      ensures d in Places(p, body)
    {
      OccursChild(p, body, c, d);
    }
  }

  lemma RecordedStays(p: seq<Stmt>, cont: Continuations, j: Id, node: Node, id: Id, stack: seq<Frame>)
    requires Recorded(p, cont, j, node) && id !in cont && j != id
    ensures Recorded(p, cont[id := stack], j, node)
  {
  }

  const MAX_DEPTH: nat := 128

  class Builder {
    const p: seq<Stmt>
    const nodes: array<Node>
    ghost const place: iset<Config>  // the places a statement may be built at
    ghost var cont: Continuations  // every built statement with the nesting it was built at

    ghost predicate Valid()
      reads this, nodes
    {
      && nodes.Length == |p| + 1
      && (forall j :: j in cont ==> ValidId(p, j) && At(j, cont[j]) in place)
      && ChildClosed(p, place)
      && (forall j :: 0 <= j < nodes.Length ==> Recorded(p, cont, j, nodes[j]))
    }

    constructor (p: seq<Stmt>, ghost place: iset<Config>)
      requires ChildClosed(p, place)
      ensures this.p == p && this.place == place && fresh(nodes)
      ensures Valid() && cont == map[]
    {
      this.p, this.place := p, place;
      this.nodes := new Node[|p| + 1](_ => Node([], false));
      this.cont := map[];
    }

    method MarkBuilt(id: Id, edge: seq<Id>, ghost stack: seq<Frame>)
      requires Valid() && ValidId(p, id) && id !in cont && Nested(cont, stack) && At(id, stack) in place
      requires edge == EdgesOf(p, id, Dest(After(p, id, stack)))
      requires IsBranch(p[id - 1]) ==> p[id - 1].target != 0
      modifies this`cont, nodes
      ensures Valid() && cont == old(cont)[id := stack]
    {
      forall j | 0 <= j < nodes.Length && j != id
        ensures Recorded(p, cont[id := stack], j, nodes[j])
      {
        RecordedStays(p, cont, j, nodes[j], id, stack);
      }
      nodes[id] := Node(edge, true);
      cont := cont[id := stack];
    }

    method BuildStatement(id: Id, next: Id, depth: nat, ghost stack: seq<Frame>) returns (v: Verdict)
      requires Valid() && depth <= MAX_DEPTH && Nested(cont, stack) && At(id, stack) in place
      requires next == Dest(After(p, id, stack))
      modifies this`cont, nodes
      decreases MAX_DEPTH + 2 - depth, 1
      ensures v == Ok ==>
        Valid() && Grown(p, old(cont), cont, id, stack)
    {
      if !(1 <= id <= |p|) {
        return Flow;
      }
      var s := p[id - 1];
      if nodes[id].built {
        return Flow;
      }
      if s.kind == Block {
        v := BuildBlock(id, next, depth + 1, stack);
        return;
      }
      if s.kind == Return {
        MarkBuilt(id, [], stack);
        return Ok;
      }
      if s.kind == If {
        v := BuildIf(id, next, depth, stack);
        return;
      }
      if IsBranch(s) {
        if !(1 <= s.target <= |p|) {
          return Flow;
        }
        var edge := [s.target];
        if s.branch == Conditional {
          edge := edge + [next];
        }
        MarkBuilt(id, edge, stack);
        return Ok;
      }
      MarkBuilt(id, if s.terminal then [] else [next], stack);
      return Ok;
    }

    method BuildIf(id: Id, next: Id, depth: nat, ghost stack: seq<Frame>) returns (v: Verdict)
      requires Valid() && depth <= MAX_DEPTH && Nested(cont, stack) && At(id, stack) in place
      requires ValidId(p, id) && p[id - 1].kind == If && id !in cont
      requires next == Dest(After(p, id, stack))
      modifies this`cont, nodes
      decreases MAX_DEPTH + 2 - depth, 0
      ensures v == Ok ==>
        Valid() && Grown(p, old(cont), cont, id, stack)
    {
      hide Nested, Dest, NextOf;
      var s := p[id - 1];
      if !(1 <= s.thenBranch <= |p|) {
        return Flow;
      }
      var edge := [];
      if s.condition != LiteralFalse {
        edge := edge + [s.thenBranch];
      }
      if s.condition != LiteralTrue {
        edge := edge + [if s.elseBranch != 0 then s.elseBranch else next];
      }
      MarkBuilt(id, edge, stack);
      ghost var inside := [InBranch(id)] + stack;
      assert inside[1..] == stack;
      ghost var marked := cont;
      assert Child(p, At(id, stack), At(s.thenBranch, inside));
      v := BuildBlock(s.thenBranch, next, depth + 1, inside);
      if v != Ok {
        return;
      }
      ghost var withThen := cont;
      ExtendsTrans(old(cont), marked, withThen);
      if s.elseBranch != 0 {
        assert Child(p, At(id, stack), At(s.elseBranch, inside));
        v := BuildBlock(s.elseBranch, next, depth + 1, inside);
        if v == Ok {
          ExtendsTrans(old(cont), withThen, cont);
          ClosedStays(p, withThen, cont);
        }
      }
    }

    method BuildBlock(id: Id, next: Id, depth: nat, ghost stack: seq<Frame>) returns (v: Verdict)
      requires Valid() && depth <= MAX_DEPTH + 1 && Nested(cont, stack) && At(id, stack) in place
      requires next == Dest(After(p, id, stack))
      modifies this`cont, nodes
      decreases MAX_DEPTH + 2 - depth, 2
      ensures v == Ok ==>
        Valid() && Grown(p, old(cont), cont, id, stack)
    {
      if !(1 <= id <= |p|) {
        return Flow;
      }
      var block := p[id - 1];
      if depth > MAX_DEPTH {
        return NestingLimit;
      }
      if block.kind != Block || nodes[id].built {
        return Flow;
      }
      MarkBuilt(id, [if block.first != 0 then block.first else next], stack);
      ghost var inside := [InBlock(id)] + stack;
      assert inside[1..] == stack;
      var steps := 0;
      var child := block.first;
      ghost var last: Id := 0;
      while child != 0
        invariant Valid() && Extends(old(cont), cont) && Holds(cont, id, stack)
        invariant steps <= |p|
        invariant last == 0 ==> child == block.first
        invariant last != 0 ==> last != id && Holds(cont, last, inside) && NextOf(p, last) == child
        invariant last != 0 ==> block.first != 0 && Holds(cont, block.first, inside)
        invariant forall j :: j in cont && j !in old(cont) && j != id ==>
          DownClosed(p, cont, j) && (j != last ==> RightClosed(p, cont, j))
        decreases |p| - steps
      {
        if !(1 <= child <= |p|) || steps + 1 > |p| {
          return Flow;
        }
        steps := steps + 1;
        assert Child(p, if last == 0 then At(id, stack) else At(last, inside), At(child, inside));
        var following := if p[child - 1].next != 0 then p[child - 1].next else next;
        v := BuildStatement(child, following, depth, inside);
        if v != Ok {
          return;
        }
        last := child;
        child := p[child - 1].next;
      }
      return Ok;
    }

    method CheckNode(id: Id) returns (v: Verdict)
      requires Valid() && id < nodes.Length
      ensures v == Ok ==> forall e :: e in nodes[id].edge ==> e == 0 || e in cont
    {
      var edge := nodes[id].edge;
      for k := 0 to |edge|
        invariant forall e :: e in edge[..k] ==> e == 0 || e in cont
      {
        var target := edge[k];
        if target != 0 && (target >= nodes.Length || !nodes[target].built) {
          return Flow;
        }
        assert target == 0 || Recorded(p, cont, target, nodes[target]);
        assert edge[..k + 1] == edge[..k] + [target];
      }
      assert edge[..|edge|] == edge;
      return Ok;
    }

    method CheckEdges() returns (v: Verdict)
      requires Valid()
      ensures v == Ok ==> forall j, e :: j in cont && e in nodes[j].edge ==> e == 0 || e in cont
    {
      for id := 1 to nodes.Length
        invariant forall j, e :: 1 <= j < id && e in nodes[j].edge ==> e == 0 || e in cont
      {
        if nodes[id].built {
          v := CheckNode(id);
          if v != Ok {
            return;
          }
        } else {
          assert Recorded(p, cont, id, nodes[id]);
        }
      }
      return Ok;
    }

    /** Builds the graph of a function body, then rejects branches that leave the function. */
    method Build(root: Id) returns (v: Verdict)
      requires Valid() && cont == map[] && place == Places(p, root)
      modifies this`cont, nodes
      ensures v == Ok ==> Faithful(p, root, Edges(nodes[..]), cont)
    {
      PlacesClosed(p, root);
      v := BuildBlock(root, 0, 0, []);
      if v != Ok {
        return;
      }
      v := CheckEdges();
      if v == Ok {
        BuiltIsFaithful(p, root, nodes[..], cont);
      }
    }
  }

  // ----- What an accepted graph says about executions -----

  ghost predicate FaithfulAt(p: seq<Stmt>, body: Id, edges: seq<seq<Id>>, cont: Continuations, j: Id)
    requires |edges| == |p| + 1 && j in cont
  {
    && ValidId(p, j) && Nested(cont, cont[j]) && Closed(p, cont, j)
    && At(j, cont[j]) in Places(p, body)
    && edges[j] == EdgesOf(p, j, Dest(After(p, j, cont[j])))
    && (IsBranch(p[j - 1]) ==> p[j - 1].target != 0)
    && forall e :: e in edges[j] ==> e == 0 || e in cont
  }

  /** cont holds exactly the places of the body, one for each statement in it, with their edges. */
  ghost predicate Faithful(p: seq<Stmt>, body: Id, edges: seq<seq<Id>>, cont: Continuations) {
    && |edges| == |p| + 1
    && Holds(cont, body, [])
    && (forall j :: j in cont ==> ValidId(p, j))
    && (forall j :: 0 <= j < |edges| && j !in cont ==> edges[j] == [])
    && forall j {:trigger FaithfulAt(p, body, edges, cont, j)} :: j in cont ==> FaithfulAt(p, body, edges, cont, j)
  }

  lemma BuiltIsFaithful(p: seq<Stmt>, body: Id, nodes: seq<Node>, cont: Continuations)
    requires |nodes| == |p| + 1 && Grown(p, map[], cont, body, [])
    requires forall j :: j in cont ==> ValidId(p, j) && At(j, cont[j]) in Places(p, body)
    requires forall j :: 0 <= j < |nodes| ==> Recorded(p, cont, j, nodes[j])
    requires forall j, e :: j in cont && e in nodes[j].edge ==> e == 0 || e in cont
    ensures Faithful(p, body, Edges(nodes), cont)
  {
    forall j | 0 <= j < |nodes| && j !in cont
      ensures nodes[j].edge == []
    {
      assert Recorded(p, cont, j, nodes[j]);
    }
    forall j | j in cont
      ensures FaithfulAt(p, body, Edges(nodes), cont, j)
    {
      assert Recorded(p, cont, j, nodes[j]);
      assert At(j, cont[j]) in Places(p, body);
    }
  }

  lemma {:induction false} OccursIsBuilt(p: seq<Stmt>, body: Id, edges: seq<seq<Id>>, cont: Continuations, t: seq<Config>)
    requires Faithful(p, body, edges, cont) && Trail(p, body, t)
    ensures t[|t| - 1].At? && Holds(cont, t[|t| - 1].id, t[|t| - 1].stack)
    decreases |t|
  {
    if |t| > 1 {
      OccursIsBuilt(p, body, edges, cont, t[..|t| - 1]);
      assert FaithfulAt(p, body, edges, cont, t[|t| - 2].id);
      assert Child(p, t[|t| - 2], t[|t| - 1]);
    }
  }

  /** Each statement stands at one place only, and it was built there. */
  lemma BuiltExactlyOnce(p: seq<Stmt>, body: Id, edges: seq<seq<Id>>, cont: Continuations, id: Id, stack: seq<Frame>)
    requires Faithful(p, body, edges, cont)
    ensures Occurs(p, body, At(id, stack)) <==> Holds(cont, id, stack)
  {
    if Occurs(p, body, At(id, stack)) {
      var t :| Trail(p, body, t) && t[|t| - 1] == At(id, stack);
      OccursIsBuilt(p, body, edges, cont, t);
    }
    if Holds(cont, id, stack) {
      assert FaithfulAt(p, body, edges, cont, id);
      assert At(id, stack) in Places(p, body);
    }
  }

  lemma {:induction false} AfterIsBuilt(p: seq<Stmt>, body: Id, edges: seq<seq<Id>>, cont: Continuations, id: Id, stack: seq<Frame>)
    requires Faithful(p, body, edges, cont) && Holds(cont, id, stack)
    ensures var d := After(p, id, stack);
            (d.At? ==> d.id != 0 && Holds(cont, d.id, d.stack))
    decreases |stack|
  {
    assert FaithfulAt(p, body, edges, cont, id);
    if stack != [] && NextOf(p, id) != 0 {
      assert ValidId(p, id);
    }
    if stack != [] && !(stack[0].InBlock? && NextOf(p, id) != 0) {
      AfterIsBuilt(p, body, edges, cont, stack[0].owner, stack[1..]);
    }
  }

  /** Every small step of the language is an edge of the graph. */
  lemma StepIsEdge(p: seq<Stmt>, body: Id, edges: seq<seq<Id>>, cont: Continuations, c: Config, d: Config)
    requires Faithful(p, body, edges, cont) && c.At? && Holds(cont, c.id, c.stack)
    requires Step(p, body, c, d)
    ensures Dest(d) in edges[c.id]
    ensures d.At? ==> d.id != 0 && Holds(cont, d.id, d.stack)
  {
    assert FaithfulAt(p, body, edges, cont, c.id);
    AfterIsBuilt(p, body, edges, cont, c.id, c.stack);
    if IsBranch(p[c.id - 1]) && d.At? && d in Places(p, body) {
      BuiltExactlyOnce(p, body, edges, cont, d.id, d.stack);
    }
  }

  /** A path through the graph, as the analyses see it. */
  ghost predicate Path(edges: seq<seq<Id>>, body: Id, path: seq<Id>) {
    && |path| > 0 && path[0] == body
    && (forall i :: 0 <= i < |path| ==> path[i] < |edges|)
    && forall i :: 0 <= i < |path| - 1 ==> path[i + 1] in edges[path[i]]
  }

  /** The nodes marked reachable include the body and every successor, and never fall through. */
  ghost predicate ReachableSet(edges: seq<seq<Id>>, body: Id, reachable: set<Id>) {
    && body in reachable
    && forall id :: id in reachable ==>
         && 0 < id < |edges|
         && forall e :: e in edges[id] ==> e != 0 && e in reachable
  }

  function Ids(run: seq<Config>): (ids: seq<Id>)
    ensures |ids| == |run| && forall i :: 0 <= i < |run| ==> ids[i] == Dest(run[i])
  {
    seq(|run|, i requires 0 <= i < |run| => Dest(run[i]))
  }

  /** No execution leaves the function, and each one follows a path of the graph. */
  lemma {:induction false} ExecutionIsPath(p: seq<Stmt>, body: Id, edges: seq<seq<Id>>, cont: Continuations,
                                           reachable: set<Id>, run: seq<Config>)
    requires Faithful(p, body, edges, cont) && ReachableSet(edges, body, reachable)
    requires Execution(p, body, run)
    ensures Path(edges, body, Ids(run))
    ensures forall i :: 0 <= i < |run| ==>
      run[i].At? && Holds(cont, run[i].id, run[i].stack) && run[i].id in reachable
  {
    if |run| > 1 {
      var n := |run| - 1;
      ExecutionIsPath(p, body, edges, cont, reachable, run[..n]);
      assert run[n - 1] == run[..n][n - 1];
      StepIsEdge(p, body, edges, cont, run[n - 1], run[n]);
      assert forall i :: 0 <= i < n ==> Ids(run)[i] == Ids(run[..n])[i];
    }
  }

  /** Conversely every edge is a step that some execution can take. */
  lemma EdgeIsStep(p: seq<Stmt>, body: Id, edges: seq<seq<Id>>, cont: Continuations, id: Id, e: Id) returns (d: Config)
    requires Faithful(p, body, edges, cont) && id in cont && e in edges[id]
    ensures Step(p, body, At(id, cont[id]), d) && Dest(d) == e
    ensures e != 0 ==> e in cont && d == At(e, cont[e])
    ensures e == 0 ==> d == Exit
  {
    var s := p[id - 1];
    var after := After(p, id, cont[id]);
    assert FaithfulAt(p, body, edges, cont, id);
    AfterIsBuilt(p, body, edges, cont, id, cont[id]);
    if s.kind == Block && s.first != 0 {
      d := At(s.first, [InBlock(id)] + cont[id]);
    } else if s.kind == If && s.condition != LiteralFalse && e == s.thenBranch {
      d := At(s.thenBranch, [InBranch(id)] + cont[id]);
    } else if s.kind == If && s.elseBranch != 0 {
      d := At(s.elseBranch, [InBranch(id)] + cont[id]);
    } else if IsBranch(s) && e == s.target && e != 0 {
      d := At(e, cont[e]);
      BuiltExactlyOnce(p, body, edges, cont, e, cont[e]);
    } else {
      d := after;
    }
  }

  function RunAlong(path: seq<Id>, cont: Continuations): (run: seq<Config>)
    requires forall k :: 0 <= k < |path| ==> path[k] in cont
    ensures |run| == |path| && forall k :: 0 <= k < |path| ==> run[k] == At(path[k], cont[path[k]])
  {
    seq(|path|, k requires 0 <= k < |path| => At(path[k], cont[path[k]]))
  }

  /** A path of the graph that stays in the function is the trace of an execution. */
  lemma PathIsExecution(p: seq<Stmt>, body: Id, edges: seq<seq<Id>>, cont: Continuations, path: seq<Id>)
    requires Faithful(p, body, edges, cont) && Path(edges, body, path)
    requires forall k :: 0 <= k < |path| ==> path[k] in cont
    ensures Execution(p, body, RunAlong(path, cont)) && Ids(RunAlong(path, cont)) == path
  {
    var run := RunAlong(path, cont);
    forall i | 0 <= i < |run| - 1
      ensures Step(p, body, run[i], run[i + 1])
    {
      var d := EdgeIsStep(p, body, edges, cont, path[i], path[i + 1]);
    }
  }
}
