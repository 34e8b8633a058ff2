/** What one statement does to the facts the verifier tracks: defined flags, bound locals,
    assigned output-register bits, and the pointer type each register holds. */
module Facts {
  import opened Cfg

  datatype Fact = Flag(bit: nat) | Local(variable: nat) | Output(family: nat, bit: nat)

  datatype Register = Register(family: int, bits: nat, high8: bool)

  /** Nothing known yet, a proven pointer type, or no pointer. */
  datatype Provenance = Top | Pointer(ptype: nat) | NoPointer

  datatype Type = Type(kind: nat, space: nat, bits: nat, count: nat, element: nat)

  datatype Direction = In | Out | InOut | Automatic | Constant | Data
  datatype Variable = Variable(direction: Direction, owner: nat, reg: Register, bits: nat, pointer: Provenance)
  datatype Function = Function(params: seq<Variable>, clobbers: set<nat>, clobbersFlags: bool,
                               returned: Provenance, never: bool)

  datatype Expr =
    | Literal
    | Name(variable: nat)
    | Memory(provenance: nat)
    | Reg(reg: Register)
    | Unary(operand: Expr)
    | Binary(left: Expr, right: Expr)
    | CallTo(callee: nat, args: seq<Expr>)

  /** Where an instruction takes the pointer type of a register it writes from. */
  datatype Source = Fixed(provenance: Provenance) | FromRegister(family: nat)

  /** A memory operand through register base, annotated with the pointer type it is used as. */
  datatype Access = Access(base: nat, annotation: nat)

  /** The parts of a statement the analyses look at. For an instruction, operandReads and
      operandWrites are its register footprint and pointerWrites the registers it retypes. */
  datatype Effects = Effects(expressions: seq<Expr>, binds: nat,
                             flagsRead: set<nat>, flagsWritten: set<nat>, flagsUndefined: set<nat>,
                             operandReads: set<Fact>, operandWrites: set<Fact>,
                             pointerWrites: map<nat, Source>, accesses: seq<Access>)

  datatype Problem = Problem(stmts: seq<Stmt>, effects: seq<Effects>, variables: seq<Variable>,
                             functions: seq<Function>, types: seq<Type>,
                             self: nat, body: Id, edges: seq<seq<Id>>)
  {
    ghost predicate Valid() {
      && |effects| == |stmts| && |edges| == |stmts| + 1
      && 1 <= self <= |functions| && 1 <= body <= |stmts|
    }

    function Self(): Function
      requires Valid()
    {
      functions[self - 1]
    }
  }

  const FAMILIES: nat := 16
  const FLAG_BITS: nat := 32

  predicate InFamily(r: Register) {
    0 <= r.family < FAMILIES
  }

  /** The bits a read of the register observes. */
  function ReadBits(r: Register): set<Fact> {
    if !InFamily(r) || r.bits == 0 || r.bits > 64 then {}
    else
      var low := if r.high8 && r.bits != 32 && r.bits != 64 then 8 else 0;
      set b: nat {:trigger Output(r.family, b)} | low <= b < low + r.bits && b < 64 :: Output(r.family, b)
  }

  // ----- Expressions -----

  /** The nodes of an expression, operands before the node that uses them. */
  function PostOrder(e: Expr): seq<Expr> {
    match e
    case Unary(x) => PostOrder(x) + [e]
    case Binary(l, r) => PostOrder(l) + PostOrder(r) + [e]
    case CallTo(_, args) => PostOrderAll(args) + [e]
    case _ => [e]
  }

  function PostOrderAll(es: seq<Expr>): seq<Expr> {
    if es == [] then [] else PostOrder(es[0]) + PostOrderAll(es[1..])
  }

  /** The expression nodes a statement evaluates; the operand of a branch is a label, not a value. */
  function Visited(pr: Problem, id: Id): seq<Expr>
    requires pr.Valid() && ValidId(pr.stmts, id)
  {
    if IsBranch(pr.stmts[id - 1]) then [] else PostOrderAll(pr.effects[id - 1].expressions)
  }

  predicate KnownCall(pr: Problem, x: Expr) {
    x.CallTo? && 1 <= x.callee <= |pr.functions|
  }

  function Referenced(x: Expr): nat {
    if x.Name? then x.variable else if x.Memory? then x.provenance else 0
  }

  predicate KnownVariable(pr: Problem, v: nat) {
    1 <= v <= |pr.variables|
  }

  /** Every call and variable of the statement is resolved. */
  predicate Resolved(pr: Problem, id: Id)
    requires pr.Valid() && ValidId(pr.stmts, id)
  {
    && (forall x :: x in Visited(pr, id) ==>
          (x.CallTo? ==> KnownCall(pr, x)) && (Referenced(x) != 0 ==> KnownVariable(pr, Referenced(x))))
    && (pr.stmts[id - 1].kind == Let ==> KnownVariable(pr, pr.effects[id - 1].binds))
  }

  predicate IsLocal(pr: Problem, v: nat) {
    && KnownVariable(pr, v)
    && pr.variables[v - 1].direction == Automatic && pr.variables[v - 1].owner == pr.self
  }

  predicate IsOutput(v: Variable) {
    v.direction == Out || v.direction == InOut
  }

  /** The register a leaf reads: an explicit one, or the one an output parameter is bound to. */
  function LeafReads(pr: Problem, x: Expr): set<Fact> {
    if x.Reg? then ReadBits(x.reg)
    else if x.Name? && KnownVariable(pr, x.variable) && IsOutput(pr.variables[x.variable - 1])
    then ReadBits(pr.variables[x.variable - 1].reg)
    else {}
  }

  function CallWrites(pr: Problem, x: Expr): set<Fact> {
    if KnownCall(pr, x) then
      set v, f | v in pr.functions[x.callee - 1].params && IsOutput(v) && f in ReadBits(v.reg) :: f
    else {}
  }

  function AsFlags(bits: set<nat>): set<Fact> {
    set b | b in bits :: Flag(b)
  }

  function AllFlags(): set<Fact> {
    set b: nat {:trigger Flag(b)} | 0 <= b < FLAG_BITS :: Flag(b)
  }

  // ----- Statements -----

  predicate KillsFlags(pr: Problem, id: Id)
    requires pr.Valid() && ValidId(pr.stmts, id)
  {
    exists x :: x in Visited(pr, id) && KnownCall(pr, x) && pr.functions[x.callee - 1].clobbersFlags
  }

  function Kill(pr: Problem, id: Id): set<Fact>
    requires pr.Valid() && ValidId(pr.stmts, id)
  {
    (if KillsFlags(pr, id) then AllFlags() else {}) +
    (if pr.stmts[id - 1].kind == Instruction then AsFlags(pr.effects[id - 1].flagsUndefined) else {})
  }

  function OutputsWritten(pr: Problem, id: Id): set<Fact>
    requires pr.Valid() && ValidId(pr.stmts, id)
  {
    if IsBranch(pr.stmts[id - 1]) then {}
    else if pr.stmts[id - 1].kind == Instruction then pr.effects[id - 1].operandWrites
    else set x, f | x in Visited(pr, id) && f in CallWrites(pr, x) :: f
  }

  function Gen(pr: Problem, id: Id): set<Fact>
    requires pr.Valid() && ValidId(pr.stmts, id)
  {
    (if pr.stmts[id - 1].kind == Instruction then AsFlags(pr.effects[id - 1].flagsWritten) else {}) +
    (if pr.stmts[id - 1].kind == Let && IsLocal(pr, pr.effects[id - 1].binds)
     then {Local(pr.effects[id - 1].binds)} else {}) +
    OutputsWritten(pr, id)
  }

  // What the statement needs to hold when it is reached.

  function FlagsNeeded(pr: Problem, id: Id): set<Fact>
    requires pr.Valid() && ValidId(pr.stmts, id)
  {
    if pr.stmts[id - 1].kind == Instruction then AsFlags(pr.effects[id - 1].flagsRead) else {}
  }

  function LocalsNeeded(pr: Problem, id: Id): set<Fact>
    requires pr.Valid() && ValidId(pr.stmts, id)
  {
    set x | x in Visited(pr, id) && IsLocal(pr, Referenced(x)) :: Local(Referenced(x))
  }

  function OutputsNeeded(pr: Problem, id: Id): set<Fact>
    requires pr.Valid() && ValidId(pr.stmts, id)
  {
    if IsBranch(pr.stmts[id - 1]) then {}
    else if pr.stmts[id - 1].kind == Instruction then pr.effects[id - 1].operandReads
    else set x, f | x in Visited(pr, id) && f in LeafReads(pr, x) :: f
  }

  function OutputsRequired(pr: Problem): set<Fact>
    requires pr.Valid()
  {
    set v, f | v in pr.Self().params && IsOutput(v) && f in ReadBits(v.reg) :: f
  }

  function ReturnNeeds(pr: Problem, id: Id): set<Fact>
    requires pr.Valid() && ValidId(pr.stmts, id)
  {
    if pr.stmts[id - 1].kind == Return then OutputsRequired(pr) else {}
  }

  function Needs(pr: Problem, id: Id): set<Fact>
    requires pr.Valid() && ValidId(pr.stmts, id)
  {
    FlagsNeeded(pr, id) + LocalsNeeded(pr, id) + OutputsNeeded(pr, id) + ReturnNeeds(pr, id)
  }

  /** At entry no flag is defined, no local bound, and pure output registers are unassigned. */
  function EntryFacts(pr: Problem, all: set<Fact>): set<Fact>
    requires pr.Valid()
  {
    set f | f in all && f.Output? &&
            !exists v :: v in pr.Self().params && v.direction == Out && f in ReadBits(v.reg)
  }

  // ----- Pointer types of registers -----

  /** Structural equality of types, which the source cuts off at depth 128. */
  predicate SameType(types: seq<Type>, a: nat, b: nat, depth: nat)
    decreases 129 - depth
  {
    || a == b
    || (&& 1 <= a <= |types| && 1 <= b <= |types| && depth <= 128
        && var x, y := types[a - 1], types[b - 1];
           && x.kind == y.kind && x.space == y.space && x.bits == y.bits && x.count == y.count
           && ((x.element == 0 && y.element == 0) || SameType(types, x.element, y.element, depth + 1)))
  }

  lemma {:induction false} SameTypeTrans(types: seq<Type>, a: nat, b: nat, c: nat, depth: nat)
    requires SameType(types, a, b, depth) && SameType(types, b, c, depth)
    ensures SameType(types, a, c, depth)
    decreases 129 - depth
  {
    if a != b && b != c {
      var x, y, z := types[a - 1].element, types[b - 1].element, types[c - 1].element;
      if SameType(types, x, y, depth + 1) && SameType(types, y, z, depth + 1) {
        SameTypeTrans(types, x, y, z, depth + 1);
      }
    }
  }

  lemma {:induction false} SameTypeSym(types: seq<Type>, a: nat, b: nat, depth: nat)
    requires SameType(types, a, b, depth)
    ensures SameType(types, b, a, depth)
    decreases 129 - depth
  {
    if a != b {
      var x, y := types[a - 1].element, types[b - 1].element;
      if SameType(types, x, y, depth + 1) {
        SameTypeSym(types, x, y, depth + 1);
      }
    }
  }

  function Defaults(index: nat): int {
    if index == 0 then 1 else if index == 1 then 2 else if index == 2 then 8 else 9
  }

  function ParameterRegister(v: Variable, index: nat): Register {
    if v.reg.family < 0 && index < 4
    then Register(Defaults(index), if v.bits == 1 then 8 else v.bits, v.reg.high8)
    else v.reg
  }

  type Pointers = seq<Provenance>

  function BindOutputs(params: seq<Variable>, n: nat, ps: Pointers): (r: Pointers)
    requires n <= |params| && |ps| == FAMILIES
    ensures |r| == FAMILIES
  {
    if n == 0 then ps
    else
      var before := BindOutputs(params, n - 1, ps);
      var reg := ParameterRegister(params[n - 1], n - 1);
      if IsOutput(params[n - 1]) && InFamily(reg) then before[reg.family := params[n - 1].pointer] else before
  }

  function Clobber(f: Function, ps: Pointers): (r: Pointers)
    requires |ps| == FAMILIES
    ensures |r| == FAMILIES
  {
    seq(FAMILIES, i requires 0 <= i < FAMILIES =>
      if i == 0 then f.returned else if i in f.clobbers then NoPointer else ps[i])
  }

  /** The calls of a statement retype registers in evaluation order. */
  function CallPointers(pr: Problem, nodes: seq<Expr>, ps: Pointers): (r: Pointers)
    requires |ps| == FAMILIES
    ensures |r| == FAMILIES
  {
    if nodes == [] then ps
    else
      var before := CallPointers(pr, nodes[..|nodes| - 1], ps);
      var x := nodes[|nodes| - 1];
      if KnownCall(pr, x) then
        var f := pr.functions[x.callee - 1];
        BindOutputs(f.params, |f.params|, Clobber(f, before))
      else before
  }

  function Evaluate(s: Source, ps: Pointers): Provenance
    requires |ps| == FAMILIES
  {
    match s
    case Fixed(v) => v
    case FromRegister(r) => if r < FAMILIES then ps[r] else NoPointer
  }

  function TransferPointers(pr: Problem, id: Id, ps: Pointers): (r: Pointers)
    requires pr.Valid() && ValidId(pr.stmts, id) && |ps| == FAMILIES
    ensures |r| == FAMILIES
  {
    if IsBranch(pr.stmts[id - 1]) then ps
    else if pr.stmts[id - 1].kind == Instruction then
      var w := pr.effects[id - 1].pointerWrites;
      seq(FAMILIES, i requires 0 <= i < FAMILIES => if i in w then Evaluate(w[i], ps) else ps[i])
    else CallPointers(pr, Visited(pr, id), ps)
  }

  // Every register is retyped to something fixed or to what one register held.

  function BoundSource(params: seq<Variable>, n: nat, r: nat, otherwise: Source): Source
    requires n <= |params|
  {
    if n == 0 then otherwise
    else if IsOutput(params[n - 1]) && ParameterRegister(params[n - 1], n - 1).family == r then Fixed(params[n - 1].pointer)
    else BoundSource(params, n - 1, r, otherwise)
  }

  function CallSource(pr: Problem, nodes: seq<Expr>, r: nat): Source {
    if nodes == [] then FromRegister(r)
    else
      var x := nodes[|nodes| - 1];
      var before := CallSource(pr, nodes[..|nodes| - 1], r);
      if KnownCall(pr, x) then
        var f := pr.functions[x.callee - 1];
        BoundSource(f.params, |f.params|, r, if r == 0 then Fixed(f.returned) else if r in f.clobbers then Fixed(NoPointer) else before)
      else before
  }

  function SourceOf(pr: Problem, id: Id, r: nat): Source
    requires pr.Valid() && ValidId(pr.stmts, id)
  {
    if IsBranch(pr.stmts[id - 1]) then FromRegister(r)
    else if pr.stmts[id - 1].kind == Instruction then
      var w := pr.effects[id - 1].pointerWrites;
      if r in w then w[r] else FromRegister(r)
    else CallSource(pr, Visited(pr, id), r)
  }

  lemma {:induction false} BoundFromSource(params: seq<Variable>, n: nat, r: nat, ps: Pointers, otherwise: Source, before: Pointers)
    requires n <= |params| && |ps| == FAMILIES && |before| == FAMILIES && r < FAMILIES && ps[r] == Evaluate(otherwise, before)
    ensures BindOutputs(params, n, ps)[r] == Evaluate(BoundSource(params, n, r, otherwise), before)
  {
    if n > 0 {
      BoundFromSource(params, n - 1, r, ps, otherwise, before);
    }
  }

  lemma {:induction false} CallFromSource(pr: Problem, nodes: seq<Expr>, r: nat, ps: Pointers)
    requires |ps| == FAMILIES && r < FAMILIES
    ensures CallPointers(pr, nodes, ps)[r] == Evaluate(CallSource(pr, nodes, r), ps)
    decreases |nodes|
  {
    if nodes != [] {
      CallFromSource(pr, nodes[..|nodes| - 1], r, ps);
      var x := nodes[|nodes| - 1];
      if KnownCall(pr, x) {
        var f := pr.functions[x.callee - 1];
        var before := CallSource(pr, nodes[..|nodes| - 1], r);
        BoundFromSource(f.params, |f.params|, r, Clobber(f, CallPointers(pr, nodes[..|nodes| - 1], ps)),
                        if r == 0 then Fixed(f.returned) else if r in f.clobbers then Fixed(NoPointer) else before, ps);
      }
    }
  }

  lemma TransferFromSource(pr: Problem, id: Id, r: nat, ps: Pointers)
    requires pr.Valid() && ValidId(pr.stmts, id) && |ps| == FAMILIES && r < FAMILIES
    ensures TransferPointers(pr, id, ps)[r] == Evaluate(SourceOf(pr, id, r), ps)
  {
    if !IsBranch(pr.stmts[id - 1]) && pr.stmts[id - 1].kind != Instruction {
      CallFromSource(pr, Visited(pr, id), r, ps);
    }
  }

  /** p is known, and no pointer of type d. */
  predicate Refutes(types: seq<Type>, p: Provenance, d: nat) {
    p != Top && !(p.Pointer? && SameType(types, d, p.ptype, 0))
  }

  const ARRAY: nat := 12

  predicate KnownType(types: seq<Type>, t: nat) {
    1 <= t <= |types|
  }

  /** An element is used as its own type or, if it is an array, as that of its elements. */
  predicate ElementFits(types: seq<Type>, element: nat, want: nat) {
    || SameType(types, element, want, 0)
    || (KnownType(types, element) && types[element - 1].kind == ARRAY && SameType(types, types[element - 1].element, want, 0))
  }

  /** What a register must hold for an access: a pointer into the annotated space, to such an element. */
  predicate Admits(types: seq<Type>, p: Provenance, annotation: nat) {
    && p.Pointer? && KnownType(types, p.ptype) && KnownType(types, annotation)
    && types[p.ptype - 1].space == types[annotation - 1].space
    && ElementFits(types, types[p.ptype - 1].element, types[annotation - 1].element)
  }

  predicate AccessFits(types: seq<Type>, ps: Pointers, a: Access)
    requires |ps| == FAMILIES
  {
    a.base < FAMILIES && Admits(types, ps[a.base], a.annotation)
  }

  predicate AccessesFit(pr: Problem, id: Id, ps: Pointers)
    requires pr.Valid() && ValidId(pr.stmts, id) && |ps| == FAMILIES
  {
    forall a :: a in pr.effects[id - 1].accesses ==> AccessFits(pr.types, ps, a)
  }

  /** The comparison that starts deeper says no more often. */
  lemma {:induction false} SameTypeShallower(types: seq<Type>, a: nat, b: nat, depth: nat)
    requires SameType(types, a, b, depth + 1)
    ensures SameType(types, a, b, depth)
    decreases 129 - depth
  {
    if a != b {
      var x, y := types[a - 1].element, types[b - 1].element;
      if !(x == 0 && y == 0) {
        SameTypeShallower(types, x, y, depth + 1);
      }
    }
  }

  lemma ElementsSame(types: seq<Type>, a: nat, b: nat)
    requires SameType(types, a, b, 0) && KnownType(types, a) && KnownType(types, b)
    ensures types[a - 1].kind == types[b - 1].kind && types[a - 1].space == types[b - 1].space
    ensures SameType(types, types[a - 1].element, types[b - 1].element, 0)
  {
    var x, y := types[a - 1].element, types[b - 1].element;
    if a != b && x != y {
      SameTypeShallower(types, x, y, 0);
    }
  }

  lemma SameElementFits(types: seq<Type>, a: nat, b: nat, want: nat)
    requires SameType(types, a, b, 0) && ElementFits(types, a, want)
    ensures ElementFits(types, b, want)
  {
    hide SameType;
    SameTypeSym(types, a, b, 0);
    if SameType(types, a, want, 0) {
      SameTypeTrans(types, b, a, want, 0);
    } else {
      SameKnown(types, a, b);
      ElementsSame(types, a, b);
      SameTypeSym(types, types[a - 1].element, types[b - 1].element, 0);
      SameTypeTrans(types, types[b - 1].element, types[a - 1].element, want, 0);
    }
  }

  lemma SameKnown(types: seq<Type>, a: nat, b: nat)
    requires SameType(types, a, b, 0) && KnownType(types, a)
    ensures KnownType(types, b)
  {
  }

  /** Equal pointer types admit the same accesses. */
  lemma SameAdmits(types: seq<Type>, p: Provenance, q: Provenance, annotation: nat)
    requires p.Pointer? && q.Pointer? && SameType(types, p.ptype, q.ptype, 0) && Admits(types, p, annotation)
    ensures Admits(types, q, annotation)
  {
    hide SameType, ElementFits;
    SameKnown(types, p.ptype, q.ptype);
    ElementsSame(types, p.ptype, q.ptype);
    SameElementFits(types, types[p.ptype - 1].element, types[q.ptype - 1].element, types[annotation - 1].element);
  }

  function BindInputs(params: seq<Variable>, n: nat): (r: Pointers)
    requires n <= |params|
    ensures |r| == FAMILIES
  {
    if n == 0 then seq(FAMILIES, _ => NoPointer)
    else
      var before := BindInputs(params, n - 1);
      var reg := ParameterRegister(params[n - 1], n - 1);
      if params[n - 1].direction != Out && InFamily(reg) && reg.bits == 64
      then before[reg.family := params[n - 1].pointer] else before
  }

  function EntryPointers(pr: Problem): (r: Pointers)
    requires pr.Valid()
    ensures |r| == FAMILIES
  {
    BindInputs(pr.Self().params, |pr.Self().params|)
  }

  /** a is at most as informative as b. */
  predicate Weaker(types: seq<Type>, a: Provenance, b: Provenance) {
    b == Top || a == NoPointer || (a.Pointer? && b.Pointer? && SameType(types, a.ptype, b.ptype, 0))
  }

  predicate WeakerAll(types: seq<Type>, a: Pointers, b: Pointers) {
    |a| == |b| && forall i :: 0 <= i < |a| ==> Weaker(types, a[i], b[i])
  }

  lemma WeakerTrans(types: seq<Type>, a: Provenance, b: Provenance, c: Provenance)
    requires Weaker(types, a, b) && Weaker(types, b, c)
    ensures Weaker(types, a, c)
  {
    if a.Pointer? && b.Pointer? && c.Pointer? {
      SameTypeTrans(types, a.ptype, b.ptype, c.ptype, 0);
    }
  }

  lemma {:induction false} BindOutputsMonotone(types: seq<Type>, params: seq<Variable>, n: nat, a: Pointers, b: Pointers)
    requires n <= |params| && |a| == FAMILIES && WeakerAll(types, a, b)
    requires forall v :: v in params ==> v.pointer != Top
    ensures WeakerAll(types, BindOutputs(params, n, a), BindOutputs(params, n, b))
  {
    if n > 0 {
      BindOutputsMonotone(types, params, n - 1, a, b);
    }
  }

  /** Declared pointer types are pointer types or none, never "unknown". */
  ghost predicate Declared(pr: Problem) {
    && (forall f :: f in pr.functions ==> f.returned != Top && forall v :: v in f.params ==> v.pointer != Top)
    && (forall e, i :: e in pr.effects && i in e.pointerWrites ==> e.pointerWrites[i] != Fixed(Top))
  }

  lemma {:induction false} CallPointersMonotone(pr: Problem, nodes: seq<Expr>, a: Pointers, b: Pointers)
    requires Declared(pr) && |a| == FAMILIES && WeakerAll(pr.types, a, b)
    ensures WeakerAll(pr.types, CallPointers(pr, nodes, a), CallPointers(pr, nodes, b))
    decreases |nodes|
  {
    if nodes != [] {
      CallPointersMonotone(pr, nodes[..|nodes| - 1], a, b);
      var x := nodes[|nodes| - 1];
      if KnownCall(pr, x) {
        var f := pr.functions[x.callee - 1];
        var a', b' := CallPointers(pr, nodes[..|nodes| - 1], a), CallPointers(pr, nodes[..|nodes| - 1], b);
        assert WeakerAll(pr.types, Clobber(f, a'), Clobber(f, b'));
        BindOutputsMonotone(pr.types, f.params, |f.params|, Clobber(f, a'), Clobber(f, b'));
      }
    }
  }

  lemma TransferPointersMonotone(pr: Problem, id: Id, a: Pointers, b: Pointers)
    requires pr.Valid() && Declared(pr) && ValidId(pr.stmts, id) && |a| == FAMILIES && WeakerAll(pr.types, a, b)
    ensures WeakerAll(pr.types, TransferPointers(pr, id, a), TransferPointers(pr, id, b))
  {
    if !IsBranch(pr.stmts[id - 1]) && pr.stmts[id - 1].kind != Instruction {
      CallPointersMonotone(pr, Visited(pr, id), a, b);
    }
  }
}
