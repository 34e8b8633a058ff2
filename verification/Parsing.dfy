/** Precedence climbing over a token cursor, and the printer it inverts. */
module Parsing {

  datatype Option<T> = None | Some(value: T)

  datatype Symbol = Plus | Minus | Star | Slash | Percent | Tilde | Bang | ShiftLeft | ShiftRight | Ampersand | Caret | Bar
                  | Equal | Unequal | Less | LessEqual | Greater | GreaterEqual | BothOf | EitherOf

  /** Atom is a literal, a register or a boolean; an identifier may start a call. */
  datatype Token = Atom(id: nat) | Identifier(id: nat) | Sign(symbol: Symbol) | Open | Close | Comma | Newline | Unrelated

  datatype UnOp = Neg | Not | Pos
  datatype BinOp = LogicalOr | LogicalAnd | Mul | Div | Mod | Add | Sub | Shl | Shr | And | Xor | Or
                 | Eq | Ne | Lt | Le | Gt | Ge

  datatype Tree = Leaf(id: nat) | Name(id: nat) | Call(id: nat, args: seq<Tree>) | Unary(op: UnOp, operand: Tree)
                | Binary(bop: BinOp, left: Tree, right: Tree)

  function UnaryOp(t: Token): Option<UnOp> {
    match t
    case Sign(Minus) => Some(Neg)
    case Sign(Tilde) => Some(Not)
    case Sign(Bang) => Some(Not)
    case Sign(Plus) => Some(Pos)
    case _ => None
  }

  function BinaryOp(t: Token): Option<BinOp> {
    match t
    case Sign(EitherOf) => Some(LogicalOr)
    case Sign(BothOf) => Some(LogicalAnd)
    case Sign(Star) => Some(Mul)
    case Sign(Slash) => Some(Div)
    case Sign(Percent) => Some(Mod)
    case Sign(Plus) => Some(Add)
    case Sign(Minus) => Some(Sub)
    case Sign(ShiftLeft) => Some(Shl)
    case Sign(ShiftRight) => Some(Shr)
    case Sign(Ampersand) => Some(And)
    case Sign(Caret) => Some(Xor)
    case Sign(Bar) => Some(Or)
    case Sign(Equal) => Some(Eq)
    case Sign(Unequal) => Some(Ne)
    case Sign(Less) => Some(Lt)
    case Sign(LessEqual) => Some(Le)
    case Sign(Greater) => Some(Gt)
    case Sign(GreaterEqual) => Some(Ge)
    case _ => None
  }

  function Precedence(op: BinOp): (p: nat)
    ensures 0 < p < TIGHT
  {
    match op
    case LogicalOr => 1
    case LogicalAnd => 2
    case Mul => 21
    case Div => 21
    case Mod => 21
    case Add => 18
    case Sub => 18
    case Shl => 15
    case Shr => 15
    case And => 12
    case Xor => 9
    case Or => 6
    case _ => 3
  }

  /** Above every binary operator. */
  const TIGHT: nat := 22

  // ----- The grammar as the parser reads it -----

  /** What was read and the tokens behind it; None once a diagnostic is given. */
  type Parsed = Option<(Tree, seq<Token>)>

  function SkipLines(ts: seq<Token>): (r: seq<Token>)
    ensures |r| <= |ts|
  {
    if ts != [] && ts[0] == Newline then SkipLines(ts[1..]) else ts
  }

  function Primary(ts: seq<Token>): (r: Parsed)
    ensures r.Some? ==> |r.value.1| < |ts|
    decreases |ts|, 0
  {
    if ts == [] then None
    else match ts[0]
      case Atom(id) => Some((Leaf(id), ts[1..]))
      case Identifier(id) =>
        if |ts| > 1 && ts[1] == Open then
          var args := Arguments(SkipLines(ts[2..]));
          if args.None? then None else Some((Call(id, args.value.0), args.value.1))
        else Some((Name(id), ts[1..]))
      case Open =>
        var inside := Expression(ts[1..], 0);
        if inside.Some? && inside.value.1 != [] && inside.value.1[0] == Close
        then Some((inside.value.0, inside.value.1[1..])) else None
      case _ => None
  }

  /** The arguments of a call up to its parenthesis, with a trailing comma allowed. */
  function Arguments(ts: seq<Token>): (r: Option<(seq<Tree>, seq<Token>)>)
    ensures r.Some? ==> |r.value.1| < |ts|
    decreases |ts|, 3
  {
    if ts != [] && ts[0] == Close then Some(([], ts[1..]))
    else
      var first := Expression(ts, 0);
      if first.None? then None
      else
        var rest := SkipLines(first.value.1);
        if rest != [] && rest[0] == Comma then
          var more := Arguments(SkipLines(rest[1..]));
          if more.None? then None else Some(([first.value.0] + more.value.0, more.value.1))
        else if rest != [] && rest[0] == Close then Some(([first.value.0], rest[1..]))
        else None
  }

  /** Arguments that come behind others. */
  function Behind(args: seq<Tree>, p: Option<(seq<Tree>, seq<Token>)>): Option<(seq<Tree>, seq<Token>)> {
    if p.None? then None else Some((args + p.value.0, p.value.1))
  }

  lemma BehindNothing(p: Option<(seq<Tree>, seq<Token>)>)
    ensures Behind([], p) == p
  {
    if p.Some? {
      assert [] + p.value.0 == p.value.0;
    }
  }

  lemma ArgumentBehind(args: seq<Tree>, ts: seq<Token>)
    requires ts == [] || ts[0] != Close
    ensures var first := Expression(ts, 0);
            if first.None? then Behind(args, Arguments(ts)).None?
            else
              var rest := SkipLines(first.value.1);
              Behind(args, Arguments(ts)) ==
              if rest != [] && rest[0] == Comma then Behind(args + [first.value.0], Arguments(SkipLines(rest[1..])))
              else if rest != [] && rest[0] == Close then Some((args + [first.value.0], rest[1..])) else None
  {
    var first := Expression(ts, 0);
    if first.Some? {
      var rest := SkipLines(first.value.1);
      if rest != [] && rest[0] == Comma && Arguments(SkipLines(rest[1..])).Some? {
        var more := Arguments(SkipLines(rest[1..])).value.0;
        assert args + ([first.value.0] + more) == args + [first.value.0] + more;
      }
    }
  }

  function UnaryExpression(ts: seq<Token>): (r: Parsed)
    ensures r.Some? ==> |r.value.1| < |ts|
    decreases |ts|, 1
  {
    if ts != [] && UnaryOp(ts[0]).Some? then
      var operand := UnaryExpression(ts[1..]);
      if operand.None? then None else Some((Unary(UnaryOp(ts[0]).value, operand.value.0), operand.value.1))
    else Primary(ts)
  }

  function Expression(ts: seq<Token>, minimum: nat): (r: Parsed)
    ensures r.Some? ==> |r.value.1| < |ts|
    decreases |ts|, 2
  {
    var left := UnaryExpression(ts);
    if left.None? then None else Operators(left.value.0, left.value.1, minimum)
  }

  /** The loop over operators that bind at least as tightly as minimum. */
  function Operators(left: Tree, ts: seq<Token>, minimum: nat): (r: Parsed)
    ensures r.Some? ==> |r.value.1| <= |ts|
    decreases |ts|, 0
  {
    if Stops(ts, minimum) then Some((left, ts))
    else
      var op := BinaryOp(ts[0]).value;
      var right := Expression(ts[1..], Precedence(op) + 1);
      if right.None? then None else Operators(Binary(op, left, right.value.0), right.value.1, minimum)
  }

  /** No operator that binds at least as tightly as minimum comes next. */
  predicate Stops(ts: seq<Token>, minimum: nat) {
    ts == [] || BinaryOp(ts[0]).None? || Precedence(BinaryOp(ts[0]).value) < minimum
  }

  // ----- The parser -----

  class Parser {
    const tokens: seq<Token>
    var at: nat

    constructor (tokens: seq<Token>)
      ensures this.tokens == tokens && at == 0
    {
      this.tokens := tokens;
      at := 0;
    }

    ghost predicate Valid()
      reads this
    {
      at <= |tokens|
    }

    ghost function Rest(): seq<Token>
      reads this
      requires Valid()
    {
      tokens[at..]
    }

    method Lines()
      requires Valid()
      modifies this`at
      ensures Valid() && Rest() == SkipLines(old(Rest()))
    {
      while at < |tokens| && tokens[at] == Newline
        invariant Valid() && SkipLines(Rest()) == SkipLines(old(Rest()))
        decreases |tokens| - at
      {
        assert Rest()[1..] == tokens[at + 1..];
        at := at + 1;
      }
    }

    method Accept(t: Token) returns (ok: bool)
      requires Valid()
      modifies this`at
      ensures Valid() && ok == (old(Rest()) != [] && old(Rest())[0] == t)
      ensures Rest() == if ok then old(Rest())[1..] else old(Rest())
    {
      ok := at < |tokens| && tokens[at] == t;
      if ok {
        at := at + 1;
      }
    }

    method ParsePrimary() returns (r: Option<Tree>)
      requires Valid()
      modifies this`at
      ensures Valid()
      ensures var p := Primary(old(Rest()));
              if p.None? then r.None? else r == Some(p.value.0) && Rest() == p.value.1
      decreases |tokens| - at, 0
    {
      if at == |tokens| {
        return None;
      }
      var token := tokens[at];
      at := at + 1;
      match token {
        case Atom(id) => r := Some(Leaf(id));
        case Identifier(id) =>
          var call := Accept(Open);
          if !call {
            return Some(Name(id));
          }
          Lines();
          var args := ParseArguments();
          r := if args.None? then None else Some(Call(id, args.value));
        case Open =>
          r := ParseExpression(0);
          if r.Some? {
            var closed := Accept(Close);
            r := if closed then r else None;
          }
        case _ => r := None;
      }
    }

    method ParseArguments() returns (r: Option<seq<Tree>>)
      requires Valid()
      modifies this`at
      ensures Valid()
      ensures var p := Arguments(old(Rest()));
              if p.None? then r.None? else r == Some(p.value.0) && Rest() == p.value.1
      decreases |tokens| - at, 3
    {
      var args := [];
      ghost var before := Rest();
      BehindNothing(Arguments(before));
      while at == |tokens| || tokens[at] != Close
        invariant Valid() && old(at) <= at
        invariant Arguments(before) == Behind(args, Arguments(Rest()))
        decreases |tokens| - at
      {
        ArgumentBehind(args, Rest());
        var first := ParseExpression(0);
        if first.None? {
          return None;
        }
        Lines();
        var more := Accept(Comma);
        args := args + [first.value];
        if !more {
          var closed := Accept(Close);
          return if closed then Some(args) else None;
        }
        Lines();
      }
      assert args + [] == args;
      at := at + 1;
      r := Some(args);
    }

    method ParseUnary() returns (r: Option<Tree>)
      requires Valid()
      modifies this`at
      ensures Valid()
      ensures var p := UnaryExpression(old(Rest()));
              if p.None? then r.None? else r == Some(p.value.0) && Rest() == p.value.1
      decreases |tokens| - at, 1
    {
      if at == |tokens| || UnaryOp(tokens[at]).None? {
        r := ParsePrimary();
        return;
      }
      var op := UnaryOp(tokens[at]).value;
      at := at + 1;
      r := ParseUnary();
      r := if r.None? then None else Some(Unary(op, r.value));
    }

    method ParseExpression(minimum: nat) returns (r: Option<Tree>)
      requires Valid()
      modifies this`at
      ensures Valid()
      ensures var p := Expression(old(Rest()), minimum);
              if p.None? then r.None? else r == Some(p.value.0) && Rest() == p.value.1
      decreases |tokens| - at, 2
    {
      r := ParseUnary();
      if r.None? {
        return;
      }
      while at < |tokens| && BinaryOp(tokens[at]).Some? && Precedence(BinaryOp(tokens[at]).value) >= minimum
        invariant Valid() && old(at) < at && r.Some?
        invariant Expression(old(Rest()), minimum) == Operators(r.value, Rest(), minimum)
        decreases |tokens| - at
      {
        var op := BinaryOp(tokens[at]).value;
        at := at + 1;
        var right := ParseExpression(Precedence(op) + 1);
        if right.None? {
          return None;
        }
        r := Some(Binary(op, r.value, right.value));
      }
    }
  }

  // ----- The printer -----

  function UnaryToken(op: UnOp): Token {
    match op case Neg => Sign(Minus) case Not => Sign(Tilde) case Pos => Sign(Plus)
  }

  function BinaryToken(op: BinOp): Token {
    match op
    case LogicalOr => Sign(EitherOf)
    case LogicalAnd => Sign(BothOf)
    case Mul => Sign(Star)
    case Div => Sign(Slash)
    case Mod => Sign(Percent)
    case Add => Sign(Plus)
    case Sub => Sign(Minus)
    case Shl => Sign(ShiftLeft)
    case Shr => Sign(ShiftRight)
    case And => Sign(Ampersand)
    case Xor => Sign(Caret)
    case Or => Sign(Bar)
    case Eq => Sign(Equal)
    case Ne => Sign(Unequal)
    case Lt => Sign(Less)
    case Le => Sign(LessEqual)
    case Gt => Sign(Greater)
    case Ge => Sign(GreaterEqual)
  }

  /** Whether t stands without parentheses where operators of at least this precedence may. */
  predicate Bare(t: Tree, minimum: nat) {
    t.Binary? ==> Precedence(t.bop) >= minimum
  }

  /** The printer for a place that takes operators of at least the given precedence. */
  function Print(t: Tree, minimum: nat): (r: seq<Token>)
    ensures r != [] && r[0] != Newline && r[0] != Close
    decreases t, 0
  {
    match t
    case Leaf(id) => [Atom(id)]
    case Name(id) => [Identifier(id)]
    case Call(id, args) => [Identifier(id), Open] + (PrintAll(args) + [Close])
    case Unary(op, x) => [UnaryToken(op)] + Print(x, TIGHT)
    case Binary(op, l, r) =>
      var plain := Print(l, Precedence(op)) + ([BinaryToken(op)] + Print(r, Precedence(op) + 1));
      if Precedence(op) < minimum then [Open] + (plain + [Close]) else plain
  }

  function PrintAll(ts: seq<Tree>): seq<Token>
    decreases ts, 1
  {
    if ts == [] then []
    else Print(ts[0], 0) + if |ts| == 1 then [] else [Comma] + PrintAll(ts[1..])
  }

  // ----- The parser inverts the printer -----

  lemma TokensRead(op: BinOp, u: UnOp)
    ensures BinaryOp(BinaryToken(op)) == Some(op) && UnaryOp(UnaryToken(u)) == Some(u)
  {
  }

  /** What may follow a whole expression: not the parenthesis of a call. */
  predicate NoCall(rest: seq<Token>) {
    rest == [] || rest[0] != Open
  }

  /** Reading a printed tree in a context of lower precedence leaves the loop holding that tree. */
  lemma {:induction false} PrintedReads(t: Tree, p: nat, minimum: nat, rest: seq<Token>)
    requires minimum <= p && NoCall(rest)
    requires t.Binary? && Bare(t, p) ==> Stops(rest, Precedence(t.bop) + 1)
    ensures Expression(Print(t, p) + rest, minimum) == Operators(t, rest, minimum)
    decreases t, if t.Binary? && Bare(t, p) then 0 else 2
  {
    if t.Binary? && Bare(t, p) {
      var q := Precedence(t.bop);
      var tail := Print(t.right, q + 1) + rest;
      var middle := [BinaryToken(t.bop)] + tail;
      assert Print(t, p) + rest == Print(t.left, q) + middle;
      TokensRead(t.bop, Neg);
      PrintedReads(t.left, q, minimum, middle);
      PrintedReads(t.right, q + 1, q + 1, rest);
      assert middle[1..] == tail;
      assert Operators(t.right, rest, q + 1) == Some((t.right, rest));
    } else {
      SamePrint(t, p);
      TightReads(t, rest);
    }
  }

  lemma SamePrint(t: Tree, p: nat)
    requires !(t.Binary? && Bare(t, p))
    ensures Print(t, p) == Print(t, TIGHT)
  {
  }

  /** A tree printed as an operand is read back as one. */
  lemma {:induction false} TightReads(t: Tree, rest: seq<Token>)
    requires NoCall(rest)
    ensures UnaryExpression(Print(t, TIGHT) + rest) == Some((t, rest))
    decreases t, 1
  {
    var ts := Print(t, TIGHT) + rest;
    match t
    case Leaf(_) => assert ts[1..] == rest;
    case Name(_) => assert ts[1..] == rest;
    case Call(id, args) =>
      var inside := PrintAll(args) + ([Close] + rest);
      assert ts == [Identifier(id), Open] + inside;
      assert ts[2..] == inside;
      ArgumentsRead(args, rest);
    case Unary(op, x) =>
      TokensRead(Mul, op);
      assert ts[1..] == Print(x, TIGHT) + rest;
      TightReads(x, rest);
    case Binary(_, _, _) =>
      assert ts == [Open] + (Print(t, 0) + ([Close] + rest));
      assert ts[1..] == Print(t, 0) + ([Close] + rest);
      PrintedReads(t, 0, 0, [Close] + rest);
      assert ([Close] + rest)[1..] == rest;
  }

  lemma {:induction false} ArgumentsRead(args: seq<Tree>, rest: seq<Token>)
    ensures var ts := PrintAll(args) + ([Close] + rest);
            SkipLines(ts) == ts && Arguments(ts) == Some((args, rest))
    decreases args, 3
  {
    hide Print, NoCall, Bare, Precedence;
    var ts := PrintAll(args) + ([Close] + rest);
    if args == [] {
      assert ts[1..] == rest;
    } else if |args| == 1 {
      PrintedReads(args[0], 0, 0, [Close] + rest);
      assert ts == Print(args[0], 0) + ([Close] + rest);
      assert ([Close] + rest)[1..] == rest;
      assert [args[0]] == args;
    } else {
      var tail := PrintAll(args[1..]) + ([Close] + rest);
      assert ts == Print(args[0], 0) + ([Comma] + tail);
      PrintedReads(args[0], 0, 0, [Comma] + tail);
      ArgumentsRead(args[1..], rest);
      assert ([Comma] + tail)[1..] == tail;
      assert [args[0]] + args[1..] == args;
    }
  }

  /** A printed tree is read back whole, left associative operators and all, from any place that
      does not continue it. */
  lemma ParseInvertsPrint(t: Tree, minimum: nat, rest: seq<Token>)
    requires NoCall(rest) && Stops(rest, minimum)
    ensures Expression(Print(t, minimum) + rest, minimum) == Some((t, rest))
  {
    PrintedReads(t, minimum, minimum, rest);
  }

  // ----- The printer is minimal -----

  lemma LooserIsShorter(t: Tree, p: nat, q: nat)
    requires p <= q
    ensures |Print(t, p)| <= |Print(t, q)|
  {
  }

  lemma {:induction false} ExpressionStops(ts: seq<Token>, minimum: nat)
    requires Expression(ts, minimum).Some?
    ensures Stops(Expression(ts, minimum).value.1, minimum)
  {
    var left := UnaryExpression(ts).value;
    OperatorsStop(left.0, left.1, minimum);
  }

  lemma {:induction false} OperatorsStop(left: Tree, ts: seq<Token>, minimum: nat)
    requires Operators(left, ts, minimum).Some?
    ensures Stops(Operators(left, ts, minimum).value.1, minimum)
    decreases |ts|
  {
    if !Stops(ts, minimum) {
      var op := BinaryOp(ts[0]).value;
      var right := Expression(ts[1..], Precedence(op) + 1).value;
      OperatorsStop(Binary(op, left, right.0), right.1, minimum);
    }
  }

  /** Every token sequence that is read as a tree is at least as long as the printed tree. */
  lemma {:induction false} PrintIsShortest(ts: seq<Token>, minimum: nat)
    requires Expression(ts, minimum).Some?
    ensures var r := Expression(ts, minimum).value; |Print(r.0, minimum)| <= |ts| - |r.1|
    decreases |ts|, 2
  {
    var left := UnaryExpression(ts).value;
    UnaryIsShortest(ts);
    OperatorsAreShortest(left.0, left.1, minimum, |ts| - |left.1|);
  }

  lemma {:induction false} UnaryIsShortest(ts: seq<Token>)
    requires UnaryExpression(ts).Some?
    ensures var r := UnaryExpression(ts).value; |Print(r.0, TIGHT)| <= |ts| - |r.1|
    decreases |ts|, 1
  {
    if ts != [] && UnaryOp(ts[0]).Some? {
      UnaryIsShortest(ts[1..]);
    } else if ts[0].Open? {
      PrintIsShortest(ts[1..], 0);
      var inside := Expression(ts[1..], 0).value.0;
      assert |Print(inside, TIGHT)| <= |Print(inside, 0)| + 2;
    } else if ts[0].Identifier? && |ts| > 1 && ts[1] == Open {
      ArgumentsAreShortest(SkipLines(ts[2..]));
    }
  }

  lemma {:induction false} ArgumentsAreShortest(ts: seq<Token>)
    requires Arguments(ts).Some?
    ensures var r := Arguments(ts).value; |PrintAll(r.0)| + 1 <= |ts| - |r.1|
    decreases |ts|, 3
  {
    if ts != [] && ts[0] == Close {
    } else {
      PrintIsShortest(ts, 0);
      var first := Expression(ts, 0).value;
      var rest := SkipLines(first.1);
      if rest != [] && rest[0] == Comma {
        ArgumentsAreShortest(SkipLines(rest[1..]));
        var more := Arguments(SkipLines(rest[1..])).value.0;
        assert ([first.0] + more)[1..] == more;
      }
    }
  }

  lemma {:induction false} OperatorsAreShortest(left: Tree, ts: seq<Token>, minimum: nat, used: nat)
    requires Operators(left, ts, minimum).Some?
    requires |Print(left, TIGHT)| <= used ||
             (left.Binary? && Stops(ts, Precedence(left.bop) + 1) && |Print(left, minimum)| <= used)
    ensures var r := Operators(left, ts, minimum).value; |Print(r.0, minimum)| <= used + |ts| - |r.1|
    decreases |ts|, 0
  {
    LooserIsShorter(left, minimum, TIGHT + minimum);
    if !Stops(ts, minimum) {
      var op := BinaryOp(ts[0]).value;
      var q := Precedence(op);
      var right := Expression(ts[1..], q + 1).value;
      PrintIsShortest(ts[1..], q + 1);
      ExpressionStops(ts[1..], q + 1);
      LooserIsShorter(left, q, TIGHT);
      assert |Print(left, q)| <= used;
      OperatorsAreShortest(Binary(op, left, right.0), right.1, minimum, used + |ts| - |right.1|);
    }
  }
}
