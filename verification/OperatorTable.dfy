/** The operators of the expression grammar as a table: how tightly each binds, and what it builds. */
module OperatorTable {
  import opened Parsing

  /** From the tightest level to the loosest. */
  const SYMBOLS: seq<seq<Symbol>> :=
    [[Star, Slash, Percent], [Plus, Minus], [ShiftLeft, ShiftRight], [Ampersand], [Caret], [Bar],
     [Equal, Unequal, Less, LessEqual, Greater, GreaterEqual], [BothOf], [EitherOf]]

  /** What the operators in the same places build. */
  const OPERATORS: seq<seq<BinOp>> :=
    [[Mul, Div, Mod], [Add, Sub], [Shl, Shr], [And], [Xor], [Or], [Eq, Ne, Lt, Le, Gt, Ge], [LogicalAnd], [LogicalOr]]

  const PREFIXES: seq<(Symbol, UnOp)> := [(Symbol.Minus, Neg), (Tilde, Not), (Bang, Not), (Symbol.Plus, Pos)]

  /** There is an operator in place i of level k. */
  predicate Listed(k: nat, i: nat) {
    k < |SYMBOLS| == |OPERATORS| && i < |SYMBOLS[k]| == |OPERATORS[k]|
  }

  function PlaceOf(s: Symbol): (int, int) {
    match s
    case Star => (0, 0) case Slash => (0, 1) case Percent => (0, 2)
    case Plus => (1, 0) case Minus => (1, 1)
    case ShiftLeft => (2, 0) case ShiftRight => (2, 1)
    case Ampersand => (3, 0) case Caret => (4, 0) case Bar => (5, 0)
    case Equal => (6, 0) case Unequal => (6, 1) case Less => (6, 2)
    case LessEqual => (6, 3) case Greater => (6, 4) case GreaterEqual => (6, 5)
    case BothOf => (7, 0) case EitherOf => (8, 0)
    case _ => (-1, -1)
  }

  lemma InPlace(k: nat, i: nat)
    requires Listed(k, i)
    ensures PlaceOf(SYMBOLS[k][i]) == (k, i) && SYMBOLS[k][i] != Tilde && SYMBOLS[k][i] != Bang
  {
  }

  /** Every symbol but ~ and ! is in one place of the table. */
  lemma ListedOnce(s: Symbol)
    ensures (s != Tilde && s != Bang) <==> exists k: nat, i: nat :: Listed(k, i) && SYMBOLS[k][i] == s
    ensures forall k: nat, i: nat, l: nat, j: nat ::
              Listed(k, i) && Listed(l, j) && SYMBOLS[k][i] == s && SYMBOLS[l][j] == s ==> k == l && i == j
  {
    forall k: nat, i: nat | Listed(k, i) && SYMBOLS[k][i] == s
      ensures PlaceOf(s) == (k, i) && s != Tilde && s != Bang
    {
      InPlace(k, i);
    }
    if s != Tilde && s != Bang {
      var place := PlaceOf(s);
      assert Listed(place.0, place.1) && SYMBOLS[place.0][place.1] == s;
    }
  }

  lemma OperatorAt(k: nat, i: nat)
    requires Listed(k, i)
    ensures BinaryOp(Sign(SYMBOLS[k][i])) == Some(OPERATORS[k][i])
    ensures Precedence(OPERATORS[k][i]) == if k < 7 then 21 - 3 * k else 9 - k
  {
  }

  lemma AtomRead(a: nat, rest: seq<Token>, minimum: nat)
    requires Stops(rest, minimum)
    ensures UnaryExpression([Atom(a)] + rest) == Some((Leaf(a), rest))
    ensures Expression([Atom(a)] + rest, minimum) == Some((Leaf(a), rest))
  {
    AtomFirst(a, rest);
  }

  lemma AtomFirst(a: nat, rest: seq<Token>)
    ensures UnaryExpression([Atom(a)] + rest) == Some((Leaf(a), rest))
  {
    assert ([Atom(a)] + rest)[1..] == rest;
    assert Primary([Atom(a)] + rest) == Some((Leaf(a), rest));
  }

  /** One operator and its right operand, when nothing behind binds tighter. */
  lemma Joined(left: Tree, k: nat, i: nat, c: nat, rest: seq<Token>, minimum: nat)
    requires Listed(k, i) && minimum <= Precedence(OPERATORS[k][i]) && Stops(rest, Precedence(OPERATORS[k][i]) + 1)
    ensures Operators(left, [Sign(SYMBOLS[k][i]), Atom(c)] + rest, minimum) ==
            Operators(Binary(OPERATORS[k][i], left, Leaf(c)), rest, minimum)
  {
    hide Expression, Precedence, BinaryOp;
    OperatorAt(k, i);
    var ts := [Sign(SYMBOLS[k][i]), Atom(c)] + rest;
    assert ts[1..] == [Atom(c)] + rest;
    AtomRead(c, rest, Precedence(OPERATORS[k][i]) + 1);
  }

  function Two(k: nat, i: nat, l: nat, j: nat, a: nat, b: nat, c: nat): seq<Token>
    requires Listed(k, i) && Listed(l, j)
  {
    [Atom(a), Sign(SYMBOLS[k][i]), Atom(b), Sign(SYMBOLS[l][j]), Atom(c)]
  }

  /** Of two operators between three operands the left one is applied first exactly when it does not
      bind more loosely. */
  lemma TwoRead(k: nat, i: nat, l: nat, j: nat, a: nat, b: nat, c: nat)
    requires Listed(k, i) && Listed(l, j)
    ensures Expression(Two(k, i, l, j, a, b, c), 0) ==
            var p, q := OPERATORS[k][i], OPERATORS[l][j];
            Some((if k <= l then Binary(q, Binary(p, Leaf(a), Leaf(b)), Leaf(c))
                  else Binary(p, Leaf(a), Binary(q, Leaf(b), Leaf(c))), []))
  {
    hide Precedence, BinaryOp, Operators;
    OperatorAt(k, i);
    OperatorAt(l, j);
    var last := [Sign(SYMBOLS[l][j]), Atom(c)];
    var rest := [Sign(SYMBOLS[k][i]), Atom(b)] + last;
    assert Two(k, i, l, j, a, b, c) == [Atom(a)] + rest;
    AtomFirst(a, rest);
    if k <= l {
      assert last[0] == Sign(SYMBOLS[l][j]);
      Joined(Leaf(a), k, i, b, last, 0);
      LastJoined(Binary(OPERATORS[k][i], Leaf(a), Leaf(b)), l, j, c, 0);
    } else {
      Nested(Leaf(a), k, i, l, j, b, c);
    }
  }

  lemma LastJoined(left: Tree, l: nat, j: nat, c: nat, minimum: nat)
    requires Listed(l, j) && minimum <= Precedence(OPERATORS[l][j])
    ensures Operators(left, [Sign(SYMBOLS[l][j]), Atom(c)], minimum) == Some((Binary(OPERATORS[l][j], left, Leaf(c)), []))
  {
    hide Precedence, BinaryOp;
    Joined(left, l, j, c, [], minimum);
    assert [Sign(SYMBOLS[l][j]), Atom(c)] + [] == [Sign(SYMBOLS[l][j]), Atom(c)];
  }

  /** A tighter operator on the right takes the operand. */
  lemma Nested(left: Tree, k: nat, i: nat, l: nat, j: nat, b: nat, c: nat)
    requires Listed(k, i) && Listed(l, j) && l < k
    ensures Operators(left, [Sign(SYMBOLS[k][i]), Atom(b)] + [Sign(SYMBOLS[l][j]), Atom(c)], 0) ==
            Some((Binary(OPERATORS[k][i], left, Binary(OPERATORS[l][j], Leaf(b), Leaf(c))), []))
  {
    hide Precedence, BinaryOp;
    OperatorAt(k, i);
    OperatorAt(l, j);
    var last := [Sign(SYMBOLS[l][j]), Atom(c)];
    var ts := [Sign(SYMBOLS[k][i]), Atom(b)] + last;
    assert ts[1..] == [Atom(b)] + last;
    AtomFirst(b, last);
    LastJoined(Leaf(b), l, j, c, Precedence(OPERATORS[k][i]) + 1);
  }

  /** The prefix operators are those of the table; they bind tighter than every other operator. */
  lemma PrefixRead(n: nat, k: nat, i: nat, a: nat, b: nat)
    requires n < |PREFIXES| && Listed(k, i)
    ensures Expression([Sign(PREFIXES[n].0), Atom(a), Sign(SYMBOLS[k][i]), Atom(b)], 0) ==
            Some((Binary(OPERATORS[k][i], Unary(PREFIXES[n].1, Leaf(a)), Leaf(b)), []))
  {
    hide Precedence, BinaryOp, Operators;
    var last := [Sign(SYMBOLS[k][i]), Atom(b)];
    var ts := [Sign(PREFIXES[n].0), Atom(a), Sign(SYMBOLS[k][i]), Atom(b)];
    assert ts[1..] == [Atom(a)] + last;
    AtomFirst(a, last);
    assert UnaryExpression(ts) == Some((Unary(PREFIXES[n].1, Leaf(a)), last));
    LastJoined(Unary(PREFIXES[n].1, Leaf(a)), k, i, b, 0);
  }

  /** No other operator starts an expression. */
  lemma PrefixesOnly(s: Symbol, rest: seq<Token>, minimum: nat)
    requires forall n :: 0 <= n < |PREFIXES| ==> PREFIXES[n].0 != s
    ensures Expression([Sign(s)] + rest, minimum).None?
  {
    assert PREFIXES[0].0 != s && PREFIXES[1].0 != s && PREFIXES[2].0 != s && PREFIXES[3].0 != s;
    var ts := [Sign(s)] + rest;
    assert UnaryOp(ts[0]).None? && Primary(ts).None?;
  }
}
