/** Calls over several lines. */
module ArgumentLines {
  import opened Parsing

  function Lines(n: nat): seq<Token> {
    if n == 0 then [] else [Newline] + Lines(n - 1)
  }

  lemma {:induction false} LinesSkipped(n: nat, ts: seq<Token>)
    requires ts == [] || ts[0] != Newline
    ensures SkipLines(Lines(n) + ts) == ts
  {
    if n == 0 {
      assert Lines(n) + ts == ts;
    } else {
      assert (Lines(n) + ts)[1..] == Lines(n - 1) + ts;
      LinesSkipped(n - 1, ts);
    }
  }

  /** Arguments with their commas and the parenthesis, so many line breaks before and after the mark
      that follows each, and a comma behind the last one or not. */
  function Spread(args: seq<Tree>, gaps: seq<(nat, nat)>, trailing: bool): seq<Token>
    requires |gaps| == |args|
  {
    if args == [] then [Close]
    else
      Print(args[0], 0) + (Lines(gaps[0].0) +
        (if |args| == 1 && !trailing then [Close] else [Comma] + (Lines(gaps[0].1) + Spread(args[1..], gaps[1..], trailing))))
  }

  /** A printed tree begins with none of these. */
  lemma TreeStarts(t: Tree)
    ensures var ts := Print(t, 0); ts != [] && ts[0] != Newline && ts[0] != Close
  {
    var ts := Print(t, 0);
    ParseInvertsPrint(t, 0, []);
    assert ts + [] == ts;
    NoTreeThere(ts);
  }

  lemma NoTreeThere(ts: seq<Token>)
    ensures ts == [] || ts[0] == Newline || ts[0] == Close ==> Expression(ts, 0).None?
  {
    assert ts == [] || ts[0] == Newline || ts[0] == Close ==> Primary(ts).None? && UnaryExpression(ts).None?;
  }

  lemma SpreadStarts(args: seq<Tree>, gaps: seq<(nat, nat)>, trailing: bool, rest: seq<Token>)
    requires |gaps| == |args|
    ensures var ts := Spread(args, gaps, trailing) + rest; ts != [] && ts[0] != Newline && (args != [] ==> ts[0] != Close)
  {
    if args != [] {
      TreeStarts(args[0]);
    }
  }

  lemma ArgumentThere(t: Tree, n: nat, ts: seq<Token>)
    requires ts != [] && (ts[0] == Comma || ts[0] == Close)
    ensures Expression(Print(t, 0) + (Lines(n) + ts), 0) == Some((t, Lines(n) + ts)) && SkipLines(Lines(n) + ts) == ts
  {
    ParseInvertsPrint(t, 0, Lines(n) + ts);
    LinesSkipped(n, ts);
  }

  lemma {:induction false} SpreadRead(args: seq<Tree>, gaps: seq<(nat, nat)>, trailing: bool, rest: seq<Token>)
    requires |gaps| == |args|
    ensures Arguments(Spread(args, gaps, trailing) + rest) == Some((args, rest))
    decreases args
  {
    hide Expression, Print;
    var ts := Spread(args, gaps, trailing) + rest;
    if args == [] {
      assert ts[1..] == rest;
    } else {
      SpreadStarts(args, gaps, trailing, rest);
      if |args| == 1 && !trailing {
        assert ts == Print(args[0], 0) + (Lines(gaps[0].0) + ([Close] + rest));
        ArgumentThere(args[0], gaps[0].0, [Close] + rest);
        assert ([Close] + rest)[1..] == rest && [args[0]] == args;
      } else {
        var more := Spread(args[1..], gaps[1..], trailing) + rest;
        var tail := [Comma] + (Lines(gaps[0].1) + more);
        assert ts == Print(args[0], 0) + (Lines(gaps[0].0) + tail);
        ArgumentThere(args[0], gaps[0].0, tail);
        assert tail[1..] == Lines(gaps[0].1) + more;
        SpreadStarts(args[1..], gaps[1..], trailing, rest);
        LinesSkipped(gaps[0].1, more);
        SpreadRead(args[1..], gaps[1..], trailing, rest);
        assert [args[0]] + args[1..] == args;
      }
    }
  }

  /** A call is read over as many lines as it takes, behind the parenthesis and around every comma, and
      with a comma behind its last argument. */
  lemma CallRead(f: nat, args: seq<Tree>, first: nat, gaps: seq<(nat, nat)>, trailing: bool, rest: seq<Token>)
    requires |gaps| == |args|
    ensures Primary([Identifier(f), Open] + (Lines(first) + (Spread(args, gaps, trailing) + rest))) == Some((Call(f, args), rest))
  {
    hide Expression, Print, Spread;
    var ts := Lines(first) + (Spread(args, gaps, trailing) + rest);
    assert ([Identifier(f), Open] + ts)[2..] == ts;
    SpreadStarts(args, gaps, trailing, rest);
    LinesSkipped(first, Spread(args, gaps, trailing) + rest);
    SpreadRead(args, gaps, trailing, rest);
  }

  /** Nothing else may stand behind an argument. */
  lemma NothingElse(t: Tree, n: nat, rest: seq<Token>)
    requires rest == [] || (rest[0] != Newline && rest[0] != Comma && rest[0] != Close && rest[0] != Open && !rest[0].Sign?)
    ensures Arguments(Print(t, 0) + (Lines(n) + rest)) == None
  {
    TreeStarts(t);
    ParseInvertsPrint(t, 0, Lines(n) + rest);
    LinesSkipped(n, rest);
  }
}
