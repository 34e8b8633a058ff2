/** Lowered element accesses over the handle table of the runtime: the callbacks in the order of the
    runtime's table, and what an access comes to when it calls them. */
module NovaRuntime {
  import opened Words
  import opened X86
  import opened Codegen
  import opened NovaSource
  import opened NovaTarget
  import opened NovaLowering
  import opened NovaExpressions
  import opened HandleContents
  import H = Handles

  datatype Callback = Allocates | Frees | OpensToRead | OpensNew | Reads | Writes | Closes | Reports
                    | Resolves | Slices | Measures | Copies | Moves

  /** The calls of the runtime in the order of its table; the last one stands behind its state. */
  const CALLBACKS: seq<Callback> :=
    [Allocates, Frees, OpensToRead, OpensNew, Reads, Writes, Closes, Reports, Resolves, Slices, Measures, Copies, Moves]

  /** The allocator's answer, by how many handles were given out before. */
  type Heap = nat -> nat

  function Pointed(a: H.Address): nat {
    match a case At(p) => p case _ => 0
  }

  /** What a callback makes of the handle table, and its result. Files and copies leave the table. */
  function Answering(heap: Heap, c: Callback, t: H.Table, a: nat, b: nat, d: nat): (r: (H.Table, nat))
    requires H.Shaped(t)
    ensures H.Shaped(r.0)
  {
    match c
    case Allocates => var added := H.Allocate(t, a, heap(t.generation)); (added.table, added.handle)
    case Frees => (H.Release(t, a, b), 0)
    case Resolves => var looked := H.Look(t, a, b, d % 0x8000_0000_0000_0000, d >= 0x8000_0000_0000_0000); (looked.0, Pointed(looked.1))
    case Slices => var added := H.Slice(t, a, b, d); (added.table, added.handle)
    case Measures => H.Length(t, a)
    case Copies => var added := H.Literal(t, a, b, d != 0, heap(t.generation)); (added.table, added.handle)
    case _ => (t, 0)
  }

  /** The table after the calls in a trace, each made when no error was set. */
  function TableAfter(heap: Heap, trace: seq<Action>): (t: H.Table)
    ensures H.Shaped(t) && t.error == 0
  {
    if trace == [] then H.Initial()
    else
      var t := TableAfter(heap, trace[..|trace| - 1]);
      match trace[|trace| - 1]
      case Ran(operation, a, b, d) =>
        if operation < |CALLBACKS| then Answering(heap, CALLBACKS[operation], t, Rep(a), Rep(b), Rep(d)).0.(error := 0) else t
      case _ => t
  }

  function Now(heap: Heap, w: World): (t: H.Table)
    ensures H.Shaped(t)
  {
    TableAfter(heap, w.trace).(error := w.code)
  }

  /** Calls of the runtime's table go to the callbacks. */
  ghost predicate Serves(env: Outside, heap: Heap) {
    && (forall operation: nat, a, b, d, w :: operation < |CALLBACKS| ==>
          env.run(operation, a, b, d, w) == Served(heap, operation, a, b, d, w))
    && forall w :: env.table(Runtime, w) != 0 && env.table(Version, w) == 2 && env.table(Size, w) == 128
                   && forall k: nat :: k < |CALLBACKS| ==> env.table(Entry(k), w) != 0
  }

  function Served(heap: Heap, operation: nat, a: int, b: int, d: int, w: World): Answer
    requires operation < |CALLBACKS|
  {
    var r := Answering(heap, CALLBACKS[operation], Now(heap, w), Rep(a), Rep(b), Rep(d));
    Answer(r.1, Rep(r.0.error), w.source, w.start)
  }

  lemma ServedRuns(env: Outside, heap: Heap, operation: nat, a: int, b: int, d: int, w: World, span: Span)
    requires Serves(env, heap) && operation < |CALLBACKS|
    ensures var answer := Served(heap, operation, a, b, d, w);
            RunOperation(env, operation, a, b, d, w, span) == Answered(U(B64), answer, After(w, answer, Ran(operation, a, b, d)), span)
  {
    assert env.run(operation, a, b, d, w) == Served(heap, operation, a, b, d, w);
    assert HasRuntime(env, operation, w);
  }

  /** The world after a call that reported no error. */
  function Went(w: World, operation: nat, a: int, b: int, d: int): World {
    w.(trace := w.trace + [Ran(operation, a, b, d)])
  }

  predicate Clean(w: World) {
    w.code == 0 && w.source == 0
  }

  /** The bounds error at a position. */
  predicate OutOfBounds(ev: Evaluated, span: Span) {
    ev.Err? && ev.w.code == 4 && ev.w.source == span.source && ev.w.start == span.start
  }

  /** A load through a handle that stands for an area, from an offset on. */
  lemma LoadOverRuntime(env: Outside, heap: Heap, h: Quad, offset: Quad, width: nat, t: Ty, w: World, span: Span, a: Area)
    requires Serves(env, heap) && Clean(w) && 1 <= width <= 8 && StandsFor(Now(heap, w), h, a) && a.address + a.bytes < W
    ensures var ev := LoadFrom(env, h, offset, width, t, w, span);
            if offset + width <= a.bytes
            then var w' := Went(w, 8, h, offset, width); ev == Val(Wrap(t, env.load(a.address + offset, width, w')), w')
            else OutOfBounds(ev, span)
  {
    hide Serves, StandsFor, Now, TableAfter, Resolve;
    ResolvedOverRuntime(env, heap, h, offset, width, w, span, a);
  }

  lemma ResolvedOverRuntime(env: Outside, heap: Heap, h: Quad, offset: Quad, width: nat, w: World, span: Span, a: Area)
    requires Serves(env, heap) && Clean(w) && 1 <= width <= 8 && StandsFor(Now(heap, w), h, a) && a.address + a.bytes < W
    ensures var ev := Resolve(env, h, offset, width, false, w, span);
            if offset + width <= a.bytes then ev == Val(a.address + offset, Went(w, 8, h, offset, width)) else OutOfBounds(ev, span)
  {
    hide Serves, StandsFor, H.Resolve, Now, TableAfter;
    ServedRuns(env, heap, RESOLVE, h, offset, width, w, span);
    assert Rep(h) == h && Rep(offset) == offset && Rep(width) == width;
    ResolvedAs(Now(heap, w), h, offset, width, a);
    NowHasError(heap, w);
    assert CALLBACKS[8] == Resolves;
  }

  lemma NowHasError(heap: Heap, w: World)
    ensures Now(heap, w).error == w.code
  {
  }

  lemma ResolvedAs(t: H.Table, h: nat, offset: nat, width: nat, a: Area)
    requires StandsFor(t, h, a)
    ensures H.Resolve(t, h, offset, width, false) == RangeOf(a, offset, width, false)
  {
  }

  /** The lowered code of x[i] reads the bytes of the element where the runtime put them, or returns
      with the bounds error at its position when they are not all in the area. */
  lemma ElementReadsArea(env: Outside, heap: Heap, x: nat, i: nat, width: nat, t: Ty, span: Span, n: nat,
                         s: map<nat, int>, w: World, fuel: nat, a: Area) returns (ev: Evaluated)
    requires Serves(env, heap) && Clean(w) && 1 <= width <= 8 && x < n && i < n
    requires StandsFor(Now(heap, w), Rep(Get(s, x)), a) && a.address + a.bytes < W
    ensures Computes(env, Lower(Element(Var(x, U(B64)), Var(i, U(B64)), width, t, span), n), ev, n, s, w, fuel)
    ensures var h, k := Rep(Get(s, x)), Rep(Get(s, i));
            if k * width + width <= a.bytes
            then var w' := Went(w, 8, h, k * width, width); ev == Val(Wrap(t, env.load(a.address + k * width, width, w')), w')
            else OutOfBounds(ev, span)
  {
    hide Serves, StandsFor, Now, Lower, Computes, LoadFrom;
    var e := Element(Var(x, U(B64)), Var(i, U(B64)), width, t, span);
    var h, k := Rep(Get(s, x)), Rep(Get(s, i));
    ElementForm(x, i, width, t, span, n);
    LowerComputes(env, e, n, s, w, fuel);
    ev := EvalN(env, e, s, w);
    ElementValue(env, x, i, width, t, span, s, w);
    if TooFar(k, width) {
      FarIsOutside(k, width, a.bytes);
    } else {
      NearIsScaled(k, width);
      LoadOverRuntime(env, heap, h, k * width, width, t, w, span, a);
    }
  }

  lemma ElementForm(x: nat, i: nat, width: nat, t: Ty, span: Span, n: nat)
    requires 1 <= width <= 8 && x < n && i < n
    ensures var e := Element(Var(x, U(B64)), Var(i, U(B64)), width, t, span); VarsBelow(e, n) && Sized(e)
  {
  }

  lemma ElementValue(env: Outside, x: nat, i: nat, width: nat, t: Ty, span: Span, s: map<nat, int>, w: World)
    requires 1 <= width <= 8
    ensures var h, k := Rep(Get(s, x)), Rep(Get(s, i));
            EvalN(env, Element(Var(x, U(B64)), Var(i, U(B64)), width, t, span), s, w) ==
            if TooFar(k, width) then Err(Fail(w, BOUNDS, span)) else LoadFrom(env, h, Scaled(k, width), width, t, w, span)
  {
    hide LoadFrom, TooFar, Scaled;
  }

  lemma ProductGrows(x: nat, y: nat, n: nat)
    requires x <= y
    ensures x * n <= y * n
  {
    assert y * n - x * n == (y - x) * n;
  }

  lemma FarIsOutside(k: nat, width: nat, bytes: nat)
    requires 1 <= width <= 8 && TooFar(k, width) && bytes < W
    ensures k * width + width > bytes
  {
    var q := (W - 1) / width;
    assert W - 1 == q * width + (W - 1) % width && (W - 1) % width < width;
    ProductGrows(q + 1, k, width);
    assert (q + 1) * width == q * width + width;
  }

  lemma NearIsScaled(k: nat, width: nat)
    requires 1 <= width <= 8 && !TooFar(k, width)
    ensures k * width < W && Scaled(k, width) == k * width
  {
    var q := (W - 1) / width;
    assert W - 1 == q * width + (W - 1) % width;
    ProductGrows(k, q, width);
  }

  lemma LengthForm(x: nat, width: nat, span: Span, n: nat)
    requires 1 <= width <= 8 && x < n
    ensures var e := Length(Var(x, U(B64)), width, span); VarsBelow(e, n) && Sized(e)
  {
  }

  /** len(x) is the number of whole elements of the area. */
  lemma LengthOverRuntime(env: Outside, heap: Heap, x: nat, width: nat, span: Span, n: nat,
                          s: map<nat, int>, w: World, fuel: nat, a: Area)
    requires Serves(env, heap) && Clean(w) && 1 <= width <= 8 && x < n
    requires StandsFor(Now(heap, w), Rep(Get(s, x)), a) && a.bytes < W
    ensures Computes(env, Lower(Length(Var(x, U(B64)), width, span), n),
                     Val(a.bytes / width, Went(w, 10, Rep(Get(s, x)), 0, 0)), n, s, w, fuel)
  {
    hide Serves, H.Resolve, H.Length, Now, TableAfter, Lower, Computes;
    var h := Rep(Get(s, x));
    var e := Length(Var(x, U(B64)), width, span);
    LengthForm(x, width, span, n);
    LowerComputes(env, e, n, s, w, fuel);
    ServedRuns(env, heap, LENGTH, h, 0, 0, w, span);
    NowHasError(heap, w);
    assert CALLBACKS[10] == Measures;
    assert EvalN(env, Var(x, U(B64)), s, w) == Val(h, w);
    assert H.Length(Now(heap, w), h) == (Now(heap, w), a.bytes);
    assert EvalN(env, e, s, w) == Val(if width > 1 then a.bytes / width else a.bytes, Went(w, 10, h, 0, 0));
  }
}
