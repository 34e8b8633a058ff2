/** What each runtime operation gives and which error it sets, in the numbers of the runtime's interface. */
module HandleOutcomes {
  import opened Handles
  import opened HandleContents

  // The errors of the interface.
  const OUT_OF_BOUNDS: nat := 4
  const UNAVAILABLE: nat := 6
  const DEAD: nat := 7
  const BAD_ARGUMENT: nat := 10

  /** A handle can still be made: one of 65536 slots is free and one of 2^32 - 1 generations is left. */
  predicate Room(t: Table)
    requires |t.buffers| == 65536
  {
    t.generation != 4294967295 && exists i :: 0 <= i < 65536 && !t.buffers[i].live
  }

  /** Nothing but the error has changed, and no handle is given. */
  predicate Failed(t: Table, a: Added, code: nat) {
    a == Added(t.(error := code), 0)
  }

  /** A new handle: the next generation above its slot's number, in a slot that was free. */
  predicate Made(t: Table, a: Added)
    requires |t.buffers| == 65536
  {
    && a.handle / 4294967296 == t.generation + 1 == a.table.generation
    && 1 <= a.handle % 4294967296 <= 65536
    && !t.buffers[a.handle % 4294967296 - 1].live
    && Resolves(a.table, a.handle) && a.table.error == t.error
  }

  lemma AddMade(t: Table, b: Buffer)
    requires Invariant(t) && t.error == 0
    ensures var a := Add(t, b); if Room(t) then Made(t, a) && a.table.used == t.used else Failed(t, a, 6)
  {
    AddFailsExactly(t, b);
    FreeIsFree(t.buffers, t.cursor, BUFFER_MAX);
    if Room(t) {
      NewHandle(t, b);
      HandleParts(FreeSlot(t), t.generation + 1);
    }
  }

  lemma BorrowOutcome(t: Table, p: nat, n: nat, writable: bool)
    requires Invariant(t) && t.error == 0
    ensures var a := Borrow(t, p, n, writable);
            if p == 0 && n > 0 then Failed(t, a, BAD_ARGUMENT)
            else if n > 67108864 then Failed(t, a, OUT_OF_BOUNDS)
            else if !Room(t) then Failed(t, a, UNAVAILABLE)
            else Made(t, a) && a.table.used == t.used
  {
    AddMade(t, Buffer(p, n, 0, 0, 0, false, false, writable));
  }

  /** At most 64 MiB at once and 256 MiB altogether. */
  lemma AllocateOutcome(t: Table, n: nat, p: nat)
    requires Invariant(t) && t.error == 0
    ensures var a := Allocate(t, n, p);
            if n > 67108864 || t.used + n > 268435456 then Failed(t, a, OUT_OF_BOUNDS)
            else if p == 0 || !Room(t) then Failed(t, a, UNAVAILABLE)
            else Made(t, a) && a.table.used == t.used + n
  {
    AddMade(t, Buffer(p, n, 0, 0, 0, false, true, true));
  }

  lemma LiteralOutcome(t: Table, source: nat, n: nat, writable: bool, p: nat)
    requires Invariant(t) && t.error == 0
    ensures var a := Literal(t, source, n, writable, p);
            if source == 0 && n > 0 then Failed(t, a, BAD_ARGUMENT)
            else if n > 67108864 || t.used + n > 268435456 then Failed(t, a, OUT_OF_BOUNDS)
            else if p == 0 || !Room(t) then Failed(t, a, UNAVAILABLE)
            else Made(t, a) && a.table.used == t.used + n
  {
    AllocateOutcome(t, n, p);
    if Literal(t, source, n, writable, p).handle != 0 {
      LiteralStands(t, source, n, writable, p, []);
    }
  }

  /** A slice of what a handle stands for is given exactly when it lies inside. */
  lemma SliceOutcome(t: Table, h: nat, at: nat, n: nat, area: Area)
    requires Invariant(t) && t.error == 0 && StandsFor(t, h, area)
    ensures var a := Slice(t, h, at, n);
            if at + n > area.bytes then Failed(t, a, OUT_OF_BOUNDS)
            else if !Room(t) then Failed(t, a, UNAVAILABLE)
            else Made(t, a) && a.table.used == t.used
  {
    assert Resolve(t, h, at, n, false) == RangeOf(area, at, n, false);
    if Resolves(t, h) {
      AddMade(t, Buffer(0, n, at, 0, h, false, false, Find(t, h).value.writable));
    }
  }

  /** A dead handle is refused everywhere, with the same error. */
  lemma DeadOutcome(t: Table, h: nat, at: nat, n: nat, write: bool)
    requires Invariant(t) && t.error == 0 && !Resolves(t, h)
    ensures Failed(t, Slice(t, h, at, n), DEAD) && Release(t, h, n) == Length(t, h).0 == t.(error := DEAD)
    ensures Look(t, h, at, n, write) == (t.(error := DEAD), Fault(DEAD)) && Length(t, h).1 == 0
  {
  }

  /** Only the very length of a handle releases it, and gives back what was allocated with it. */
  lemma ReleaseOutcome(t: Table, h: nat, n: nat)
    requires Invariant(t) && t.error == 0 && Resolves(t, h)
    ensures var t' := Release(t, h, n);
            var b := Find(t, h).value;
            if n != b.length then t' == t.(error := OUT_OF_BOUNDS)
            else !Resolves(t', h) && t'.error == 0 && t.used == t'.used + if b.owned then n else 0
  {
    ReleaseInvariant(t, h, n);
  }

  /** The runtime starts without handles, bytes or error. */
  lemma StartsEmpty(h: nat)
    ensures Invariant(Initial()) && !Resolves(Initial(), h) && Room(Initial())
    ensures Initial().generation == Initial().used == Initial().error == 0
  {
    InitialInvariant();
    assert !Initial().buffers[0].live;
  }

  lemma {:induction false} RootIsAncestor(t: Table, h: nat) returns (root: nat)
    requires ChainLive(t, h)
    ensures IsAncestor(t, root, h) && Find(t, root) == Some(RootOf(t, h))
    decreases GenerationOf(h)
  {
    root := h;
    if Find(t, h).value.parent != 0 {
      root := RootIsAncestor(t, Find(t, h).value.parent);
    }
  }

  /** Once the root that a chain of slices leads to is released, no access through the chain succeeds again. */
  lemma SliceDiesWithRoot(t: Table, h: nat, ops: seq<Op>) returns (root: nat)
    requires Invariant(t) && t.error == 0 && ChainLive(t, h)
    ensures Find(t, root) == Some(RootOf(t, h))
    ensures var t' := Release(t, root, RootOf(t, h).length);
            Invariant(t') && forall at, n, write :: Resolve(Run(t', ops), h, at, n, write).Fault?
  {
    root := RootIsAncestor(t, h);
    SliceDiesWithAncestor(t, h, root, ops);
  }
}
