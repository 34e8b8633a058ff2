/** What a handle stands for does not change while it and its ancestors live: the length and the place
    it was made with. */
module HandleContents {
  import opened Handles

  /** A handle that still resolves has the very same slot. */
  predicate SameSlot(t: Table, t': Table, h: nat) {
    Resolves(t', h) ==> Resolves(t, h) && Find(t', h) == Find(t, h)
  }

  lemma AddKeepsSlot(t: Table, b: Buffer, h: nat)
    requires Invariant(t) && GenerationOf(h) <= t.generation
    ensures SameSlot(t, Add(t, b).table, h) && t.generation <= Add(t, b).table.generation
  {
    AddKeepsLink(t, b, h);
  }

  lemma LiteralKeepsSlot(t: Table, source: nat, n: nat, w: bool, p: nat, h: nat)
    requires Invariant(t) && GenerationOf(h) <= t.generation
    ensures SameSlot(t, Literal(t, source, n, w, p).table, h)
  {
    AddKeepsLink(t, Buffer(p, n, 0, 0, 0, false, true, true), h);
    var a := Allocate(t, n, p);
    if a.handle != 0 && Resolves(a.table, a.handle) {
      NewHandle(t, Buffer(p, n, 0, 0, 0, false, true, true));
      ChangeFinds(a.table, SetWritable(a.table, a.handle, w), a.handle, Find(a.table, a.handle).value.(writable := w), h);
    }
  }

  /** A new handle is of a new generation, and resolves to what was added. */
  lemma NewHandle(t: Table, b: Buffer)
    requires Invariant(t) && Add(t, b).handle != 0
    ensures var a := Add(t, b);
            && GenerationOf(a.handle) == t.generation + 1 == a.table.generation
            && Find(a.table, a.handle) == Some(b.(live := true, generation := t.generation + 1))
  {
    FreeIsFree(t.buffers, t.cursor, BUFFER_MAX);
    HandleParts(FreeSlot(t), t.generation + 1);
  }

  lemma SliceKeepsSlot(t: Table, k: nat, at: nat, n: nat, h: nat)
    requires Invariant(t) && GenerationOf(h) <= t.generation
    ensures SameSlot(t, Slice(t, k, at, n).table, h)
  {
    if Resolves(t, k) {
      var a := Resolve(t, k, at, n, false);
      NotedInvariant(t, a);
      AddKeepsLink(Noted(t, a), Buffer(0, n, at, 0, k, false, false, Find(t, k).value.writable), h);
    }
  }

  lemma ReleaseKeepsSlot(t: Table, k: nat, n: nat, h: nat)
    requires Invariant(t)
    ensures SameSlot(t, Release(t, k, n), h)
  {
    if t.error == 0 && Resolves(t, k) && n == Find(t, k).value.length {
      ChangeFinds(t, Release(t, k, n), k, Find(t, k).value.(live := false, base := 0), h);
    }
  }

  lemma ApplyKeepsSlot(t: Table, op: Op, h: nat)
    requires Invariant(t) && GenerationOf(h) <= t.generation
    ensures SameSlot(t, Apply(t, op), h) && t.generation <= Apply(t, op).generation
  {
    ApplyKeepsLink(t, op, h);
    match op
    case DoBorrow(p, n, w) => AddKeepsSlot(t, Buffer(p, n, 0, 0, 0, false, false, w), h);
    case DoAllocate(n, p) => AddKeepsSlot(t, Buffer(p, n, 0, 0, 0, false, true, true), h);
    case DoLiteral(s, n, w, p) => LiteralKeepsSlot(t, s, n, w, p, h);
    case DoRelease(k, n) => ReleaseKeepsSlot(t, k, n, h);
    case DoSlice(k, at, n) => SliceKeepsSlot(t, k, at, n, h);
    case DoLength(k) => assert Apply(t, op).buffers == t.buffers;
    case DoLook(k, at, n, w) => assert Apply(t, op).buffers == t.buffers;
  }

  lemma {:induction false} RunKeepsSlot(t: Table, ops: seq<Op>, h: nat)
    requires Invariant(t) && GenerationOf(h) <= t.generation
    ensures SameSlot(t, Run(t, ops), h)
    decreases |ops|
  {
    if ops != [] {
      ApplyInvariant(t, ops[0]);
      ApplyKeepsSlot(t, ops[0], h);
      RunKeepsSlot(Apply(t, ops[0]), ops[1..], h);
    }
  }

  /** A part of memory: so many bytes from an address on, written to or not. */
  datatype Area = Area(address: nat, bytes: nat, writable: bool)

  /** The handle stands for the area: its length is that of the area, and a range of it is a range of
      the area. */
  ghost predicate StandsFor(t: Table, h: nat, a: Area) {
    && Length(t, h) == (t, a.bytes)
    && forall at: nat, n: nat, write :: Resolve(t, h, at, n, write) == RangeOf(a, at, n, write)
  }

  /** The bounds error, the error of a write to what is only read, or the address. */
  function RangeOf(a: Area, at: nat, n: nat, write: bool): Address {
    if at + n > a.bytes then Fault(4)
    else if write && !a.writable then Fault(9)
    else At(a.address + at)
  }

  lemma RootStands(t: Table, h: nat, a: Area)
    requires Invariant(t) && t.error == 0 && a.address > 0 && Resolves(t, h)
    requires var b := Find(t, h).value; b.base == a.address && b.length == a.bytes && b.writable == a.writable && b.parent == 0
    ensures StandsFor(t, h, a)
  {
    hide Resolve, Invariant;
    forall at: nat, n: nat, write
      ensures Resolve(t, h, at, n, write) == RangeOf(a, at, n, write)
    {
      ResolveExact(t, h, at, n, write);
    }
  }

  lemma RootKept(t: Table, ops: seq<Op>, h: nat, a: Area)
    requires Invariant(t) && GenerationOf(h) <= t.generation && a.address > 0 && Resolves(t, h)
    requires var b := Find(t, h).value; b.base == a.address && b.length == a.bytes && b.writable == a.writable && b.parent == 0
    ensures var t' := Run(t, ops); t'.error == 0 && Resolves(t', h) ==> StandsFor(t', h, a)
  {
    RunKeepsSlot(t, ops, h);
    RunInvariant(t, ops);
    if Run(t, ops).error == 0 && Resolves(Run(t, ops), h) {
      RootStands(Run(t, ops), h, a);
    }
  }

  /** An allocation stands for what the allocator gave, whatever happens, until it is released. */
  lemma AllocationStands(t: Table, n: nat, p: nat, ops: seq<Op>)
    requires Invariant(t) && Allocate(t, n, p).handle != 0
    ensures var a := Allocate(t, n, p);
            && Invariant(a.table) && Resolves(a.table, a.handle)
            && var t' := Run(a.table, ops);
               t'.error == 0 && Resolves(t', a.handle) ==> StandsFor(t', a.handle, Area(p, n, true))
  {
    AllocateInvariant(t, n, p);
    NewHandle(t, Buffer(p, n, 0, 0, 0, false, true, true));
    RootKept(Allocate(t, n, p).table, ops, Allocate(t, n, p).handle, Area(p, n, true));
  }

  /** So does borrowed memory. */
  lemma BorrowStands(t: Table, p: nat, n: nat, writable: bool, ops: seq<Op>)
    requires Invariant(t) && p > 0 && Borrow(t, p, n, writable).handle != 0
    ensures var a := Borrow(t, p, n, writable);
            && Invariant(a.table) && Resolves(a.table, a.handle)
            && var t' := Run(a.table, ops);
               t'.error == 0 && Resolves(t', a.handle) ==> StandsFor(t', a.handle, Area(p, n, writable))
  {
    BorrowInvariant(t, p, n, writable);
    NewHandle(t, Buffer(p, n, 0, 0, 0, false, false, writable));
    RootKept(Borrow(t, p, n, writable).table, ops, Borrow(t, p, n, writable).handle, Area(p, n, writable));
  }

  /** And a literal, with the permission it was given. */
  lemma LiteralStands(t: Table, source: nat, n: nat, writable: bool, p: nat, ops: seq<Op>)
    requires Invariant(t) && Literal(t, source, n, writable, p).handle != 0
    ensures var a := Literal(t, source, n, writable, p);
            && Invariant(a.table) && Resolves(a.table, a.handle)
            && var t' := Run(a.table, ops);
               t'.error == 0 && Resolves(t', a.handle) ==> StandsFor(t', a.handle, Area(p, n, writable))
  {
    LiteralInvariant(t, source, n, writable, p);
    NewHandle(t, Buffer(p, n, 0, 0, 0, false, true, true));
    var a, l := Allocate(t, n, p), Literal(t, source, n, writable, p);
    ChangeFinds(a.table, l.table, a.handle, Find(a.table, a.handle).value.(writable := writable), a.handle);
    RootKept(l.table, ops, l.handle, Area(p, n, writable));
  }

  /** A slice stands for its part of what its parent stands for, while both are live. */
  lemma SliceStands(t: Table, h: nat, at: nat, n: nat, ops: seq<Op>, a: Area)
    requires Invariant(t) && t.error == 0 && Slice(t, h, at, n).handle != 0 && StandsFor(t, h, a) && ChainLive(t, h)
    ensures at + n <= a.bytes
    ensures var s := Slice(t, h, at, n);
            && Invariant(s.table) && Resolves(s.table, s.handle)
            && var t' := Run(s.table, ops);
               t'.error == 0 && ChainLive(t', s.handle) && StandsFor(t', h, a) ==>
                 StandsFor(t', s.handle, Area(a.address + at, n, a.writable))
  {
    hide StandsFor;
    SliceInvariant(t, h, at, n);
    SliceMade(t, h, at, n, a);
    var s := Slice(t, h, at, n);
    var t' := Run(s.table, ops);
    RunInvariant(s.table, ops);
    RunKeepsSlot(s.table, ops, s.handle);
    if t'.error == 0 && ChainLive(t', s.handle) && StandsFor(t', h, a) {
      PartStands(t', s.handle, h, at, n, a);
    }
  }

  lemma SliceMade(t: Table, h: nat, at: nat, n: nat, a: Area)
    requires Invariant(t) && t.error == 0 && Slice(t, h, at, n).handle != 0 && StandsFor(t, h, a) && ChainLive(t, h)
    ensures var s := Slice(t, h, at, n);
            && at + n <= a.bytes && GenerationOf(s.handle) <= s.table.generation && Resolves(s.table, s.handle)
            && var b := Find(s.table, s.handle).value;
               b.parent == h && b.offset == at && b.length == n && b.writable == a.writable
  {
    var r := Resolve(t, h, at, n, false);
    ResolveExact(t, h, 0, 0, true);
    ResolveExact(t, h, at, n, false);
    assert Resolve(t, h, 0, 0, true) == RangeOf(a, 0, 0, true);
    NewHandle(Noted(t, r), Buffer(0, n, at, 0, h, false, false, Find(t, h).value.writable));
  }

  lemma PartStands(t: Table, s: nat, h: nat, at: nat, n: nat, a: Area)
    requires Invariant(t) && t.error == 0 && ChainLive(t, s) && StandsFor(t, h, a) && at + n <= a.bytes
    requires var b := Find(t, s).value; b.parent == h && b.offset == at && b.length == n && b.writable == a.writable
    requires h != 0
    ensures StandsFor(t, s, Area(a.address + at, n, a.writable))
  {
    hide Resolve, Invariant;
    forall i: nat, m: nat, write
      ensures Resolve(t, s, i, m, write) == RangeOf(Area(a.address + at, n, a.writable), i, m, write)
    {
      PartRange(t, s, h, at, n, a, i, m, write);
    }
  }

  lemma PartRange(t: Table, s: nat, h: nat, at: nat, n: nat, a: Area, i: nat, m: nat, write: bool)
    requires Invariant(t) && t.error == 0 && ChainLive(t, s) && StandsFor(t, h, a) && at + n <= a.bytes && h != 0
    requires var b := Find(t, s).value; b.parent == h && b.offset == at && b.length == n && b.writable == a.writable
    ensures Resolve(t, s, i, m, write) == RangeOf(Area(a.address + at, n, a.writable), i, m, write)
  {
    hide Resolve, Invariant, SlotOf, GenerationOf;
    ResolveExact(t, s, i, m, write);
    ResolveExact(t, h, 0, 0, false);
    assert Resolve(t, h, 0, 0, false) == RangeOf(a, 0, 0, false);
  }
}
