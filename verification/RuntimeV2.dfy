/** The runtime as it works: a table of slots and a memory, both changed in place. */
module RuntimeV2 {
  import opened Handles

  /** A live area that is not a slice has its bytes in memory; a null one has none. */
  predicate RootPlaced(b: Buffer, size: nat) {
    b.live && b.parent == 0 ==> (b.base == 0 ==> b.length == 0) && b.base + b.length <= size
  }

  predicate Placed(bs: seq<Buffer>, size: nat) {
    forall i :: 0 <= i < |bs| ==> RootPlaced(bs[i], size)
  }

  lemma PlacedUpdate(bs: seq<Buffer>, i: nat, b: Buffer, size: nat)
    requires Placed(bs, size) && i < |bs| && RootPlaced(b, size)
    ensures Placed(bs[i := b], size)
  {
  }

  lemma {:induction false} RootIsPlaced(t: Table, h: nat, size: nat)
    requires Invariant(t) && ChainLive(t, h) && Placed(t.buffers, size)
    ensures RootOf(t, h).live && RootPlaced(RootOf(t, h), size)
    decreases GenerationOf(h)
  {
    SlotFound(t, h);
    if Find(t, h).value.parent != 0 {
      RootIsPlaced(t, Find(t, h).value.parent, size);
    }
  }

  /** What a resolved range is: inside memory, or empty. */
  lemma RangePlaced(t: Table, h: nat, at: nat, n: nat, write: bool, size: nat)
    requires Invariant(t) && Placed(t.buffers, size)
    ensures match Resolve(t, h, at, n, write)
            case Fault(_) => true
            case Null => n == 0
            case At(a) => 0 < a && a + n <= size
  {
    ResolveExact(t, h, at, n, write);
    if ChainLive(t, h) {
      RootIsPlaced(t, h, size);
    }
  }

  /** The memory m with the n bytes from s on, as they are in m, placed at d. */
  function Moved(m: seq<nat>, d: nat, s: nat, n: nat): seq<nat>
    requires d + n <= |m| && s + n <= |m|
  {
    m[..d] + m[s..s + n] + m[d + n..]
  }

  lemma MovedNothing(m: seq<nat>, d: nat, s: nat)
    requires d <= |m| && s <= |m|
    ensures Moved(m, d, s, 0) == m
  {
  }

  /** Going down over a destination that begins inside the source, the byte to move is still the old one. */
  lemma BackwardStep(m: seq<nat>, d: nat, s: nat, n: nat, i: nat)
    requires d + n <= |m| && s + n <= |m| && 0 < i <= n && s < d
    ensures var now := Moved(m, d + i, s + i, n - i);
            now[d + i - 1 := now[s + i - 1]] == Moved(m, d + i - 1, s + i - 1, n - i + 1)
  {
    var now := Moved(m, d + i, s + i, n - i);
    assert now[s + i - 1] == m[s + i - 1];
  }

  /** Going up over one that begins before the source or behind its end, likewise. */
  lemma ForwardStep(m: seq<nat>, d: nat, s: nat, n: nat, i: nat)
    requires d + n <= |m| && s + n <= |m| && i < n && (d <= s || s + n <= d)
    ensures var now := Moved(m, d, s, i);
            now[d + i := now[s + i]] == Moved(m, d, s, i + 1)
  {
    var now := Moved(m, d, s, i);
    assert now[s + i] == m[s + i];
  }

  function CopyError(t: Table, destination: nat, source: nat, n: nat): nat {
    if t.error != 0 then t.error
    else if Resolve(t, destination, 0, n, true).Fault? then Resolve(t, destination, 0, n, true).code
    else if Resolve(t, source, 0, n, false).Fault? then Resolve(t, source, 0, n, false).code
    else 0
  }

  /** The memory after a copy: on an error, and for no bytes, the one before. */
  ghost function Copied(t: Table, m: seq<nat>, destination: nat, source: nat, n: nat): seq<nat>
    requires Invariant(t) && Placed(t.buffers, |m|)
  {
    if CopyError(t, destination, source, n) != 0 || n == 0 then m
    else
      FaultsHaveCodes(t, destination, 0, n, true, BUFFER_MAX);
      FaultsHaveCodes(t, source, 0, n, false, BUFFER_MAX);
      RangePlaced(t, destination, 0, n, true, |m|);
      RangePlaced(t, source, 0, n, false, |m|);
      Moved(m, Resolve(t, destination, 0, n, true).address, Resolve(t, source, 0, n, false).address, n)
  }

  class Runtime {
    const buffers: array<Buffer>
    const memory: array<nat>
    var generation: nat
    var used: nat
    var cursor: nat
    var error: nat

    ghost function State(): Table
      reads this, buffers
    {
      Table(buffers[..], generation, used, cursor, error)
    }

    ghost predicate Valid()
      reads this, buffers
    {
      buffers.Length == BUFFER_MAX && Invariant(State()) && Placed(buffers[..], memory.Length)
    }

    constructor (size: nat)
      ensures Valid() && State() == Initial() && memory.Length == size && fresh(buffers) && fresh(memory)
    {
      buffers := new Buffer[BUFFER_MAX](i => EMPTY);
      memory := new nat[size];
      generation, used, cursor, error := 0, 0, 0, 0;
      new;
      assert buffers[..] == seq(BUFFER_MAX, i => EMPTY);
      InitialInvariant();
    }

    method Report(code: nat)
      modifies this`error
      ensures State() == Fail(old(State()), code)
    {
      if error == 0 {
        error := code;
      }
    }

    method Lookup(h: nat) returns (b: Option<Buffer>)
      requires buffers.Length == BUFFER_MAX
      modifies this`error
      ensures b == Find(old(State()), h)
      ensures State() == if b.None? then Fail(old(State()), LIFETIME) else old(State())
    {
      var slot := h % TAG;
      if slot == 0 || slot > BUFFER_MAX || !buffers[slot - 1].live || buffers[slot - 1].generation != h / TAG {
        Report(LIFETIME);
        return None;
      }
      b := Some(buffers[slot - 1]);
    }

    /** Follows a slice to its root; the loop's bound is never reached. */
    method ResolveHandle(h: nat, at: nat, n: nat, write: bool) returns (a: Address)
      requires buffers.Length == BUFFER_MAX
      modifies this`error
      ensures a == Resolve(old(State()), h, at, n, write) && State() == Noted(old(State()), a)
    {
      var id: nat, position: nat, depth: nat := h, at, 0;
      while depth < BUFFER_MAX
        invariant 0 <= depth <= BUFFER_MAX && State() == old(State())
        invariant Walk(old(State()), id, position, n, write, BUFFER_MAX - depth) == Resolve(old(State()), h, at, n, write)
      {
        var b := Lookup(id);
        if b.None? {
          return Fault(LIFETIME);
        }
        if position > b.value.length || n > b.value.length - position {
          Report(BOUNDS);
          return Fault(BOUNDS);
        }
        if write && !b.value.writable {
          Report(READONLY);
          return Fault(READONLY);
        }
        if b.value.parent == 0 {
          return if b.value.base == 0 then Null else At(b.value.base + position);
        }
        if position > UINT64_MAX - b.value.offset {
          Report(BOUNDS);
          return Fault(BOUNDS);
        }
        position := position + b.value.offset;
        id := b.value.parent;
        depth := depth + 1;
      }
      Report(LIFETIME);
      a := Fault(LIFETIME);
    }

    /** The first free slot from the cursor, going round once. */
    method FindFree() returns (slot: nat)
      requires buffers.Length == BUFFER_MAX && cursor < BUFFER_MAX
      ensures slot == FreeSlot(State())
    {
      var n: nat := 0;
      slot := cursor;
      while n < BUFFER_MAX
        invariant n <= BUFFER_MAX && slot < BUFFER_MAX
        invariant FreeFrom(buffers[..], slot, BUFFER_MAX - n) == FreeSlot(State())
      {
        if !buffers[slot].live {
          return slot;
        }
        slot := (slot + 1) % BUFFER_MAX;
        n := n + 1;
      }
      slot := BUFFER_MAX;
    }

    method AddBuffer(b: Buffer) returns (h: nat)
      requires buffers.Length == BUFFER_MAX && cursor < BUFFER_MAX
      modifies this`generation, this`cursor, this`error, buffers
      ensures Added(State(), h) == Add(old(State()), b)
    {
      if generation == UINT32_MAX {
        Report(NO_RUNTIME);
        return 0;
      }
      var i := FindFree();
      if i >= BUFFER_MAX {
        Report(NO_RUNTIME);
        return 0;
      }
      generation := generation + 1;
      buffers[i] := b.(live := true, generation := generation);
      cursor := (i + 1) % BUFFER_MAX;
      h := Handle(i, generation);
      assert buffers[..] == old(buffers[..])[i := b.(live := true, generation := generation)];
    }

    method BorrowBytes(p: nat, n: nat, writable: bool) returns (h: nat)
      requires Valid() && p + n <= memory.Length
      modifies this, buffers
      ensures Valid() && Added(State(), h) == Borrow(old(State()), p, n, writable)
    {
      BorrowInvariant(State(), p, n, writable);
      if error != 0 {
        return 0;
      }
      if p == 0 && n > 0 {
        Report(ARGUMENT);
        return 0;
      }
      if n > BYTES_MAX {
        Report(BOUNDS);
        return 0;
      }
      h := AddBuffer(Buffer(p, n, 0, 0, 0, false, false, writable));
      AddPlaced(old(State()), Buffer(p, n, 0, 0, 0, false, false, writable), memory.Length);
    }

    /** p is where the allocator found n cleared bytes, 0 when it did not. */
    method AllocateBytes(n: nat, p: nat) returns (h: nat)
      requires Valid() && p + n <= memory.Length
      modifies this, buffers, memory
      ensures Valid() && Added(State(), h) == Allocate(old(State()), n, p)
      ensures h != 0 ==> forall k :: p <= k < p + n ==> memory[k] == 0
      ensures forall k :: 0 <= k < memory.Length && !(p <= k < p + n) ==> memory[k] == old(memory[k])
    {
      hide Add;
      AllocateInvariant(State(), n, p);
      if error != 0 {
        return 0;
      }
      if n > BYTES_MAX || used > 4 * BYTES_MAX - n {
        Report(BOUNDS);
        return 0;
      }
      if p == 0 {
        Report(NO_RUNTIME);
        return 0;
      }
      var k := p;
      while k < p + n
        invariant p <= k <= p + n && State() == old(State())
        invariant forall j :: p <= j < k ==> memory[j] == 0
        invariant forall j :: 0 <= j < memory.Length && !(p <= j < p + n) ==> memory[j] == old(memory[j])
      {
        memory[k] := 0;
        k := k + 1;
      }
      h := AddBuffer(Buffer(p, n, 0, 0, 0, false, true, true));
      AddPlaced(old(State()), Buffer(p, n, 0, 0, 0, false, true, true), memory.Length);
      if h != 0 {
        used := used + n;
      }
    }

    /** An allocation filled from the program's constants. */
    method LiteralBytes(source: seq<nat>, address: nat, writable: bool, p: nat) returns (h: nat)
      requires Valid() && p + |source| <= memory.Length
      modifies this, buffers, memory
      ensures Valid() && Added(State(), h) == Literal(old(State()), address, |source|, writable, p)
      ensures h != 0 ==> memory[p..p + |source|] == source
    {
      hide Allocate, GenerationOf, Find, Resolve;
      LiteralInvariant(State(), address, |source|, writable, p);
      if error != 0 {
        return 0;
      }
      if address == 0 && |source| > 0 {
        Report(ARGUMENT);
        return 0;
      }
      h := AllocateBytes(|source|, p);
      if h != 0 {
        AllocateFinds(old(State()), |source|, p);
        SlotFound(State(), h);
        var i := 0;
        ghost var allocated_ := State();
        while i < |source|
          invariant 0 <= i <= |source| && State() == allocated_
          invariant memory[p..p + i] == source[..i]
        {
          memory[p + i] := source[i];
          i := i + 1;
        }
        var slot := h % TAG - 1;
        buffers[slot] := buffers[slot].(writable := writable);
        assert buffers[..] == allocated_.buffers[slot := allocated_.buffers[slot].(writable := writable)];
        PlacedUpdate(allocated_.buffers, slot, buffers[slot], memory.Length);
      }
    }

    method ReleaseHandle(h: nat, n: nat)
      requires Valid()
      modifies this, buffers
      ensures Valid() && State() == Release(old(State()), h, n)
    {
      ReleaseInvariant(State(), h, n);
      if error != 0 {
        return;
      }
      var b := Lookup(h);
      if b.None? {
        return;
      }
      if n != b.value.length {
        Report(BOUNDS);
        return;
      }
      var slot := h % TAG - 1;
      OwnedAtLeast(buffers[..], slot);
      if b.value.owned {
        used := used - b.value.length;
      }
      buffers[slot] := b.value.(live := false, base := 0);
      assert buffers[..] == old(buffers[..])[slot := b.value.(live := false, base := 0)];
      PlacedUpdate(old(buffers[..]), slot, buffers[slot], memory.Length);
    }

    method SliceHandle(h: nat, at: nat, n: nat) returns (part: nat)
      requires Valid()
      modifies this, buffers
      ensures Valid() && Added(State(), part) == Slice(old(State()), h, at, n)
    {
      SliceInvariant(State(), h, at, n);
      if error != 0 {
        return 0;
      }
      var b := Lookup(h);
      if b.None? {
        return 0;
      }
      if at > b.value.length || n > b.value.length - at {
        Report(BOUNDS);
        return 0;
      }
      var a := ResolveHandle(h, at, n, false);
      if !a.At? && n > 0 {
        return 0;
      }
      ghost var before := State();
      part := AddBuffer(Buffer(0, n, at, 0, h, false, false, b.value.writable));
      AddPlaced(before, Buffer(0, n, at, 0, h, false, false, b.value.writable), memory.Length);
    }

    method LengthOf(h: nat) returns (n: nat)
      requires Valid()
      modifies this`error
      ensures Valid() && (State(), n) == Length(old(State()), h)
    {
      ApplyInvariant(State(), DoLength(h));
      if error != 0 {
        return 0;
      }
      var b := Lookup(h);
      if b.None? {
        return 0;
      }
      var a := ResolveHandle(h, 0, 0, false);
      n := if !a.At? && b.value.length > 0 then 0 else b.value.length;
    }

    /** Copies n bytes between two handles, which may be overlapping parts of one area: the
        destination gets what the source held before, nothing else changes, and on an error
        nothing changes at all. */
    method CopyBytes(destination: nat, source: nat, n: nat) returns (copied: nat)
      requires Valid()
      modifies this`error, memory
      ensures Valid()
      ensures error == CopyError(old(State()), destination, source, n)
      ensures copied == if error == 0 then n else 0
      ensures memory[..] == Copied(old(State()), old(memory[..]), destination, source, n)
    {
      if error != 0 {
        return 0;
      }
      RangePlaced(State(), destination, 0, n, true, memory.Length);
      RangePlaced(State(), source, 0, n, false, memory.Length);
      NotedInvariant(State(), Resolve(State(), destination, 0, n, true));
      NotedInvariant(State(), Resolve(State(), source, 0, n, false));
      var d := ResolveHandle(destination, 0, n, true);
      FaultsHaveCodes(old(State()), destination, 0, n, true, BUFFER_MAX);
      if error != 0 {
        return 0;
      }
      var s := ResolveHandle(source, 0, n, false);
      FaultsHaveCodes(old(State()), source, 0, n, false, BUFFER_MAX);
      if error != 0 {
        return 0;
      }
      copied := n;
      if n > 0 {
        MoveBytes(d.address, s.address, n);
      }
    }

    method MoveByte(d: nat, s: nat)
      requires d < memory.Length && s < memory.Length
      modifies memory
      ensures memory[..] == old(memory[..])[d := old(memory[s])]
    {
      memory[d] := memory[s];
    }

    method MoveDown(d: nat, s: nat, n: nat)
      requires d + n <= memory.Length && s + n <= memory.Length && s < d
      modifies memory
      ensures memory[..] == Moved(old(memory[..]), d, s, n)
    {
      hide Moved;
      ghost var was := memory[..];
      var i := n;
      MovedNothing(was, d + n, s + n);
      while i > 0
        invariant 0 <= i <= n
        invariant memory[..] == Moved(was, d + i, s + i, n - i)
      {
        BackwardStep(was, d, s, n, i);
        MoveByte(d + i - 1, s + i - 1);
        i := i - 1;
      }
    }

    method MoveUp(d: nat, s: nat, n: nat)
      requires d + n <= memory.Length && s + n <= memory.Length && (d <= s || s + n <= d)
      modifies memory
      ensures memory[..] == Moved(old(memory[..]), d, s, n)
    {
      ghost var was := memory[..];
      var i := 0;
      MovedNothing(was, d, s);
      while i < n
        invariant 0 <= i <= n
        invariant memory[..] == Moved(was, d, s, i)
      {
        ForwardStep(was, d, s, n, i);
        MoveByte(d + i, s + i);
        i := i + 1;
      }
    }

    /** Backwards when the destination begins inside the source, forwards otherwise. */
    method MoveBytes(d: nat, s: nat, n: nat)
      requires d + n <= memory.Length && s + n <= memory.Length
      modifies memory
      ensures memory[..] == Moved(old(memory[..]), d, s, n)
    {
      if d > s && d - s < n {
        MoveDown(d, s, n);
      } else {
        MoveUp(d, s, n);
      }
    }
  }

  lemma AddPlaced(t: Table, b: Buffer, size: nat)
    requires Shaped(t) && Placed(t.buffers, size) && (b.parent == 0 ==> (b.base == 0 ==> b.length == 0) && b.base + b.length <= size)
    ensures Placed(Add(t, b).table.buffers, size)
  {
  }

  lemma {:induction false} FaultsHaveCodes(t: Table, h: nat, at: nat, n: nat, write: bool, depth: nat)
    ensures Walk(t, h, at, n, write, depth).Fault? ==> Walk(t, h, at, n, write, depth).code != 0
    decreases depth
  {
    if depth > 0 && Resolves(t, h) && Find(t, h).value.parent != 0 {
      FaultsHaveCodes(t, Find(t, h).value.parent, at + Find(t, h).value.offset, n, write, depth - 1);
    }
  }
}
