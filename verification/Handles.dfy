/** The handle table of the runtime as a value: generation-tagged slots, slices that point to their
    parents, an accounting of allocated bytes and an error that sticks. */
module Handles {
  const BUFFER_MAX: nat := 65536
  const BYTES_MAX: nat := 64 * 1024 * 1024
  const UINT32_MAX: nat := 0xffff_ffff
  const UINT64_MAX: nat := 0xffff_ffff_ffff_ffff
  const TAG: nat := 0x1_0000_0000

  const BOUNDS: nat := 4
  const NO_RUNTIME: nat := 6
  const LIFETIME: nat := 7
  const READONLY: nat := 9
  const ARGUMENT: nat := 10

  /** base is an address, 0 for null; a slice has the handle of its parent and its offset in it. */
  datatype Buffer = Buffer(base: nat, length: nat, offset: nat, generation: nat, parent: nat,
                           live: bool, owned: bool, writable: bool)

  const EMPTY := Buffer(0, 0, 0, 0, 0, false, false, false)

  datatype Table = Table(buffers: seq<Buffer>, generation: nat, used: nat, cursor: nat, error: nat)

  function SlotOf(h: nat): nat { h % TAG }
  function GenerationOf(h: nat): nat { h / TAG }

  function Handle(slot: nat, generation: nat): nat
    requires slot < BUFFER_MAX
  {
    generation * TAG + (slot + 1)
  }

  lemma HandleParts(slot: nat, generation: nat)
    requires slot < BUFFER_MAX
    ensures SlotOf(Handle(slot, generation)) == slot + 1 && GenerationOf(Handle(slot, generation)) == generation
  {
  }

  /** The first error stays. */
  function Fail(t: Table, code: nat): Table {
    if t.error == 0 then t.(error := code) else t
  }

  datatype Option<T> = None | Some(value: T)

  /** The slot a handle names now: in range, live, and of the same generation. */
  function Find(t: Table, h: nat): Option<Buffer> {
    if SlotOf(h) == 0 || SlotOf(h) > |t.buffers| then None
    else
      var b := t.buffers[SlotOf(h) - 1];
      if b.live && b.generation == GenerationOf(h) then Some(b) else None
  }

  predicate Resolves(t: Table, h: nat) {
    Find(t, h).Some?
  }

  datatype Address = Fault(code: nat) | Null | At(address: nat)

  /** Walks from a slice to its root, with the bounds and the write permission checked on the way;
      depth is what is left of the walk. */
  function Walk(t: Table, h: nat, at: nat, n: nat, write: bool, depth: nat): Address
    decreases depth
  {
    if depth == 0 then Fault(LIFETIME)
    else match Find(t, h)
      case None => Fault(LIFETIME)
      case Some(b) =>
        if at > b.length || n > b.length - at then Fault(BOUNDS)
        else if write && !b.writable then Fault(READONLY)
        else if b.parent == 0 then (if b.base == 0 then Null else At(b.base + at))
        else if at > UINT64_MAX - b.offset then Fault(BOUNDS)
        else Walk(t, b.parent, at + b.offset, n, write, depth - 1)
  }

  function Resolve(t: Table, h: nat, at: nat, n: nat, write: bool): Address {
    Walk(t, h, at, n, write, |t.buffers|)
  }

  /** The first free one of left slots from i on, going round; the table's size when there is none. */
  function FreeFrom(bs: seq<Buffer>, i: nat, left: nat): nat
    requires i < |bs|
    decreases left
  {
    if left == 0 then |bs|
    else if !bs[i].live then i
    else FreeFrom(bs, (i + 1) % |bs|, left - 1)
  }

  function FreeSlot(t: Table): nat
    requires t.cursor < |t.buffers|
  {
    FreeFrom(t.buffers, t.cursor, |t.buffers|)
  }

  datatype Added = Added(table: Table, handle: nat)

  predicate Shaped(t: Table) {
    |t.buffers| == BUFFER_MAX && t.cursor < BUFFER_MAX
  }

  /** A new live slot of the next generation, or an error and no handle. */
  function Add(t: Table, b: Buffer): (a: Added)
    requires Shaped(t)
    ensures Shaped(a.table)
  {
    if t.generation == UINT32_MAX then Added(Fail(t, NO_RUNTIME), 0)
    else if FreeSlot(t) >= BUFFER_MAX then Added(Fail(t, NO_RUNTIME), 0)
    else
      Added(t.(buffers := t.buffers[FreeSlot(t) := b.(live := true, generation := t.generation + 1)],
               generation := t.generation + 1, cursor := (FreeSlot(t) + 1) % BUFFER_MAX),
            Handle(FreeSlot(t), t.generation + 1))
  }

  lemma {:induction false} FreeIsFree(bs: seq<Buffer>, i: nat, left: nat)
    requires i < |bs|
    ensures FreeFrom(bs, i, left) <= |bs|
    ensures FreeFrom(bs, i, left) < |bs| ==> !bs[FreeFrom(bs, i, left)].live
    decreases left
  {
    if left > 0 && bs[i].live {
      FreeIsFree(bs, (i + 1) % |bs|, left - 1);
    }
  }

  /** A full round finds a free slot when there is one. */
  lemma {:induction false} FreeIsFound(bs: seq<Buffer>, i: nat, left: nat, k: nat)
    requires i < |bs| && k < left <= |bs| && !bs[Round(i, k, |bs|)].live
    ensures FreeFrom(bs, i, left) < |bs|
    decreases left
  {
    if bs[i].live {
      NextSlot(i, |bs|);
      FreeIsFound(bs, (i + 1) % |bs|, left - 1, k - 1);
    }
  }

  /** The slot k steps after slot i, going round. */
  function Round(i: nat, k: nat, n: nat): (r: nat)
    requires i < n && k < n
    ensures r < n
  {
    if i + k < n then i + k else i + k - n
  }

  lemma NextSlot(i: nat, n: nat)
    requires i < n
    ensures (i + 1) % n == if i + 1 < n then i + 1 else 0
  {
  }

  /** Every slot is some number of steps away. */
  lemma StepsTo(i: nat, j: nat, n: nat) returns (k: nat)
    requires i < n && j < n
    ensures k < n && Round(i, k, n) == j
  {
    k := if j >= i then j - i else j + n - i;
  }

  /** A slot is given out unless the generations have run out or every slot is live. */
  lemma AddFailsExactly(t: Table, b: Buffer)
    requires Shaped(t)
    ensures Add(t, b).handle == 0 <==> t.generation == UINT32_MAX || forall i :: 0 <= i < BUFFER_MAX ==> t.buffers[i].live
  {
    FreeIsFree(t.buffers, t.cursor, BUFFER_MAX);
    forall j | 0 <= j < BUFFER_MAX && !t.buffers[j].live
      ensures FreeSlot(t) < BUFFER_MAX
    {
      var k := StepsTo(t.cursor, j, BUFFER_MAX);
      FreeIsFound(t.buffers, t.cursor, BUFFER_MAX, k);
    }
  }

  // ----- Operations -----

  function Borrow(t: Table, p: nat, n: nat, writable: bool): Added
    requires Shaped(t)
  {
    if t.error != 0 then Added(t, 0)
    else if p == 0 && n > 0 then Added(Fail(t, ARGUMENT), 0)
    else if n > BYTES_MAX then Added(Fail(t, BOUNDS), 0)
    else Add(t, Buffer(p, n, 0, 0, 0, false, false, writable))
  }

  /** p is what the allocator returned, 0 for a failure. */
  function Allocate(t: Table, n: nat, p: nat): Added
    requires Shaped(t)
  {
    if t.error != 0 then Added(t, 0)
    else if n > BYTES_MAX || t.used > 4 * BYTES_MAX - n then Added(Fail(t, BOUNDS), 0)
    else if p == 0 then Added(Fail(t, NO_RUNTIME), 0)
    else
      var a := Add(t, Buffer(p, n, 0, 0, 0, false, true, true));
      if a.handle == 0 then a else a.(table := a.table.(used := t.used + n))
  }

  /** A literal is an allocation with its own write permission. */
  function Literal(t: Table, source: nat, n: nat, writable: bool, p: nat): Added
    requires Shaped(t)
  {
    if t.error != 0 then Added(t, 0)
    else if source == 0 && n > 0 then Added(Fail(t, ARGUMENT), 0)
    else
      var a := Allocate(t, n, p);
      if a.handle == 0 then a
      else Added(SetWritable(a.table, a.handle, writable), a.handle)
  }

  function SetWritable(t: Table, h: nat, writable: bool): Table {
    if Resolves(t, h) then t.(buffers := t.buffers[SlotOf(h) - 1 := t.buffers[SlotOf(h) - 1].(writable := writable)]) else t
  }

  function Release(t: Table, h: nat, n: nat): Table {
    if t.error != 0 then t
    else match Find(t, h)
      case None => Fail(t, LIFETIME)
      case Some(b) =>
        if n != b.length then Fail(t, BOUNDS)
        else
          t.(buffers := t.buffers[SlotOf(h) - 1 := b.(live := false, base := 0)],
             used := if b.owned && t.used >= b.length then t.used - b.length else t.used)
  }

  function Noted(t: Table, a: Address): Table {
    if a.Fault? then Fail(t, a.code) else t
  }

  /** An empty slice of a handle whose ancestors are gone sets the error and still takes a slot. */
  function Slice(t: Table, h: nat, at: nat, n: nat): Added
    requires Shaped(t)
  {
    if t.error != 0 then Added(t, 0)
    else match Find(t, h)
      case None => Added(Fail(t, LIFETIME), 0)
      case Some(b) =>
        if at > b.length || n > b.length - at then Added(Fail(t, BOUNDS), 0)
        else
          var a := Resolve(t, h, at, n, false);
          if !a.At? && n > 0 then Added(Noted(t, a), 0)
          else Add(Noted(t, a), Buffer(0, n, at, 0, h, false, false, b.writable))
  }

  function Length(t: Table, h: nat): (Table, nat) {
    if t.error != 0 then (t, 0)
    else match Find(t, h)
      case None => (Fail(t, LIFETIME), 0)
      case Some(b) =>
        var a := Resolve(t, h, 0, 0, false);
        (Noted(t, a), if !a.At? && b.length > 0 then 0 else b.length)
  }

  function Look(t: Table, h: nat, at: nat, n: nat, write: bool): (Table, Address) {
    if t.error != 0 then (t, Null) else (Noted(t, Resolve(t, h, at, n, write)), Resolve(t, h, at, n, write))
  }

  datatype Op =
    | DoBorrow(p: nat, n: nat, writable: bool)
    | DoAllocate(n: nat, p: nat)
    | DoLiteral(source: nat, n: nat, writable: bool, p: nat)
    | DoRelease(h: nat, n: nat)
    | DoSlice(h: nat, at: nat, n: nat)
    | DoLength(h: nat)
    | DoLook(h: nat, at: nat, n: nat, write: bool)

  function Apply(t: Table, op: Op): Table
    requires Shaped(t)
  {
    match op
    case DoBorrow(p, n, w) => Borrow(t, p, n, w).table
    case DoAllocate(n, p) => Allocate(t, n, p).table
    case DoLiteral(s, n, w, p) => Literal(t, s, n, w, p).table
    case DoRelease(h, n) => Release(t, h, n)
    case DoSlice(h, at, n) => Slice(t, h, at, n).table
    case DoLength(h) => Length(t, h).0
    case DoLook(h, at, n, w) => Look(t, h, at, n, w).0
  }

  // ----- The invariant -----

  function OwnedBytes(bs: seq<Buffer>): nat {
    if bs == [] then 0 else OwnedBytes(bs[..|bs| - 1]) + Owned(bs[|bs| - 1])
  }

  function Owned(b: Buffer): nat {
    if b.live && b.owned then b.length else 0
  }

  /** A slice is younger than its parent and, while the parent lives, lies inside it. */
  predicate SliceFits(t: Table, b: Buffer) {
    b.live && b.parent != 0 ==>
      && GenerationOf(b.parent) < b.generation && !b.owned
      && (Resolves(t, b.parent) ==>
            b.offset + b.length <= Find(t, b.parent).value.length && b.writable == Find(t, b.parent).value.writable)
  }

  predicate Fresh(t: Table, i: nat)
    requires i < |t.buffers|
  {
    && t.buffers[i].generation <= t.generation && t.buffers[i].length <= BYTES_MAX
    && (t.buffers[i].live ==> t.buffers[i].generation > 0)
    && forall j :: 0 <= j < |t.buffers| && j != i && t.buffers[i].live && t.buffers[j].live ==>
         t.buffers[i].generation != t.buffers[j].generation
  }

  ghost predicate Invariant(t: Table) {
    && |t.buffers| == BUFFER_MAX && t.generation <= UINT32_MAX && t.cursor < BUFFER_MAX
    && (forall i :: 0 <= i < BUFFER_MAX ==> Fresh(t, i) && SliceFits(t, t.buffers[i]))
    && t.used == OwnedBytes(t.buffers) && t.used <= 4 * BYTES_MAX
  }

  function Initial(): Table {
    Table(seq(BUFFER_MAX, i => EMPTY), 0, 0, 0, 0)
  }

  // ----- Preservation -----

  lemma {:induction false} OwnedUpdate(bs: seq<Buffer>, i: nat, b: Buffer)
    requires i < |bs|
    ensures OwnedBytes(bs[i := b]) == OwnedBytes(bs) - Owned(bs[i]) + Owned(b)
    decreases |bs|
  {
    var last := |bs| - 1;
    if i == last {
      assert bs[i := b][..last] == bs[..last];
    } else {
      assert bs[i := b][..last] == bs[..last][i := b];
      OwnedUpdate(bs[..last], i, b);
    }
  }

  lemma {:induction false} OwnedAtLeast(bs: seq<Buffer>, i: nat)
    requires i < |bs|
    ensures OwnedBytes(bs) >= Owned(bs[i])
    decreases |bs|
  {
    if i < |bs| - 1 {
      OwnedAtLeast(bs[..|bs| - 1], i);
    }
  }

  /** Handles that resolve after an addition resolved before it, to the same buffer, except the new one. */
  lemma AddFinds(t: Table, b: Buffer, h: nat)
    requires Invariant(t) && Add(t, b).handle != 0
    ensures GenerationOf(h) <= t.generation ==> Find(Add(t, b).table, h) == Find(t, h)
    ensures Find(Add(t, b).table, Add(t, b).handle) == Some(b.(live := true, generation := t.generation + 1))
  {
    hide SlotOf, GenerationOf, Handle, FreeFrom, Fresh, SliceFits, OwnedBytes;
    FreeIsFree(t.buffers, t.cursor, |t.buffers|);
    HandleParts(FreeSlot(t), t.generation + 1);
  }

  lemma AddFresh(t: Table, b: Buffer, i: nat)
    requires Invariant(t) && Add(t, b).handle != 0 && i < BUFFER_MAX && b.length <= BYTES_MAX
    ensures Fresh(Add(t, b).table, i)
  {
    var t' := Add(t, b).table;
    assert Fresh(t, i);
    forall j | 0 <= j < BUFFER_MAX && j != i && t'.buffers[i].live && t'.buffers[j].live
      ensures t'.buffers[i].generation != t'.buffers[j].generation
    {
      assert Fresh(t, j);
    }
  }

  lemma AddFits(t: Table, b: Buffer, i: nat)
    requires Invariant(t) && Add(t, b).handle != 0 && i < BUFFER_MAX
    requires b.parent != 0 ==> Resolves(t, b.parent) && !b.owned && b.writable == Find(t, b.parent).value.writable &&
                               b.offset + b.length <= Find(t, b.parent).value.length
    ensures SliceFits(Add(t, b).table, Add(t, b).table.buffers[i])
  {
    var c := Add(t, b).table.buffers[i];
    if i == FreeSlot(t) {
      if b.parent != 0 {
        assert Fresh(t, SlotOf(b.parent) - 1);
        AddFinds(t, b, b.parent);
      }
    } else {
      assert Fresh(t, i) && SliceFits(t, t.buffers[i]);
      AddFinds(t, b, c.parent);
    }
  }

  lemma AddInvariant(t: Table, b: Buffer)
    requires Invariant(t) && b.length <= BYTES_MAX
    requires b.parent != 0 ==> Resolves(t, b.parent) && !b.owned && b.writable == Find(t, b.parent).value.writable &&
                               b.offset + b.length <= Find(t, b.parent).value.length
    requires b.owned ==> t.used + b.length <= 4 * BYTES_MAX
    ensures var a := Add(t, b);
            if a.handle == 0 then a.table == Fail(t, NO_RUNTIME)
            else Invariant(if b.owned then a.table.(used := t.used + b.length) else a.table)
  {
    var a := Add(t, b);
    if a.handle != 0 {
      var t' := if b.owned then a.table.(used := t.used + b.length) else a.table;
      FreeIsFree(t.buffers, t.cursor, |t.buffers|);
      OwnedUpdate(t.buffers, FreeSlot(t), b.(live := true, generation := t.generation + 1));
      forall i | 0 <= i < BUFFER_MAX
        ensures Fresh(t', i) && SliceFits(t', t'.buffers[i])
      {
        AddFresh(t, b, i);
        AddFits(t, b, i);
        SameBuffers(a.table, t', t'.buffers[i]);
      }
    }
  }

  /** Finding depends on the slots only. */
  lemma SameBuffers(t: Table, t': Table, b: Buffer)
    requires t'.buffers == t.buffers
    ensures SliceFits(t, b) ==> SliceFits(t', b)
    ensures forall h :: Find(t', h) == Find(t, h)
  {
  }

  lemma ErrorInvariant(t: Table, code: nat)
    requires Invariant(t)
    ensures Invariant(Fail(t, code))
  {
    var t' := Fail(t, code);
    forall i | 0 <= i < BUFFER_MAX
      ensures Fresh(t', i) && SliceFits(t', t'.buffers[i])
    {
      assert Fresh(t, i);
      SameBuffers(t, t', t.buffers[i]);
    }
  }

  lemma SlotFound(t: Table, h: nat)
    requires Resolves(t, h)
    ensures SlotOf(h) - 1 >= 0 && SlotOf(h) - 1 < |t.buffers| && t.buffers[SlotOf(h) - 1] == Find(t, h).value
  {
  }

  /** A change to one slot that keeps its handle, its length and its place. */
  lemma ChangeInvariant(t: Table, t': Table, h: nat, c: Buffer)
    requires Invariant(t) && Resolves(t, h)
    requires var b := Find(t, h).value;
             c.generation == b.generation && c.length == b.length && c.parent == b.parent && c.offset == b.offset && c.owned == b.owned
    requires t' == t.(buffers := t.buffers[SlotOf(h) - 1 := c], used := t'.used) && t'.used == OwnedBytes(t'.buffers) <= 4 * BYTES_MAX
    requires c.live ==> forall i :: 0 <= i < BUFFER_MAX && t.buffers[i].live ==> t.buffers[i].parent != h
    requires c.live && c.parent != 0 ==> c.writable == Find(t, h).value.writable
    ensures Invariant(t')
  {
    SlotFound(t, h);
    forall i | 0 <= i < BUFFER_MAX
      ensures Fresh(t', i) && SliceFits(t', t'.buffers[i])
    {
      assert Fresh(t, i) && SliceFits(t, t.buffers[i]) && Fresh(t, SlotOf(h) - 1);
      ChangeFinds(t, t', h, c, t'.buffers[i].parent);
    }
  }

  lemma ChangeFinds(t: Table, t': Table, h: nat, c: Buffer, k: nat)
    requires Resolves(t, h) && t'.buffers == t.buffers[SlotOf(h) - 1 := c] && c.generation == Find(t, h).value.generation
    ensures Find(t', k) == if k == h then (if c.live then Some(c) else None) else Find(t, k)
  {
    SlotFound(t, h);
    if SlotOf(k) == SlotOf(h) && GenerationOf(k) == GenerationOf(h) {
      assert k == h;
    }
  }

  /** Releasing subtracts exactly the length of an owned buffer, and never more than is used. */
  lemma ReleaseInvariant(t: Table, h: nat, n: nat)
    requires Invariant(t)
    ensures Invariant(Release(t, h, n))
    ensures t.error == 0 && Resolves(t, h) && n == Find(t, h).value.length ==>
              !Resolves(Release(t, h, n), h) && Release(t, h, n).used == t.used - Owned(Find(t, h).value)
  {
    ErrorInvariant(t, LIFETIME);
    ErrorInvariant(t, BOUNDS);
    if t.error == 0 && Resolves(t, h) && n == Find(t, h).value.length {
      var b := Find(t, h).value;
      var c := b.(live := false, base := 0);
      SlotFound(t, h);
      OwnedUpdate(t.buffers, SlotOf(h) - 1, c);
      OwnedAtLeast(t.buffers, SlotOf(h) - 1);
      ChangeInvariant(t, Release(t, h, n), h, c);
      ChangeFinds(t, Release(t, h, n), h, c, h);
    }
  }

  lemma BorrowInvariant(t: Table, p: nat, n: nat, writable: bool)
    requires Invariant(t)
    ensures Invariant(Borrow(t, p, n, writable).table)
  {
    ErrorInvariant(t, ARGUMENT);
    ErrorInvariant(t, BOUNDS);
    ErrorInvariant(t, NO_RUNTIME);
    if t.error == 0 && n <= BYTES_MAX {
      AddInvariant(t, Buffer(p, n, 0, 0, 0, false, false, writable));
    }
  }

  lemma AllocateInvariant(t: Table, n: nat, p: nat)
    requires Invariant(t)
    ensures Invariant(Allocate(t, n, p).table)
  {
    ErrorInvariant(t, BOUNDS);
    ErrorInvariant(t, NO_RUNTIME);
    if t.error == 0 && n <= BYTES_MAX && t.used <= 4 * BYTES_MAX - n && p != 0 {
      AddInvariant(t, Buffer(p, n, 0, 0, 0, false, true, true));
    }
  }

  /** A handle just given out has no slices yet. */
  lemma NoSlicesYet(t: Table, h: nat)
    requires Invariant(t) && GenerationOf(h) == t.generation
    ensures forall i :: 0 <= i < BUFFER_MAX && t.buffers[i].live ==> t.buffers[i].parent != h || h == 0
  {
    forall i | 0 <= i < BUFFER_MAX && t.buffers[i].live
      ensures t.buffers[i].parent != h || h == 0
    {
      assert Fresh(t, i) && SliceFits(t, t.buffers[i]);
    }
  }

  lemma AllocateFinds(t: Table, n: nat, p: nat)
    requires Invariant(t) && Allocate(t, n, p).handle != 0
    ensures var a := Allocate(t, n, p);
            && GenerationOf(a.handle) == a.table.generation == t.generation + 1
            && Find(a.table, a.handle) == Some(Buffer(p, n, 0, t.generation + 1, 0, true, true, true))
  {
    var b := Buffer(p, n, 0, 0, 0, false, true, true);
    AddFinds(t, b, 0);
    FreeIsFree(t.buffers, t.cursor, |t.buffers|);
    HandleParts(FreeSlot(t), t.generation + 1);
  }

  lemma LiteralInvariant(t: Table, source: nat, n: nat, writable: bool, p: nat)
    requires Invariant(t)
    ensures Invariant(Literal(t, source, n, writable, p).table)
  {
    ErrorInvariant(t, ARGUMENT);
    AllocateInvariant(t, n, p);
    var a := Allocate(t, n, p);
    if a.handle != 0 {
      AllocateFinds(t, n, p);
      NoSlicesYet(a.table, a.handle);
      var b := Find(a.table, a.handle).value;
      OwnedUpdate(a.table.buffers, SlotOf(a.handle) - 1, b.(writable := writable));
      ChangeInvariant(a.table, SetWritable(a.table, a.handle, writable), a.handle, b.(writable := writable));
    }
  }

  lemma NotedInvariant(t: Table, a: Address)
    requires Invariant(t)
    ensures Invariant(Noted(t, a))
  {
    if a.Fault? {
      ErrorInvariant(t, a.code);
    }
  }

  lemma SliceInvariant(t: Table, h: nat, at: nat, n: nat)
    requires Invariant(t)
    ensures Invariant(Slice(t, h, at, n).table)
  {
    ErrorInvariant(t, LIFETIME);
    ErrorInvariant(t, BOUNDS);
    if t.error == 0 && Resolves(t, h) {
      var b := Find(t, h).value;
      var a := Resolve(t, h, at, n, false);
      var t1 := Noted(t, a);
      NotedInvariant(t, a);
      ErrorInvariant(t1, NO_RUNTIME);
      if at <= b.length && n <= b.length - at && (a.At? || n == 0) {
        SlotFound(t, h);
        assert Fresh(t, SlotOf(h) - 1);
        AddInvariant(t1, Buffer(0, n, at, 0, h, false, false, b.writable));
      }
    }
  }

  /** Every operation keeps the invariant. */
  lemma ApplyInvariant(t: Table, op: Op)
    requires Invariant(t)
    ensures Invariant(Apply(t, op))
  {
    match op
    case DoBorrow(p, n, w) => BorrowInvariant(t, p, n, w);
    case DoAllocate(n, p) => AllocateInvariant(t, n, p);
    case DoLiteral(s, n, w, p) => LiteralInvariant(t, s, n, w, p);
    case DoRelease(h, n) => ReleaseInvariant(t, h, n);
    case DoSlice(h, at, n) => SliceInvariant(t, h, at, n);
    case DoLength(h) =>
      ErrorInvariant(t, LIFETIME);
      NotedInvariant(t, Resolve(t, h, 0, 0, false));
    case DoLook(h, at, n, w) => NotedInvariant(t, Resolve(t, h, at, n, w));
  }

  lemma {:induction false} NothingOwned(n: nat)
    ensures OwnedBytes(seq(n, i => EMPTY)) == 0
    decreases n
  {
    if n > 0 {
      assert seq(n, i => EMPTY)[..n - 1] == seq(n - 1, i => EMPTY);
      NothingOwned(n - 1);
    }
  }

  lemma InitialInvariant()
    ensures Invariant(Initial())
  {
    NothingOwned(BUFFER_MAX);
  }

  // ----- Runs -----

  function Run(t: Table, ops: seq<Op>): Table
    requires Invariant(t)
    decreases |ops|
  {
    if ops == [] then t
    else
      ApplyInvariant(t, ops[0]);
      Run(Apply(t, ops[0]), ops[1..])
  }

  /** Reachable states satisfy the invariant, accounting included. */
  lemma {:induction false} RunInvariant(t: Table, ops: seq<Op>)
    requires Invariant(t)
    ensures Invariant(Run(t, ops))
    decreases |ops|
  {
    if ops != [] {
      ApplyInvariant(t, ops[0]);
      RunInvariant(Apply(t, ops[0]), ops[1..]);
    }
  }

  /** Once an error is set, nothing changes any more. */
  lemma {:induction false} ErrorSticks(t: Table, ops: seq<Op>)
    requires Invariant(t) && t.error != 0
    ensures Run(t, ops) == t
    decreases |ops|
  {
    if ops != [] {
      assert Apply(t, ops[0]) == t;
      ErrorSticks(t, ops[1..]);
    }
  }

  /** A handle that still resolves is the one it was, with the same parent. */
  predicate SameLink(t: Table, t': Table, h: nat) {
    Resolves(t', h) ==> Resolves(t, h) && Find(t', h).value.parent == Find(t, h).value.parent
  }

  lemma AddKeepsLink(t: Table, b: Buffer, h: nat)
    requires Invariant(t) && GenerationOf(h) <= t.generation
    ensures Find(Add(t, b).table, h) == Find(t, h) && t.generation <= Add(t, b).table.generation
  {
    if Add(t, b).handle != 0 {
      AddFinds(t, b, h);
    }
  }

  lemma LiteralKeepsLink(t: Table, source: nat, n: nat, w: bool, p: nat, h: nat)
    requires Invariant(t) && GenerationOf(h) <= t.generation
    ensures SameLink(t, Literal(t, source, n, w, p).table, h) && t.generation <= Literal(t, source, n, w, p).table.generation
  {
    AddKeepsLink(t, Buffer(p, n, 0, 0, 0, false, true, true), h);
    var a := Allocate(t, n, p);
    if Resolves(a.table, a.handle) {
      ChangeFinds(a.table, SetWritable(a.table, a.handle, w), a.handle, Find(a.table, a.handle).value.(writable := w), h);
    }
  }

  lemma SliceKeepsLink(t: Table, k: nat, at: nat, n: nat, h: nat)
    requires Invariant(t) && GenerationOf(h) <= t.generation
    ensures SameLink(t, Slice(t, k, at, n).table, h) && t.generation <= Slice(t, k, at, n).table.generation
  {
    if Resolves(t, k) {
      var a := Resolve(t, k, at, n, false);
      NotedInvariant(t, a);
      AddKeepsLink(Noted(t, a), Buffer(0, n, at, 0, k, false, false, Find(t, k).value.writable), h);
    }
  }

  lemma ReleaseKeepsLink(t: Table, k: nat, n: nat, h: nat)
    requires Invariant(t)
    ensures SameLink(t, Release(t, k, n), h) && t.generation == Release(t, k, n).generation
  {
    if t.error == 0 && Resolves(t, k) && n == Find(t, k).value.length {
      ChangeFinds(t, Release(t, k, n), k, Find(t, k).value.(live := false, base := 0), h);
    }
  }

  /** No operation brings an old handle back to life or gives it another parent. */
  lemma ApplyKeepsLink(t: Table, op: Op, h: nat)
    requires Invariant(t) && GenerationOf(h) <= t.generation
    ensures SameLink(t, Apply(t, op), h) && t.generation <= Apply(t, op).generation
  {
    match op
    case DoBorrow(p, n, w) => AddKeepsLink(t, Buffer(p, n, 0, 0, 0, false, false, w), h);
    case DoAllocate(n, p) => AddKeepsLink(t, Buffer(p, n, 0, 0, 0, false, true, true), h);
    case DoLiteral(s, n, w, p) => LiteralKeepsLink(t, s, n, w, p, h);
    case DoRelease(k, n) => ReleaseKeepsLink(t, k, n, h);
    case DoSlice(k, at, n) => SliceKeepsLink(t, k, at, n, h);
    case DoLength(k) => assert Apply(t, op).buffers == t.buffers;
    case DoLook(k, at, n, w) => assert Apply(t, op).buffers == t.buffers;
  }

  /** A handle that was given out and does not resolve never resolves again, whatever runs and
      however often its slot is used anew. */
  lemma {:induction false} NeverAgain(t: Table, h: nat, ops: seq<Op>)
    requires Invariant(t) && GenerationOf(h) <= t.generation && !Resolves(t, h)
    ensures !Resolves(Run(t, ops), h)
    ensures forall at, n, w :: Resolve(Run(t, ops), h, at, n, w).Fault?
    decreases |ops|
  {
    if ops != [] {
      ApplyInvariant(t, ops[0]);
      ApplyKeepsLink(t, ops[0], h);
      NeverAgain(Apply(t, ops[0]), h, ops[1..]);
    }
  }

  /** In particular a released one. */
  lemma ReleasedForever(t: Table, h: nat, n: nat, ops: seq<Op>)
    requires Invariant(t) && t.error == 0 && Resolves(t, h) && n == Find(t, h).value.length
    ensures Invariant(Release(t, h, n)) && !Resolves(Run(Release(t, h, n), ops), h)
  {
    ReleaseInvariant(t, h, n);
    SlotFound(t, h);
    assert Fresh(t, SlotOf(h) - 1);
    NeverAgain(Release(t, h, n), h, ops);
  }

  // ----- Slices and their roots -----

  /** h and every ancestor of it are live. */
  predicate ChainLive(t: Table, h: nat)
    decreases GenerationOf(h)
  {
    match Find(t, h)
    case None => false
    case Some(b) => b.parent == 0 || (GenerationOf(b.parent) < GenerationOf(h) && ChainLive(t, b.parent))
  }

  /** The allocation or borrowed area that h is a part of, and where in it h begins. */
  function RootOf(t: Table, h: nat): (r: Buffer)
    requires ChainLive(t, h)
    ensures r.parent == 0
    decreases GenerationOf(h)
  {
    var b := Find(t, h).value;
    if b.parent == 0 then b else RootOf(t, b.parent)
  }

  function OffsetIn(t: Table, h: nat): nat
    requires ChainLive(t, h)
    decreases GenerationOf(h)
  {
    var b := Find(t, h).value;
    if b.parent == 0 then 0 else b.offset + OffsetIn(t, b.parent)
  }

  /** How many handles a walk from h looks at. */
  function Links(t: Table, h: nat): nat
    decreases GenerationOf(h)
  {
    match Find(t, h)
    case None => 1
    case Some(b) => if b.parent == 0 || GenerationOf(b.parent) >= GenerationOf(h) then 1 else 1 + Links(t, b.parent)
  }

  function Slots(n: nat): set<nat> {
    if n == 0 then {} else Slots(n - 1) + {n - 1}
  }

  lemma {:induction false} SlotCount(n: nat)
    ensures |Slots(n)| == n && forall i: nat :: i in Slots(n) <==> i < n
  {
    if n > 0 {
      SlotCount(n - 1);
    }
  }

  /** The live slots no younger than generation g. */
  function UpTo(t: Table, g: nat): set<nat> {
    set i: nat | i < |t.buffers| && t.buffers[i].live && t.buffers[i].generation <= g
  }

  lemma {:induction false} LinksBounded(t: Table, h: nat)
    requires Invariant(t)
    ensures Links(t, h) <= |UpTo(t, GenerationOf(h))| + 1
    ensures Resolves(t, h) ==> ChainLive(t, h) ==> Links(t, h) <= |UpTo(t, GenerationOf(h))|
    decreases GenerationOf(h)
  {
    if Resolves(t, h) {
      var b, i := Find(t, h).value, SlotOf(h) - 1;
      SlotFound(t, h);
      assert i in UpTo(t, GenerationOf(h));
      assert SliceFits(t, t.buffers[i]);
      if b.parent != 0 {
        LinksBounded(t, b.parent);
        assert UpTo(t, GenerationOf(b.parent)) <= UpTo(t, GenerationOf(h)) - {i};
        Fewer(UpTo(t, GenerationOf(b.parent)), UpTo(t, GenerationOf(h)), i);
      } else {
        Fewer({}, UpTo(t, GenerationOf(h)), i);
      }
    }
  }

  lemma {:induction false} SubsetSize(a: set<nat>, b: set<nat>)
    requires a <= b
    ensures |a| <= |b|
    decreases |a|
  {
    if a != {} {
      var x :| x in a;
      SubsetSize(a - {x}, b - {x});
    }
  }

  lemma Fewer(a: set<nat>, b: set<nat>, i: nat)
    requires i in b && a <= b - {i}
    ensures |a| < |b|
  {
    SubsetSize(a, b - {i});
  }

  /** The depth limit of a walk is never what stops it: the chain is shorter than the table. */
  lemma DepthSuffices(t: Table, h: nat)
    requires Invariant(t)
    ensures ChainLive(t, h) ==> Links(t, h) <= |t.buffers|
  {
    LinksBounded(t, h);
    SlotCount(|t.buffers|);
    SubsetSize(UpTo(t, GenerationOf(h)), Slots(|t.buffers|));
  }

  /** A live chain lies inside its root, whole and with the root's permission. */
  lemma {:induction false} Inside(t: Table, h: nat)
    requires Invariant(t) && ChainLive(t, h)
    ensures var b := Find(t, h).value;
            OffsetIn(t, h) + b.length <= RootOf(t, h).length && b.writable == RootOf(t, h).writable
    decreases GenerationOf(h)
  {
    SlotFound(t, h);
    assert SliceFits(t, t.buffers[SlotOf(h) - 1]);
    if Find(t, h).value.parent != 0 {
      Inside(t, Find(t, h).value.parent);
    }
  }

  /** What the walk finds, without the walk. */
  function Exactly(t: Table, h: nat, at: nat, n: nat, write: bool): Address
    requires ChainLive(t, h)
  {
    var b := Find(t, h).value;
    if at > b.length || n > b.length - at then Fault(BOUNDS)
    else if write && !b.writable then Fault(READONLY)
    else if RootOf(t, h).base == 0 then Null else At(RootOf(t, h).base + OffsetIn(t, h) + at)
  }

  lemma {:induction false} WalkExact(t: Table, h: nat, at: nat, n: nat, write: bool, depth: nat)
    requires Invariant(t) && ChainLive(t, h) && Links(t, h) <= depth
    ensures Walk(t, h, at, n, write, depth) == Exactly(t, h, at, n, write)
    decreases GenerationOf(h)
  {
    var b := Find(t, h).value;
    SlotFound(t, h);
    assert Fresh(t, SlotOf(h) - 1) && SliceFits(t, t.buffers[SlotOf(h) - 1]);
    if b.parent != 0 && at <= b.length && n <= b.length - at && (write ==> b.writable) {
      var p := Find(t, b.parent).value;
      SlotFound(t, b.parent);
      assert Fresh(t, SlotOf(b.parent) - 1);
      WalkExact(t, b.parent, at + b.offset, n, write, depth - 1);
    }
  }

  lemma {:induction false} WalkNeedsChain(t: Table, h: nat, at: nat, n: nat, write: bool, depth: nat)
    requires Invariant(t) && !ChainLive(t, h)
    ensures Walk(t, h, at, n, write, depth).Fault?
    decreases depth
  {
    if depth > 0 && Resolves(t, h) {
      SlotFound(t, h);
      assert SliceFits(t, t.buffers[SlotOf(h) - 1]);
      if Find(t, h).value.parent != 0 {
        WalkNeedsChain(t, Find(t, h).value.parent, at + Find(t, h).value.offset, n, write, depth - 1);
      }
    }
  }

  /** A handle resolves without error exactly when it and all its ancestors are live, the range is
      inside it and it is writable if it must be; the address is then that of the range in the
      root, and the whole range lies inside the root. */
  lemma ResolveExact(t: Table, h: nat, at: nat, n: nat, write: bool)
    requires Invariant(t)
    ensures if ChainLive(t, h) then Resolve(t, h, at, n, write) == Exactly(t, h, at, n, write)
            else Resolve(t, h, at, n, write).Fault?
    ensures ChainLive(t, h) && !Exactly(t, h, at, n, write).Fault? ==>
              OffsetIn(t, h) + at + n <= RootOf(t, h).length && (write ==> RootOf(t, h).writable)
  {
    if ChainLive(t, h) {
      DepthSuffices(t, h);
      WalkExact(t, h, at, n, write, |t.buffers|);
      Inside(t, h);
    } else {
      WalkNeedsChain(t, h, at, n, write, |t.buffers|);
    }
  }

  /** A slice of live ancestors is a part of its parent: the same root, further in. */
  lemma SliceIsPart(t: Table, h: nat, at: nat, n: nat)
    requires Invariant(t) && t.error == 0 && ChainLive(t, h) && Slice(t, h, at, n).handle != 0
    ensures var a := Slice(t, h, at, n);
            && ChainLive(a.table, a.handle) && Find(a.table, a.handle).value.length == n
            && RootOf(a.table, a.handle) == RootOf(t, h) && OffsetIn(a.table, a.handle) == OffsetIn(t, h) + at
  {
    var b := Find(t, h).value;
    var r := Resolve(t, h, at, n, false);
    var t1 := Noted(t, r);
    var c := Buffer(0, n, at, 0, h, false, false, b.writable);
    ResolveExact(t, h, at, n, false);
    assert t1 == t;
    SlotFound(t, h);
    assert Fresh(t, SlotOf(h) - 1);
    AddFinds(t, c, h);
    FreeIsFree(t.buffers, t.cursor, |t.buffers|);
    HandleParts(FreeSlot(t), t.generation + 1);
    AddKeepsChain(t, c, h);
  }

  lemma {:induction false} AddKeepsChain(t: Table, b: Buffer, h: nat)
    requires Invariant(t) && ChainLive(t, h) && Add(t, b).handle != 0
    ensures var t' := Add(t, b).table;
            ChainLive(t', h) && RootOf(t', h) == RootOf(t, h) && OffsetIn(t', h) == OffsetIn(t, h)
    decreases GenerationOf(h)
  {
    SlotFound(t, h);
    assert Fresh(t, SlotOf(h) - 1) && SliceFits(t, t.buffers[SlotOf(h) - 1]);
    AddFinds(t, b, h);
    if Find(t, h).value.parent != 0 {
      AddKeepsChain(t, b, Find(t, h).value.parent);
    }
  }

  /** A chain that is broken stays broken: its slots may be used anew, but not by its handles. */
  lemma {:induction false} BrokenStaysBroken(t: Table, op: Op, h: nat)
    requires Invariant(t) && GenerationOf(h) <= t.generation && !ChainLive(t, h)
    ensures !ChainLive(Apply(t, op), h)
    decreases GenerationOf(h)
  {
    hide Apply, Find;
    ApplyKeepsLink(t, op, h);
    if Resolves(Apply(t, op), h) {
      var p := Find(t, h).value.parent;
      if p != 0 && GenerationOf(p) < GenerationOf(h) {
        BrokenStaysBroken(t, op, p);
      }
    }
  }

  lemma {:induction false} BrokenForever(t: Table, h: nat, ops: seq<Op>)
    requires Invariant(t) && GenerationOf(h) <= t.generation && !ChainLive(t, h)
    ensures !ChainLive(Run(t, ops), h)
    decreases |ops|
  {
    if ops != [] {
      ApplyInvariant(t, ops[0]);
      ApplyKeepsLink(t, ops[0], h);
      BrokenStaysBroken(t, ops[0], h);
      BrokenForever(Apply(t, ops[0]), h, ops[1..]);
    }
  }

  /** Releasing an ancestor ends every slice of it for good: after any further operations no access
      through one succeeds. */
  lemma {:induction false} SliceDiesWithAncestor(t: Table, h: nat, ancestor: nat, ops: seq<Op>)
    requires Invariant(t) && ChainLive(t, h) && IsAncestor(t, ancestor, h)
    requires t.error == 0
    ensures var t' := Release(t, ancestor, if Resolves(t, ancestor) then Find(t, ancestor).value.length else 0);
            Invariant(t') && !ChainLive(Run(t', ops), h) && forall at, n, w :: Resolve(Run(t', ops), h, at, n, w).Fault?
  {
    AncestorFound(t, h, ancestor);
    var b := Find(t, ancestor).value;
    var t' := Release(t, ancestor, b.length);
    ReleaseInvariant(t, ancestor, b.length);
    ChainBroken(t, t', h, ancestor);
    HandleIsOld(t, h);
    BrokenForever(t', h, ops);
    RunInvariant(t', ops);
    forall at, n, w
      ensures Resolve(Run(t', ops), h, at, n, w).Fault?
    {
      ResolveExact(Run(t', ops), h, at, n, w);
    }
  }

  lemma HandleIsOld(t: Table, h: nat)
    requires Invariant(t) && Resolves(t, h)
    ensures GenerationOf(h) <= t.generation
  {
    SlotFound(t, h);
    assert Fresh(t, SlotOf(h) - 1);
  }

  predicate IsAncestor(t: Table, ancestor: nat, h: nat)
    requires ChainLive(t, h)
    decreases GenerationOf(h)
  {
    ancestor == h || (Find(t, h).value.parent != 0 && IsAncestor(t, ancestor, Find(t, h).value.parent))
  }

  lemma {:induction false} AncestorFound(t: Table, h: nat, ancestor: nat)
    requires ChainLive(t, h) && IsAncestor(t, ancestor, h)
    ensures Resolves(t, ancestor)
    decreases GenerationOf(h)
  {
    if ancestor != h {
      AncestorFound(t, Find(t, h).value.parent, ancestor);
    }
  }

  lemma {:induction false} ChainBroken(t: Table, t': Table, h: nat, ancestor: nat)
    requires ChainLive(t, h) && IsAncestor(t, ancestor, h) && Resolves(t, ancestor)
    requires t'.buffers == t.buffers[SlotOf(ancestor) - 1 := Find(t, ancestor).value.(live := false, base := 0)]
    ensures !ChainLive(t', h)
    decreases GenerationOf(h)
  {
    ChangeFinds(t, t', ancestor, Find(t, ancestor).value.(live := false, base := 0), h);
    if ancestor != h {
      ChainBroken(t, t', Find(t, h).value.parent, ancestor);
    }
  }

  // ----- What an erring operation changes -----

  /** An empty slice of a live handle that has lost an ancestor, while there is a slot to take. */
  predicate TakesSlot(t: Table, op: Op)
    requires Shaped(t)
  {
    && op.DoSlice? && op.n == 0
    && Resolves(t, op.h) && op.at <= Find(t, op.h).value.length && !ChainLive(t, op.h)
    && t.generation < UINT32_MAX && FreeSlot(t) < BUFFER_MAX
  }

  /** The error is all that differs. */
  predicate OnlyError(t: Table, t': Table) {
    t' == t.(error := t'.error)
  }

  lemma LiteralErrs(t: Table, source: nat, n: nat, w: bool, p: nat)
    requires Shaped(t) && t.error == 0 && Literal(t, source, n, w, p).table.error != 0
    ensures OnlyError(t, Literal(t, source, n, w, p).table)
  {
    hide FreeSlot;
  }

  /** Looking at a part of a live handle errs if and only if an ancestor is gone. */
  lemma LookErrs(t: Table, h: nat, at: nat, n: nat)
    requires Invariant(t) && Resolves(t, h) && at <= Find(t, h).value.length && n <= Find(t, h).value.length - at
    ensures Resolve(t, h, at, n, false).Fault? <==> !ChainLive(t, h)
  {
    hide Resolve;
    ResolveExact(t, h, at, n, false);
  }

  lemma SliceErrs(t: Table, h: nat, at: nat, n: nat)
    requires Shaped(t) && t.error == 0 && Slice(t, h, at, n).table.error != 0
    requires Resolves(t, h) && at <= Find(t, h).value.length && n <= Find(t, h).value.length - at ==>
               (Resolve(t, h, at, n, false).Fault? <==> !ChainLive(t, h))
    requires t.generation <= UINT32_MAX && FreeSlot(t) <= BUFFER_MAX
    ensures OnlyError(t, Slice(t, h, at, n).table) <==> !TakesSlot(t, DoSlice(h, at, n))
  {
    hide Resolve, ChainLive, Find, FreeFrom;
  }

  /** An operation that reports an error leaves everything else as it was if and only if it is not
      one of those. */
  lemma ErringOperationExact(t: Table, op: Op)
    requires Invariant(t) && t.error == 0 && Apply(t, op).error != 0
    ensures Apply(t, op) == t.(error := Apply(t, op).error) <==> !TakesSlot(t, op)
  {
    hide Find, Resolve, ChainLive, FreeSlot;
    match op
    case DoLiteral(source, n, w, p) => LiteralErrs(t, source, n, w, p);
    case DoSlice(h, at, n) =>
      if Resolves(t, h) && at <= Find(t, h).value.length && n <= Find(t, h).value.length - at {
        LookErrs(t, h, at, n);
      }
      FreeInTable(t);
      SliceErrs(t, h, at, n);
    case _ =>
  }

  lemma FreeInTable(t: Table)
    requires Shaped(t)
    ensures FreeSlot(t) <= BUFFER_MAX
  {
    FreeIsFree(t.buffers, t.cursor, BUFFER_MAX);
  }

  lemma AddNext(t: Table, b: Buffer)
    requires Shaped(t) && t.generation < UINT32_MAX && !t.buffers[t.cursor].live
    ensures Add(t, b) == Added(Table(t.buffers[t.cursor := b.(live := true, generation := t.generation + 1)],
                                     t.generation + 1, t.used, (t.cursor + 1) % BUFFER_MAX, t.error),
                               Handle(t.cursor, t.generation + 1))
  {
  }

  const ROOT: nat := Handle(0, 1)
  const PART: nat := Handle(1, 2)

  /** Allocate, slice, and release the allocation. */
  function Orphaned(p: nat): Table
  {
    var t1 := Allocate(Initial(), 8, p).table;
    var t2 := Slice(t1, ROOT, 0, 8).table;
    Release(t2, ROOT, 8)
  }

  /** Then an empty slice of the slice sets the error and takes a slot. */
  lemma OrphanTakesSlot(p: nat)
    requires p != 0
    ensures var t, t' := Orphaned(p), Slice(Orphaned(p), PART, 0, 0).table;
            t.error == 0 && t'.error == LIFETIME && !t.buffers[2].live && t'.buffers[2].live
  {
    var t0 := Initial();
    AddNext(t0, Buffer(p, 8, 0, 0, 0, false, true, true));
    var t1 := Allocate(t0, 8, p).table;
    assert Find(t1, ROOT) == Some(Buffer(p, 8, 0, 1, 0, true, true, true));
    assert Resolve(t1, ROOT, 0, 8, false) == At(p);
    AddNext(t1, Buffer(0, 8, 0, 0, ROOT, false, false, true));
    var t2 := Slice(t1, ROOT, 0, 8).table;
    assert Find(t2, ROOT) == Find(t1, ROOT);
    var t := Release(t2, ROOT, 8);
    assert Find(t, ROOT) == None;
    assert Find(t, PART) == Some(Buffer(0, 8, 0, 2, ROOT, true, false, true));
    assert Resolve(t, PART, 0, 0, false) == Fault(LIFETIME);
    AddNext(Fail(t, LIFETIME), Buffer(0, 0, 0, 0, PART, false, false, true));
  }

  /** So an error of a run can change the table. */
  lemma DeadAncestorTakesSlot(p: nat)
    requires p != 0
    ensures Invariant(Initial())
    ensures var t := Run(Initial(), [DoAllocate(8, p), DoSlice(ROOT, 0, 8), DoRelease(ROOT, 8)]);
            Invariant(t) && var t' := Apply(t, DoSlice(PART, 0, 0));
            t.error == 0 && t'.error == LIFETIME && !t.buffers[2].live && t'.buffers[2].live
  {
    hide Invariant, Find, Resolve, Add, Handle;
    InitialInvariant();
    var ops := [DoAllocate(8, p), DoSlice(ROOT, 0, 8), DoRelease(ROOT, 8)];
    RunInvariant(Initial(), ops);
    RunThree(Initial(), ops[0], ops[1], ops[2]);
    OrphanTakesSlot(p);
  }

  lemma RunThree(t: Table, a: Op, b: Op, c: Op)
    requires Invariant(t)
    ensures Invariant(Apply(t, a)) && Invariant(Apply(Apply(t, a), b))
    ensures Run(t, [a, b, c]) == Apply(Apply(Apply(t, a), b), c)
  {
    hide Apply, Fresh, SliceFits, OwnedBytes;
    ApplyInvariant(t, a);
    ApplyInvariant(Apply(t, a), b);
    ApplyInvariant(Apply(Apply(t, a), b), c);
    assert [a, b, c][1..] == [b, c] && [b, c][1..] == [c];
    assert Run(Apply(Apply(t, a), b), [c]) == Apply(Apply(Apply(t, a), b), c);
    assert Run(Apply(t, a), [b, c]) == Run(Apply(Apply(t, a), b), [c]);
  }
}
