/** The two validators of PE32+ files, and that both accept what the writer makes. */
module PeChecks {
  import opened Sorting
  import opened Objects
  import opened ObjectFiles
  import opened Relocations
  import opened PeImages

  function U16(b: Bytes, at: nat): (n: nat)
    ensures n < 0x1_0000
  {
    if at + 2 <= |b| then Pair(b[at], b[at + 1]) else 0
  }

  function Pair(low: Byte, high: Byte): (n: nat)
    ensures n < 0x1_0000
  {
    var h: nat := high;
    low + 0x100 * h
  }

  // ----- The inspector -----

  datatype Section = Section(va: nat, vs: nat, raw: nat, rs: nat, flags: nat)

  /** Execute, read and write, as the three highest flags give them. */
  function Access(s: Section): nat {
    s.flags / 0x2000_0000
  }

  const EXECUTABLE: nat := 3

  predicate WriteAndExecute(s: Section) {
    Access(s) % 2 == 1 && Access(s) / 4 % 2 == 1
  }

  function Nt(b: Bytes): nat { U32(b, 60) }
  function Count(b: Bytes): nat { U16(b, Nt(b) + 6) }
  function ImageSize(b: Bytes): nat { U32(b, Nt(b) + 80) }
  function HeaderSize(b: Bytes): nat { U32(b, Nt(b) + 84) }
  function EntryOf(b: Bytes): nat { U32(b, Nt(b) + 40) }

  function SectionFrom(b: Bytes, h: nat): Section {
    Section(U32(b, h + 12), U32(b, h + 8), U32(b, h + 20), U32(b, h + 16), U32(b, h + 36))
  }

  function SectionOf(b: Bytes, j: nat): Section {
    SectionFrom(b, Nt(b) + 264 + 40 * j)
  }

  predicate DirectoryOk(b: Bytes, d: nat) {
    d == 5 || (U32(b, Nt(b) + 136 + 8 * d) == 0 && U32(b, Nt(b) + 140 + 8 * d) == 0)
  }

  predicate HeadersOk(b: Bytes) {
    var nt := Nt(b);
    && |b| >= 64 && U16(b, 0) == 0x5a4d && nt >= 64 && nt + 264 <= |b| && U32(b, nt) == 0x4550
    && U16(b, nt + 4) == 0x8664 && U16(b, nt + 20) == 240 && U16(b, nt + 24) == 0x20b
    && 0 < Count(b) <= 96 && nt + 264 + 40 * Count(b) <= |b|
    && U32(b, nt + 8) == 0 && U32(b, nt + 12) == 0 && U32(b, nt + 16) == 0
    && U32(b, nt + 56) == 4096 && U32(b, nt + 60) == 512 && ImageSize(b) > 0 && ImageSize(b) % 4096 == 0
    && HeaderSize(b) % 512 == 0 && nt + 264 + 40 * Count(b) <= HeaderSize(b) <= |b|
    && U16(b, nt + 92) == 10 && U32(b, nt + 88) == 0 && U32(b, nt + 132) == 16
    && forall d: nat :: d < 16 ==> DirectoryOk(b, d)
  }

  function NextVirtual(b: Bytes, j: nat): nat {
    if j == 0 then 4096 else Pages(SectionOf(b, j - 1).va + SectionOf(b, j - 1).vs)
  }

  function NextRaw(b: Bytes, j: nat): nat {
    if j == 0 then HeaderSize(b) else SectionOf(b, j - 1).raw + SectionOf(b, j - 1).rs
  }

  predicate SectionCanonical(b: Bytes, j: nat) {
    var s, h := SectionOf(b, j), Nt(b) + 264 + 40 * j;
    && s.va == NextVirtual(b, j) && s.raw == NextRaw(b, j) && s.rs % 512 == 0 && s.vs <= s.rs
    && s.raw + s.rs <= |b| && s.va + s.vs <= ImageSize(b) && !WriteAndExecute(s)
    && U32(b, h + 24) == 0 && U32(b, h + 28) == 0 && U32(b, h + 32) == 0
  }

  predicate EntryIn(b: Bytes, s: Section) {
    s.va <= EntryOf(b) < s.va + s.vs && Access(s) == EXECUTABLE
  }

  predicate Contains(s: Section, rva: nat, size: nat) {
    s.va <= rva && rva - s.va + size <= s.vs && rva - s.va + size <= s.rs
  }

  /** The file offset of size bytes at an address, in the first section that has them. */
  function Map(b: Bytes, j: nat, rva: nat, size: nat): Option<nat>
    decreases Count(b) - j
  {
    if j >= Count(b) then None
    else if Contains(SectionOf(b, j), rva, size) then Some(SectionOf(b, j).raw + rva - SectionOf(b, j).va)
    else Map(b, j + 1, rva, size)
  }

  function With(sites: seq<nat>, rest: Option<seq<nat>>): Option<seq<nat>> {
    if rest.None? then None else Some(sites + rest.value)
  }

  /** The sites of one block, given the largest offset so far; None when an entry is refused. */
  function EntriesAt(b: Bytes, p: nat, end: nat, page: nat, floor: int): Option<seq<nat>>
    decreases end - p
  {
    if p >= end then Some([])
    else
      var r := U16(b, p);
      var off := r % 4096;
      if r / 4096 == 0 then if r != 0 then None else EntriesAt(b, p + 2, end, page, floor)
      else if r / 4096 != 10 || page + off >= W32 || Map(b, 0, page + off, 8).None? || off <= floor then None
      else With([page + off], EntriesAt(b, p + 2, end, page, off))
  }

  /** The sites of the table from consumed on, given the page of the last block. */
  function BlocksAt(b: Bytes, at: nat, size: nat, consumed: nat, floor: int): Option<seq<nat>>
    decreases size - consumed
  {
    if consumed >= size then Some([])
    else
      var page, block := U32(b, at + consumed), U32(b, at + consumed + 4);
      if consumed + 8 > size || page % 4096 != 0 || block < 8 || block % 4 != 0 || consumed + block > size || page <= floor then None
      else
        var first := EntriesAt(b, at + consumed + 8, at + consumed + block, page, -1);
        if first.None? then None else With(first.value, BlocksAt(b, at, size, consumed + block, page))
  }

  function TableAt(b: Bytes): Option<nat> {
    Map(b, 0, U32(b, Nt(b) + 176), U32(b, Nt(b) + 180))
  }

  function SitesOf(b: Bytes): Option<seq<nat>> {
    if TableAt(b).None? then None else BlocksAt(b, TableAt(b).value, U32(b, Nt(b) + 180), 0, -1)
  }

  predicate SectionsOk(b: Bytes) {
    && (forall j: nat :: j < Count(b) ==> SectionCanonical(b, j))
    && NextRaw(b, Count(b)) == |b| && NextVirtual(b, Count(b)) == ImageSize(b)
    && exists j: nat :: j < Count(b) && EntryIn(b, SectionOf(b, j))
  }

  ghost predicate Inspected(b: Bytes) {
    HeadersOk(b) && SectionsOk(b) && U32(b, Nt(b) + 180) > 0 && SitesOf(b).Some? && SitesOf(b).value != []
  }

  datatype Info = Info(entry: nat, image: nat, headers: nat, sections: nat, base: nat, relocations: nat)

  method CheckDirectories(b: Bytes) returns (ok: bool)
    ensures ok == forall d: nat :: d < 16 ==> DirectoryOk(b, d)
  {
    var d := 0;
    while d < 16
      invariant 0 <= d <= 16 && forall i: nat :: i < d ==> DirectoryOk(b, i)
    {
      if !DirectoryOk(b, d) {
        return false;
      }
      d := d + 1;
    }
    ok := true;
  }

  method CheckSections(b: Bytes) returns (ok: bool)
    ensures ok == SectionsOk(b)
  {
    hide SectionCanonical, SectionOf, EntryIn, Count, HeaderSize, ImageSize, Pages;
    var j, nextVirtual, nextRaw, executable := 0, 4096, HeaderSize(b), false;
    while j < Count(b)
      invariant 0 <= j <= Count(b) && nextVirtual == NextVirtual(b, j) && nextRaw == NextRaw(b, j)
      invariant forall i: nat :: i < j ==> SectionCanonical(b, i)
      invariant executable == exists i: nat :: i < j && EntryIn(b, SectionOf(b, i))
    {
      var s := SectionOf(b, j);
      if !SectionCanonical(b, j) {
        return false;
      }
      if EntryIn(b, s) {
        executable := true;
      }
      nextRaw := s.raw + s.rs;
      nextVirtual := Pages(s.va + s.vs);
      j := j + 1;
    }
    ok := nextRaw == |b| && nextVirtual == ImageSize(b) && executable;
  }

  lemma WithMore(sites: seq<nat>, more: seq<nat>, rest: Option<seq<nat>>)
    ensures With(sites, With(more, rest)) == With(sites + more, rest)
  {
    if rest.Some? {
      assert sites + (more + rest.value) == sites + more + rest.value;
    }
  }

  lemma WithNothing(rest: Option<seq<nat>>)
    ensures With([], rest) == rest
  {
    if rest.Some? {
      assert [] + rest.value == rest.value;
    }
  }

  method CheckBlock(b: Bytes, start: nat, end: nat, page: nat) returns (ok: bool, count: nat)
    ensures ok == EntriesAt(b, start, end, page, -1).Some?
    ensures ok ==> count == |EntriesAt(b, start, end, page, -1).value|
  {
    hide Map, U16;
    var p, floor: int := start, -1;
    count := 0;
    ghost var sites: seq<nat> := [];
    WithNothing(EntriesAt(b, start, end, page, -1));
    while p < end
      invariant count == |sites| && EntriesAt(b, start, end, page, -1) == With(sites, EntriesAt(b, p, end, page, floor))
      decreases end - p
    {
      var r := U16(b, p);
      var off := r % 4096;
      if r / 4096 == 0 {
        if r != 0 {
          return false, 0;
        }
      } else {
        if r / 4096 != 10 || page + off >= W32 || Map(b, 0, page + off, 8).None? || off <= floor {
          return false, 0;
        }
        WithMore(sites, [page + off], EntriesAt(b, p + 2, end, page, off));
        sites := sites + [page + off];
        floor := off;
        count := count + 1;
      }
      p := p + 2;
    }
    ok := true;
  }

  method CheckTable(b: Bytes, at: nat, size: nat) returns (ok: bool, count: nat)
    ensures ok == BlocksAt(b, at, size, 0, -1).Some?
    ensures ok ==> count == |BlocksAt(b, at, size, 0, -1).value|
  {
    hide EntriesAt, U32;
    var consumed, floor: int := 0, -1;
    count := 0;
    ghost var sites: seq<nat> := [];
    WithNothing(BlocksAt(b, at, size, 0, -1));
    while consumed < size
      invariant count == |sites| && BlocksAt(b, at, size, 0, -1) == With(sites, BlocksAt(b, at, size, consumed, floor))
      decreases size - consumed
    {
      var page, block := U32(b, at + consumed), U32(b, at + consumed + 4);
      if consumed + 8 > size || page % 4096 != 0 || block < 8 || block % 4 != 0 || consumed + block > size || page <= floor {
        return false, 0;
      }
      var good, n := CheckBlock(b, at + consumed + 8, at + consumed + block, page);
      if !good {
        return false, 0;
      }
      ghost var first := EntriesAt(b, at + consumed + 8, at + consumed + block, page, -1).value;
      WithMore(sites, first, BlocksAt(b, at, size, consumed + block, page));
      sites := sites + first;
      floor := page;
      count := count + n;
      consumed := consumed + block;
    }
    ok := true;
  }

  /** The inspector accepts exactly the canonical images, and counts their sites. */
  method Inspect(b: Bytes) returns (r: Option<Info>)
    ensures r.Some? <==> Inspected(b)
    ensures r.Some? ==> r.value == Info(EntryOf(b), ImageSize(b), HeaderSize(b), Count(b), U64(b, Nt(b) + 48), |SitesOf(b).value|)
  {
    hide SectionsOk, DirectoryOk, BlocksAt, Map, U16, U32;
    var directories := CheckDirectories(b);
    if !HeadersOk(b) || !directories {
      return None;
    }
    var ok := CheckSections(b);
    if !ok {
      return None;
    }
    var size := U32(b, Nt(b) + 180);
    var at := TableAt(b);
    if size == 0 || at.None? {
      return None;
    }
    var good, count := CheckTable(b, at.value, size);
    if !good || count == 0 {
      return None;
    }
    r := Some(Info(EntryOf(b), ImageSize(b), HeaderSize(b), Count(b), U64(b, Nt(b) + 48), count));
  }

  // ----- The loader's validator -----

  function Larger(a: nat, b: nat): nat {
    if a > b then a else b
  }

  function SpanOf(s: Section): nat {
    Larger(s.vs, s.rs)
  }

  function LoadedSection(b: Bytes, j: nat): Section {
    SectionFrom(b, Nt(b) + 24 + U16(b, Nt(b) + 20) + 40 * j)
  }

  predicate LoadedHeaders(b: Bytes, mapped: bool) {
    var nt, opt := Nt(b), U16(b, Nt(b) + 20);
    && |b| >= 64 && U16(b, 0) == 0x5a4d && nt >= 64 && nt + 24 <= |b| && U32(b, nt) == 0x4550
    && 0 < Count(b) <= 96 && opt >= 112 && nt + 24 + opt <= |b|
    && U16(b, nt + 4) == 0x8664 && U16(b, nt + 24) == 0x20b && U16(b, nt + 92) == 10
    && nt + 24 + opt + 40 * Count(b) <= |b| && nt + 24 + opt + 40 * Count(b) <= HeaderSize(b) <= |b|
    && 0 < ImageSize(b) <= 64 * 1024 * 1024 && HeaderSize(b) <= ImageSize(b) && (mapped ==> ImageSize(b) <= |b|)
  }

  predicate Placed(b: Bytes, mapped: bool, s: Section) {
    && (SpanOf(s) > 0 ==> s.va >= HeaderSize(b)) && s.va + SpanOf(s) <= ImageSize(b)
    && (!mapped && s.rs > 0 ==> s.raw + s.rs <= |b|)
  }

  predicate Overlap(s: Section, t: Section) {
    SpanOf(s) > 0 && SpanOf(t) > 0 && s.va < t.va + SpanOf(t) && t.va < s.va + SpanOf(s)
  }

  predicate EntryHeld(b: Bytes, s: Section) {
    s.va <= EntryOf(b) < s.va + s.vs && EntryOf(b) - s.va < s.rs && Access(s) == EXECUTABLE
  }

  predicate Loadable(b: Bytes, mapped: bool) {
    && LoadedHeaders(b, mapped)
    && (forall i: nat :: i < Count(b) ==> Placed(b, mapped, LoadedSection(b, i)))
    && (forall i: nat, j: nat :: j < i < Count(b) ==> !Overlap(LoadedSection(b, i), LoadedSection(b, j)))
    && exists i: nat :: i < Count(b) && EntryHeld(b, LoadedSection(b, i))
  }

  /** An image is loaded exactly when its sections lie apart inside it and the entry is code. */
  method ValidatePe(b: Bytes, mapped: bool) returns (entry: Option<nat>)
    ensures entry == if Loadable(b, mapped) then Some(EntryOf(b)) else None
  {
    hide LoadedSection, Placed, Overlap, EntryHeld, Count, EntryOf;
    if !LoadedHeaders(b, mapped) {
      return None;
    }
    var i, held := 0, false;
    while i < Count(b)
      invariant 0 <= i <= Count(b)
      invariant forall k: nat :: k < i ==> Placed(b, mapped, LoadedSection(b, k))
      invariant forall k: nat, m: nat :: m < k < i ==> !Overlap(LoadedSection(b, k), LoadedSection(b, m))
      invariant held == exists k: nat :: k < i && EntryHeld(b, LoadedSection(b, k))
    {
      var s := LoadedSection(b, i);
      if !Placed(b, mapped, s) {
        return None;
      }
      var j := 0;
      while j < i
        invariant 0 <= j <= i && forall m: nat :: m < j ==> !Overlap(s, LoadedSection(b, m))
      {
        if Overlap(s, LoadedSection(b, j)) {
          return None;
        }
        j := j + 1;
      }
      if EntryHeld(b, s) {
        held := true;
      }
      i := i + 1;
    }
    entry := if held then Some(EntryOf(b)) else None;
  }
}
