/** The base relocation tables that the inspector accepts, and the sites in them, described by
    positions instead of by the walk over the table. */
module SiteTables {
  import opened Objects
  import opened ObjectFiles
  import opened Relocations
  import opened PeImages
  import opened PeChecks

  /** q is the position of an entry that is no padding. */
  predicate EntryAt(b: Bytes, p: nat, end: nat, q: nat) {
    p <= q < end && (q - p) % 2 == 0 && U16(b, q) != 0
  }

  /** The entry is of type 10, for eight bytes of one section that are in the file. */
  predicate EntryGood(b: Bytes, page: nat, q: nat) {
    var n := U16(b, q);
    40960 <= n < 45056 && page + (n - 40960) < 4294967296 && Map(b, 0, page + (n - 40960), 8).Some?
  }

  ghost predicate EntriesGood(b: Bytes, p: nat, end: nat, page: nat, floor: int) {
    && (forall q :: EntryAt(b, p, end, q) ==> EntryGood(b, page, q) && floor < U16(b, q) - 40960)
    && (forall q, r :: EntryAt(b, p, end, q) && EntryAt(b, p, end, r) && q < r ==> U16(b, q) < U16(b, r))
  }

  ghost predicate HasSite(b: Bytes, p: nat, end: nat, page: nat, x: nat) {
    exists q :: EntryAt(b, p, end, q) && x + 40960 == page + U16(b, q)
  }

  predicate Ascending(s: seq<nat>) {
    forall i, j :: 0 <= i < j < |s| ==> s[i] < s[j]
  }

  lemma NextEntries(b: Bytes, p: nat, end: nat)
    ensures forall q :: EntryAt(b, p, end, q) <==> (q == p && p < end && U16(b, p) != 0) || EntryAt(b, p + 2, end, q)
  {
  }

  lemma PaddingStep(b: Bytes, p: nat, end: nat, page: nat, floor: int)
    requires p < end && U16(b, p) == 0
    ensures EntriesGood(b, p, end, page, floor) <==> EntriesGood(b, p + 2, end, page, floor)
    ensures forall x: nat :: HasSite(b, p, end, page, x) <==> HasSite(b, p + 2, end, page, x)
  {
    hide U16, Map;
    NextEntries(b, p, end);
  }

  lemma EntryStep(b: Bytes, p: nat, end: nat, page: nat, floor: int)
    requires p < end && U16(b, p) != 0
    ensures EntriesGood(b, p, end, page, floor) <==>
              EntryGood(b, page, p) && floor < U16(b, p) - 40960 && EntriesGood(b, p + 2, end, page, U16(b, p) - 40960)
    ensures forall x: nat :: HasSite(b, p, end, page, x) <==> x + 40960 == page + U16(b, p) || HasSite(b, p + 2, end, page, x)
  {
    hide U16, EntryGood;
    NextEntries(b, p, end);
    assert EntryAt(b, p, end, p);
  }

  lemma AscendingMore(x: nat, s: seq<nat>)
    requires Ascending(s) && forall y :: y in s ==> x < y
    ensures Ascending([x] + s)
  {
    forall i, j | 0 <= i < j < |[x] + s|
      ensures ([x] + s)[i] < ([x] + s)[j]
    {
      assert s[j - 1] in s && (i > 0 ==> s[i - 1] < s[j - 1]);
    }
  }

  /** A block is accepted when its entries are good and ascend; its sites are those of its entries. */
  lemma {:induction false} EntriesExactly(b: Bytes, p: nat, end: nat, page: nat, floor: int)
    requires -1 <= floor
    ensures EntriesAt(b, p, end, page, floor).Some? <==> EntriesGood(b, p, end, page, floor)
    ensures EntriesAt(b, p, end, page, floor).Some? ==>
      var s := EntriesAt(b, p, end, page, floor).value;
      Ascending(s) && (forall x: nat :: x in s <==> HasSite(b, p, end, page, x)) && forall x :: x in s ==> page + floor < x < page + 4096
    decreases end - p
  {
    hide Map, U16, HasSite, EntriesGood, Ascending;
    if p < end {
      var n := U16(b, p);
      if n == 0 {
        PaddingStep(b, p, end, page, floor);
        EntriesExactly(b, p + 2, end, page, floor);
      } else {
        EntryStep(b, p, end, page, floor);
        if EntryGood(b, page, p) && floor < n - 40960 {
          EntriesExactly(b, p + 2, end, page, n - 40960);
          if EntriesAt(b, p + 2, end, page, n - 40960).Some? {
            AscendingMore(page + n - 40960, EntriesAt(b, p + 2, end, page, n - 40960).value);
          }
        }
      }
    } else {
      NoEntries(b, p, end, page, floor);
    }
  }

  lemma NoEntries(b: Bytes, p: nat, end: nat, page: nat, floor: int)
    requires end <= p
    ensures EntriesGood(b, p, end, page, floor) && Ascending([]) && forall x: nat :: !HasSite(b, p, end, page, x)
  {
  }

  // ----- Blocks -----

  /** Where blocks begin in the table, and its end: each block says how long it is. */
  ghost predicate Chain(b: Bytes, at: nat, starts: seq<nat>, from: nat, size: nat) {
    && starts != [] && starts[0] == from && starts[|starts| - 1] == size
    && forall i :: 0 <= i < |starts| - 1 ==> starts[i + 1] == starts[i] + U32(b, at + starts[i] + 4)
  }

  function PageAt(b: Bytes, at: nat, start: nat): nat {
    U32(b, at + start)
  }

  /** A block has its page, its size in multiples of four, and good entries. */
  ghost predicate BlockGood(b: Bytes, at: nat, start: nat) {
    var n := U32(b, at + start + 4);
    && PageAt(b, at, start) % 4096 == 0 && n >= 8 && n % 4 == 0
    && EntriesGood(b, at + start + 8, at + start + n, PageAt(b, at, start), -1)
  }

  ghost predicate BlocksGood(b: Bytes, at: nat, starts: seq<nat>, floor: int) {
    && (forall i :: 0 <= i < |starts| - 1 ==> BlockGood(b, at, starts[i]) && floor < PageAt(b, at, starts[i]))
    && forall i, j :: 0 <= i < j < |starts| - 1 ==> PageAt(b, at, starts[i]) < PageAt(b, at, starts[j])
  }

  ghost predicate TableGood(b: Bytes, at: nat, starts: seq<nat>, from: nat, size: nat, floor: int) {
    Chain(b, at, starts, from, size) && BlocksGood(b, at, starts, floor)
  }

  lemma FirstBlock(b: Bytes, at: nat, starts: seq<nat>, from: nat, size: nat, floor: int)
    requires TableGood(b, at, starts, from, size, floor) && from < size
    ensures |starts| > 1 && BlockGood(b, at, from) && floor < PageAt(b, at, from) && from + U32(b, at + from + 4) <= size
    ensures TableGood(b, at, starts[1..], from + U32(b, at + from + 4), size, PageAt(b, at, from))
  {
    hide BlockGood, PageAt, U32;
    ChainEnds(b, at, starts, from, size, 1);
    var rest := starts[1..];
    forall i | 0 <= i < |rest| - 1
      ensures BlockGood(b, at, rest[i]) && PageAt(b, at, from) < PageAt(b, at, rest[i])
    {
      assert rest[i] == starts[i + 1] && BlockGood(b, at, starts[i + 1]);
    }
  }

  /** Blocks only go forward, so all of them end inside the table. */
  lemma {:induction false} ChainEnds(b: Bytes, at: nat, starts: seq<nat>, from: nat, size: nat, i: nat)
    requires Chain(b, at, starts, from, size) && i < |starts|
    ensures starts[i] <= size
    decreases |starts| - i
  {
    if i < |starts| - 1 {
      ChainEnds(b, at, starts, from, size, i + 1);
    }
  }

  lemma MoreBlocks(b: Bytes, at: nat, rest: seq<nat>, from: nat, size: nat, floor: int)
    requires BlockGood(b, at, from) && floor < PageAt(b, at, from)
    requires TableGood(b, at, rest, from + U32(b, at + from + 4), size, PageAt(b, at, from))
    ensures TableGood(b, at, [from] + rest, from, size, floor)
  {
    hide BlockGood, PageAt, U32;
    var starts := [from] + rest;
    forall i, j | 0 <= i < j < |starts| - 1
      ensures PageAt(b, at, starts[i]) < PageAt(b, at, starts[j])
    {
      assert starts[j] == rest[j - 1] && BlockGood(b, at, rest[j - 1]);
    }
    forall i | 0 <= i < |starts| - 1
      ensures starts[i + 1] == starts[i] + U32(b, at + starts[i] + 4)
      ensures BlockGood(b, at, starts[i]) && floor < PageAt(b, at, starts[i])
    {
      if i > 0 {
        assert starts[i] == rest[i - 1] && BlockGood(b, at, rest[i - 1]);
      }
    }
  }

  lemma AscendingJoin(s: seq<nat>, t: seq<nat>)
    requires Ascending(s) && Ascending(t) && forall x, y :: x in s && y in t ==> x < y
    ensures Ascending(s + t)
  {
    forall i, j | 0 <= i < j < |s + t|
      ensures (s + t)[i] < (s + t)[j]
    {
      if i < |s| <= j {
        assert s[i] in s && t[j - |s|] in t;
      }
    }
  }

  ghost predicate Cut(b: Bytes, at: nat, from: nat, size: nat, floor: int) {
    exists starts :: TableGood(b, at, starts, from, size, floor)
  }

  /** A table is accepted when it can be cut into good blocks of ascending pages; the sites ascend. */
  lemma {:induction false} BlocksExactly(b: Bytes, at: nat, size: nat, from: nat, floor: int)
    requires (floor == -1 || (floor >= 0 && floor % 4096 == 0)) && from <= size
    ensures BlocksAt(b, at, size, from, floor).Some? <==> Cut(b, at, from, size, floor)
    ensures BlocksAt(b, at, size, from, floor).Some? ==>
      var s := BlocksAt(b, at, size, from, floor).value; Ascending(s) && forall x :: x in s ==> floor == -1 || floor + 4096 <= x
    decreases size - from
  {
    hide U32, EntriesAt, EntriesGood, Ascending, TableGood, HasSite;
    if from < size {
      var page, n := PageAt(b, at, from), U32(b, at + from + 4);
      EntriesExactly(b, at + from + 8, at + from + n, page, -1);
      if BlockGood(b, at, from) && from + n <= size && floor < page {
        var next := from + n;
        BlocksExactly(b, at, size, next, page);
        if starts :| TableGood(b, at, starts, next, size, page) {
          MoreBlocks(b, at, starts, from, size, floor);
        }
        if BlocksAt(b, at, size, from, floor).Some? {
          var s, t := EntriesAt(b, at + from + 8, at + from + n, page, -1).value, BlocksAt(b, at, size, from + n, page).value;
          AscendingJoin(s, t);
        }
      }
      if starts :| TableGood(b, at, starts, from, size, floor) {
        FirstBlock(b, at, starts, from, size, floor);
      }
    } else {
      WholeTable(b, at, from, floor);
    }
  }

  lemma WholeTable(b: Bytes, at: nat, from: nat, floor: int)
    ensures TableGood(b, at, [from], from, from, floor) && Ascending([])
  {
  }

  ghost predicate HasEntry(b: Bytes, p: nat, end: nat) {
    exists q :: EntryAt(b, p, end, q)
  }

  ghost predicate BlockHasEntry(b: Bytes, at: nat, start: nat) {
    HasEntry(b, at + start + 8, at + start + U32(b, at + start + 4))
  }

  ghost predicate SomeEntry(b: Bytes, at: nat, starts: seq<nat>) {
    exists i :: 0 <= i < |starts| - 1 && BlockHasEntry(b, at, starts[i])
  }

  /** It has sites when there is an entry in some block. */
  lemma {:induction false} SomeSite(b: Bytes, at: nat, size: nat, from: nat, floor: int, starts: seq<nat>)
    requires TableGood(b, at, starts, from, size, floor) && BlocksAt(b, at, size, from, floor).Some? && from <= size
    ensures BlocksAt(b, at, size, from, floor).value != [] <==> SomeEntry(b, at, starts)
    decreases size - from
  {
    hide U32, EntriesAt, EntriesGood, Ascending, TableGood, HasSite, U16, EntryAt, BlockGood;
    if from < size {
      var n := U32(b, at + from + 4);
      FirstBlock(b, at, starts, from, size, floor);
      EntriesExactly(b, at + from + 8, at + from + n, PageAt(b, at, from), -1);
      SiteOfEntry(b, at + from + 8, at + from + n, PageAt(b, at, from));
      SomeSite(b, at, size, from + n, PageAt(b, at, from), starts[1..]);
      SomeEntryStep(b, at, starts, from, size, floor);
    } else {
      OneStart(b, at, starts, from, floor);
    }
  }

  lemma SiteOfEntry(b: Bytes, p: nat, end: nat, page: nat)
    requires EntriesAt(b, p, end, page, -1).Some?
    ensures EntriesAt(b, p, end, page, -1).value != [] <==> HasEntry(b, p, end)
  {
    hide U16, Map, Ascending;
    EntriesExactly(b, p, end, page, -1);
    var s := EntriesAt(b, p, end, page, -1).value;
    if q :| EntryAt(b, p, end, q) {
      assert EntryGood(b, page, q);
      assert HasSite(b, p, end, page, page + (U16(b, q) - 40960));
    }
    if s != [] {
      assert s[0] in s;
    }
  }

  lemma SomeEntryStep(b: Bytes, at: nat, starts: seq<nat>, from: nat, size: nat, floor: int)
    requires TableGood(b, at, starts, from, size, floor) && |starts| > 1
    ensures SomeEntry(b, at, starts) <==> BlockHasEntry(b, at, from) || SomeEntry(b, at, starts[1..])
  {
    hide BlockHasEntry, BlocksGood;
    var rest := starts[1..];
    assert starts[0] == from;
    if i :| 0 <= i < |rest| - 1 && BlockHasEntry(b, at, rest[i]) {
      assert starts[i + 1] == rest[i];
    }
    if i :| 0 <= i < |starts| - 1 && BlockHasEntry(b, at, starts[i]) {
      assert i > 0 ==> rest[i - 1] == starts[i];
    }
  }

  lemma OneStart(b: Bytes, at: nat, starts: seq<nat>, from: nat, floor: int)
    requires TableGood(b, at, starts, from, from, floor)
    ensures |starts| == 1
  {
    hide U32, EntriesGood;
    if |starts| > 1 {
      ChainEnds(b, at, starts, from, from, 1);
      assert false;
    }
  }
}
