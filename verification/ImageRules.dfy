/** What the two validators of images accept and what the writer can write, in numbers. */
module ImageRules {
  import opened Sorting
  import opened Objects
  import opened ObjectFiles
  import opened ObjectNumbers
  import opened Relocations
  import opened PeImages
  import opened PeChecks
  import opened PeAccepted
  import opened SiteTables

  /** The little-endian word at a position, 0 behind the end. */
  function Word(b: Bytes, at: nat): nat {
    if at + 4 <= |b| then Le32(b, at) else 0
  }

  function Half(b: Bytes, at: nat): nat {
    var low: nat, high: nat := if at + 2 <= |b| then b[at] else 0, if at + 2 <= |b| then b[at + 1] else 0;
    low + 256 * high
  }

  lemma WordIs(b: Bytes, at: nat)
    ensures U32(b, at) == Word(b, at) && U16(b, at) == Half(b, at)
  {
    if at + 4 <= |b| {
      U32Is(b, at);
    }
  }

  // ----- The inspector -----

  /** A 64-bit image with the optional header of the format's 240 bytes, sections at pages and raw data
      at multiples of 512, no debugging or other directories than the relocations. */
  predicate Headers(b: Bytes) {
    var nt := Word(b, 60);
    var sections, image, headers := Half(b, nt + 6), Word(b, nt + 80), Word(b, nt + 84);
    && 64 <= |b| && Half(b, 0) == 23117 && 64 <= nt && nt + 264 + 40 * sections <= headers <= |b| && Word(b, nt) == 17744
    && Half(b, nt + 4) == 34404 && 1 <= sections <= 96 && Half(b, nt + 20) == 240 && Half(b, nt + 24) == 523
    && Word(b, nt + 8) == Word(b, nt + 12) == Word(b, nt + 16) == Word(b, nt + 88) == 0
    && Word(b, nt + 56) == 4096 && Word(b, nt + 60) == 512 && image > 0 && image % 4096 == 0 && headers % 512 == 0
    && Half(b, nt + 92) == 10 && Word(b, nt + 132) == 16
    && forall d: nat :: d < 16 && d != 5 ==> NoDirectory(b, d)
  }

  predicate NoDirectory(b: Bytes, d: nat) {
    Word(b, Word(b, 60) + 136 + 8 * d) == 0 && Word(b, Word(b, 60) + 140 + 8 * d) == 0
  }

  datatype Part = Part(address: nat, bytes: nat, position: nat, stored: nat, access: nat)

  /** A section header, with its right to execute as 1, to read as 2 and to write as 4. */
  function PartAt(b: Bytes, h: nat): Part {
    Part(Word(b, h + 12), Word(b, h + 8), Word(b, h + 20), Word(b, h + 16), Word(b, h + 36) / 536870912)
  }

  function Header(b: Bytes, j: nat): nat {
    Word(b, 60) + 264 + 40 * j
  }

  predicate NextPage(address: nat, end: nat) {
    end <= address < end + 4096 && address % 4096 == 0
  }

  /** Where the sections before section j end in the image and in the file. */
  predicate Follows(b: Bytes, j: nat, address: nat, position: nat) {
    if j == 0 then address == 4096 && position == Word(b, Word(b, 60) + 84)
    else var p := PartAt(b, Header(b, j - 1)); NextPage(address, p.address + p.bytes) && position == p.position + p.stored
  }

  /** Sections follow each other without gaps, and none is written to and executed. */
  predicate SectionGood(b: Bytes, j: nat) {
    var h := Header(b, j);
    var p := PartAt(b, h);
    && Follows(b, j, p.address, p.position) && p.bytes <= p.stored && p.stored % 512 == 0
    && p.position + p.stored <= |b| && p.address + p.bytes <= Word(b, Word(b, 60) + 80)
    && p.access != 5 && p.access != 7 && Word(b, h + 24) == Word(b, h + 28) == Word(b, h + 32) == 0
  }

  /** The entry is in a section that is executed and read, and not written to. */
  predicate EntryGood(b: Bytes, j: nat) {
    var p := PartAt(b, Header(b, j));
    p.address <= Word(b, Word(b, 60) + 40) < p.address + p.bytes && p.access == 3
  }

  ghost predicate Sections(b: Bytes) {
    var n := Half(b, Word(b, 60) + 6);
    && (forall j: nat :: j < n ==> SectionGood(b, j)) && (exists j: nat :: j < n && EntryGood(b, j))
    && Follows(b, n, Word(b, Word(b, 60) + 80), |b|)
  }

  lemma SectionIs(b: Bytes, j: nat)
    ensures var s, p := SectionOf(b, j), PartAt(b, Header(b, j));
            && p == Part(s.va, s.vs, s.raw, s.rs, Access(s)) && Access(s) < 8
            && (WriteAndExecute(s) <==> p.access == 5 || p.access == 7)
  {
    hide U32, Word;
    var h := Header(b, j);
    WordIs(b, 60);
    WordIs(b, h + 12);
    WordIs(b, h + 8);
    WordIs(b, h + 20);
    WordIs(b, h + 16);
    WordIs(b, h + 36);
    WordIsSmall(b, h + 36);
    assert Access(SectionOf(b, j)) < 8;
  }

  lemma WordIsSmall(b: Bytes, at: nat)
    ensures Word(b, at) < 4294967296
  {
  }

  lemma PageIs(n: nat, r: nat)
    ensures r == Pages(n) <==> NextPage(r, n)
  {
    hide Multiple;
    MultipleIs(n, 4096);
    SamePage(r, Pages(n));
  }

  lemma SamePage(r: nat, s: nat)
    ensures r % 4096 == 0 && s % 4096 == 0 && r < s ==> r + 4096 <= s
    ensures r % 4096 == 0 && s % 4096 == 0 && s < r ==> s + 4096 <= r
  {
  }

  lemma HeadersIs(b: Bytes)
    ensures HeadersOk(b) <==> Headers(b)
  {
    hide Half, Word, U16, U32, DirectoryOk, NoDirectory;
    forall at: nat
      ensures U32(b, at) == Word(b, at) && U16(b, at) == Half(b, at)
    {
      WordIs(b, at);
    }
    forall d: nat | d < 16
      ensures DirectoryOk(b, d) <==> d == 5 || NoDirectory(b, d)
    {
      DirectoryIs(b, d);
    }
  }

  lemma DirectoryIs(b: Bytes, d: nat)
    ensures DirectoryOk(b, d) <==> d == 5 || NoDirectory(b, d)
  {
    hide U32, Word;
    WordIs(b, 60);
    WordIs(b, Nt(b) + 136 + 8 * d);
    WordIs(b, Nt(b) + 140 + 8 * d);
  }

  lemma FieldsAre(b: Bytes)
    ensures Nt(b) == Word(b, 60) && Count(b) == Half(b, Word(b, 60) + 6) && ImageSize(b) == Word(b, Word(b, 60) + 80)
    ensures HeaderSize(b) == Word(b, Word(b, 60) + 84) && EntryOf(b) == Word(b, Word(b, 60) + 40)
  {
    hide U16, U32, Half, Word;
    WordIs(b, 60);
    WordIs(b, Nt(b) + 6);
    WordIs(b, Nt(b) + 80);
    WordIs(b, Nt(b) + 84);
    WordIs(b, Nt(b) + 40);
  }

  lemma FollowsIs(b: Bytes, j: nat, address: nat, position: nat)
    ensures Follows(b, j, address, position) <==> address == NextVirtual(b, j) && position == NextRaw(b, j)
  {
    hide U32, Word, SectionOf, PartAt, Header, Pages;
    FieldsAre(b);
    if j > 0 {
      SectionIs(b, j - 1);
      var s := SectionOf(b, j - 1);
      PageIs(s.va + s.vs, address);
    }
  }

  lemma SectionGoodIs(b: Bytes, j: nat)
    ensures SectionCanonical(b, j) <==> SectionGood(b, j)
  {
    hide U32, Word, SectionOf, PartAt, NextVirtual, NextRaw, Follows, Access;
    FieldsAre(b);
    SectionIs(b, j);
    var h := Header(b, j);
    WordIs(b, h + 24);
    WordIs(b, h + 28);
    WordIs(b, h + 32);
    FollowsIs(b, j, SectionOf(b, j).va, SectionOf(b, j).raw);
  }

  lemma SectionsIs(b: Bytes)
    ensures SectionsOk(b) <==> Sections(b)
  {
    hide U32, Word, Half, SectionOf, PartAt, SectionGood, SectionCanonical, NextVirtual, NextRaw, Follows, Access;
    FieldsAre(b);
    forall j: nat
      ensures SectionCanonical(b, j) <==> SectionGood(b, j)
      ensures EntryIn(b, SectionOf(b, j)) <==> EntryGood(b, j)
    {
      SectionGoodIs(b, j);
      SectionIs(b, j);
    }
    FollowsIs(b, Count(b), ImageSize(b), |b|);
  }

  /** size bytes at an address of the image are in section j and in its data in the file. */
  predicate Inside(b: Bytes, j: nat, rva: nat, size: nat) {
    var p := PartAt(b, Header(b, j));
    j < Half(b, Word(b, 60) + 6) && p.address <= rva && rva + size <= p.address + p.bytes && rva + size <= p.address + p.stored
  }

  /** They are found in the first such section. */
  predicate Located(b: Bytes, j: nat, rva: nat, size: nat, at: nat) {
    var p := PartAt(b, Header(b, j));
    Inside(b, j, rva, size) && at == p.position + (rva - p.address) && forall i: nat :: i < j ==> !Inside(b, i, rva, size)
  }

  lemma InsideIs(b: Bytes, j: nat, rva: nat, size: nat)
    ensures Inside(b, j, rva, size) <==> j < Count(b) && Contains(SectionOf(b, j), rva, size)
  {
    hide U32, Word, Half, SectionOf, PartAt, Access;
    FieldsAre(b);
    SectionIs(b, j);
  }

  lemma {:induction false} MapIs(b: Bytes, j: nat, rva: nat, size: nat)
    requires forall i: nat :: i < j ==> !Inside(b, i, rva, size)
    ensures Map(b, j, rva, size).Some? <==> exists k: nat :: Inside(b, k, rva, size)
    ensures forall at: nat :: Map(b, j, rva, size) == Some(at) <==> exists k: nat :: Located(b, k, rva, size, at)
    decreases Count(b) - j
  {
    hide U32, Word, Half, SectionOf, PartAt, Access, Inside, Contains;
    InsideIs(b, j, rva, size);
    SectionIs(b, j);
    if j < Count(b) {
      if Inside(b, j, rva, size) {
        var p := PartAt(b, Header(b, j));
        InsideBegins(b, j, rva, size);
        assert Located(b, j, rva, size, p.position + (rva - p.address));
      } else {
        MapIs(b, j + 1, rva, size);
      }
    } else {
      forall k: nat
        ensures !Inside(b, k, rva, size)
      {
        InsideIs(b, k, rva, size);
      }
    }
  }

  lemma InsideBegins(b: Bytes, j: nat, rva: nat, size: nat)
    requires Inside(b, j, rva, size)
    ensures PartAt(b, Header(b, j)).address <= rva
  {
  }

  /** The table of the fifth directory lies in a section and can be cut into good blocks with an entry. */
  ghost predicate TableRule(b: Bytes) {
    var rva, size := Word(b, Word(b, 60) + 176), Word(b, Word(b, 60) + 180);
    size > 0 && exists j: nat, at: nat, starts ::
      Located(b, j, rva, size, at) && TableGood(b, at, starts, 0, size, -1) && SomeEntry(b, at, starts)
  }

  lemma TableRuleIs(b: Bytes)
    ensures U32(b, Nt(b) + 180) > 0 && SitesOf(b).Some? && SitesOf(b).value != [] <==> TableRule(b)
  {
    hide U32, Word, Half, Located, Inside, Map, BlocksAt, SomeEntry, TableGood;
    var rva, size := Word(b, Word(b, 60) + 176), Word(b, Word(b, 60) + 180);
    FieldsAre(b);
    WordIs(b, Nt(b) + 176);
    WordIs(b, Nt(b) + 180);
    MapIs(b, 0, rva, size);
    if TableAt(b).Some? {
      var at := TableAt(b).value;
      var j: nat :| Located(b, j, rva, size, at);
      BlocksExactly(b, at, size, 0, -1);
      if starts :| TableGood(b, at, starts, 0, size, -1) {
        SomeSite(b, at, size, 0, -1, starts);
      }
    }
    if TableRule(b) {
      var j: nat, at: nat, starts :|
        Located(b, j, rva, size, at) && TableGood(b, at, starts, 0, size, -1) && SomeEntry(b, at, starts);
      assert Map(b, 0, rva, size) == Some(at) && Cut(b, at, 0, size, -1);
      BlocksExactly(b, at, size, 0, -1);
      SomeSite(b, at, size, 0, -1, starts);
    }
  }

  /** The inspector accepts exactly what keeps these rules. */
  lemma InspectedExactly(b: Bytes)
    ensures Inspected(b) <==> Headers(b) && Sections(b) && TableRule(b)
  {
    hide HeadersOk, SectionsOk, Headers, Sections, TableRule, SitesOf, U32;
    HeadersIs(b);
    SectionsIs(b);
    TableRuleIs(b);
  }

  // ----- The loader's validator -----

  /** Its header of a section, behind the optional header of whatever length. */
  function LoadedHeader(b: Bytes, j: nat): nat {
    var nt := Word(b, 60);
    nt + 24 + Half(b, nt + 20) + 40 * j
  }

  predicate LoadHeaders(b: Bytes, mapped: bool) {
    var nt := Word(b, 60);
    var sections, image, headers := Half(b, nt + 6), Word(b, nt + 80), Word(b, nt + 84);
    && 64 <= |b| && Half(b, 0) == 23117 && 64 <= nt && nt + 24 <= |b| && Word(b, nt) == 17744
    && Half(b, nt + 4) == 34404 && Half(b, nt + 24) == 523 && Half(b, nt + 92) == 10 && Half(b, nt + 20) >= 112
    && 1 <= sections <= 96 && LoadedHeader(b, sections) <= headers <= |b| && headers <= image
    && 0 < image <= 67108864 && (mapped ==> image <= |b|)
  }

  /** What a section covers in memory: its data in the file may be longer or shorter. */
  function Covered(p: Part): nat {
    if p.bytes >= p.stored then p.bytes else p.stored
  }

  predicate PartPlaced(b: Bytes, mapped: bool, p: Part) {
    var nt := Word(b, 60);
    && p.address + Covered(p) <= Word(b, nt + 80) && (Covered(p) == 0 || Word(b, nt + 84) <= p.address)
    && (mapped || p.stored == 0 || p.position + p.stored <= |b|)
  }

  predicate Separate(p: Part, q: Part) {
    Covered(p) == 0 || Covered(q) == 0 || p.address + Covered(p) <= q.address || q.address + Covered(q) <= p.address
  }

  predicate EntryStored(b: Bytes, p: Part) {
    var entry := Word(b, Word(b, 60) + 40);
    p.address <= entry && entry < p.address + p.bytes && entry < p.address + p.stored && p.access == 3
  }

  lemma LoadedPart(b: Bytes, j: nat)
    ensures var s := LoadedSection(b, j); PartAt(b, LoadedHeader(b, j)) == Part(s.va, s.vs, s.raw, s.rs, Access(s))
  {
    hide U16, U32, Half, Word;
    var h := LoadedHeader(b, j);
    WordIs(b, 60);
    WordIs(b, Nt(b) + 20);
    WordIs(b, h + 12);
    WordIs(b, h + 8);
    WordIs(b, h + 20);
    WordIs(b, h + 16);
    WordIs(b, h + 36);
  }

  lemma LoadHeadersIs(b: Bytes, mapped: bool)
    ensures LoadedHeaders(b, mapped) <==> LoadHeaders(b, mapped)
  {
    hide Half, Word, U16, U32;
    forall at: nat
      ensures U32(b, at) == Word(b, at) && U16(b, at) == Half(b, at)
    {
      WordIs(b, at);
    }
  }

  lemma PartsAre(b: Bytes, mapped: bool, i: nat, j: nat)
    ensures var s, t := LoadedSection(b, i), LoadedSection(b, j);
            var p, q := PartAt(b, LoadedHeader(b, i)), PartAt(b, LoadedHeader(b, j));
            && (Placed(b, mapped, s) <==> PartPlaced(b, mapped, p)) && (Overlap(s, t) <==> !Separate(p, q))
            && (EntryHeld(b, s) <==> EntryStored(b, p))
  {
    hide Half, Word, U16, U32, LoadedSection, PartAt, LoadedHeader, Access;
    FieldsAre(b);
    LoadedPart(b, i);
    LoadedPart(b, j);
  }

  /** The loader accepts an image whose sections lie in it, behind the headers and apart, and whose
      entry is code that the file holds. */
  lemma LoadableExactly(b: Bytes, mapped: bool)
    ensures Loadable(b, mapped) <==>
      && LoadHeaders(b, mapped)
      && (forall i: nat :: i < Half(b, Word(b, 60) + 6) ==> PartPlaced(b, mapped, PartAt(b, LoadedHeader(b, i))))
      && (forall i: nat, j: nat :: j < i < Half(b, Word(b, 60) + 6) ==>
            Separate(PartAt(b, LoadedHeader(b, i)), PartAt(b, LoadedHeader(b, j))))
      && exists i: nat :: i < Half(b, Word(b, 60) + 6) && EntryStored(b, PartAt(b, LoadedHeader(b, i)))
  {
    hide Half, Word, U16, U32, LoadedSection, PartAt, LoadedHeader, Placed, PartPlaced, Overlap, Separate, EntryHeld, EntryStored,
         LoadedHeaders, LoadHeaders;
    FieldsAre(b);
    LoadHeadersIs(b, mapped);
    forall i: nat, j: nat
      ensures var s, t := LoadedSection(b, i), LoadedSection(b, j);
              var p, q := PartAt(b, LoadedHeader(b, i)), PartAt(b, LoadedHeader(b, j));
              && (Placed(b, mapped, s) <==> PartPlaced(b, mapped, p)) && (Overlap(s, t) <==> !Separate(p, q))
              && (EntryHeld(b, s) <==> EntryStored(b, p))
    {
      PartsAre(b, mapped, i, j);
    }
  }

  // ----- The writer -----

  /** Two sites are apart: in different sections, or eight bytes or more from each other. */
  predicate SitesApart(x: (nat, nat), y: (nat, nat)) {
    x.0 != y.0 || x.1 + 8 <= y.1 || y.1 + 8 <= x.1
  }

  /** An artifact can be written as an image when it has text with the entry in it, no section of more
      than 16 MiB, and sites that lie in their sections and apart. */
  lemma PackableExactly(a: Artifact)
    ensures Packable(a) <==>
      && |a.sections| == 3 && a.entry < |a.sections[0]| <= 16777216 && |a.sections[1]| <= 16777216 && |a.sections[2]| <= 16777216
      && |a.bases| <= 1048576
      && (forall x :: x in a.bases ==> 1 <= x.0 <= 3 && x.1 + 8 <= |a.sections[x.0 - 1]|)
      && forall k, m :: 0 <= k < m < |a.bases| ==> SitesApart(a.bases[k], a.bases[m])
  {
    hide Sort, Spaced, Pages;
    if Sized(a) {
      SitesInIs(a);
      if SitesIn(a) {
        SpacedExactly(Rvas(a));
        BasesApart(a);
      }
    }
  }

  lemma SitesInIs(a: Artifact)
    requires Sized(a)
    ensures SitesIn(a) <==> forall x :: x in a.bases ==> 1 <= x.0 <= 3 && x.1 + 8 <= |a.sections[x.0 - 1]|
  {
    if forall x :: x in a.bases ==> 1 <= x.0 <= 3 && x.1 + 8 <= |a.sections[x.0 - 1]| {
      forall k: nat | k < |a.bases|
        ensures SiteIn(a, k)
      {
        assert a.bases[k] in a.bases;
      }
    }
    if SitesIn(a) {
      forall x | x in a.bases
        ensures 1 <= x.0 <= 3 && x.1 + 8 <= |a.sections[x.0 - 1]|
      {
        var k :| 0 <= k < |a.bases| && a.bases[k] == x;
        assert SiteIn(a, k);
      }
    }
  }

  lemma RvasAre(a: Artifact, k: nat, m: nat)
    requires Sized(a) && SitesIn(a) && k < m <= |a.bases|
    ensures Rvas(a)[k] + 8 <= Rvas(a)[m] || Rvas(a)[m] + 8 <= Rvas(a)[k] <==> k == 0 || SitesApart(a.bases[k - 1], a.bases[m - 1])
  {
    hide Pages;
    assert SiteIn(a, m - 1);
    LayoutApart(a);
    if k > 0 {
      assert SiteIn(a, k - 1);
    }
  }

  /** Sorting leaves gaps exactly when the addresses are pairwise apart. */
  lemma SpacedExactly(rs: seq<nat>)
    ensures Spaced(Sort(rs, UpTo)) <==> forall k, m :: 0 <= k < m < |rs| ==> rs[k] + 8 <= rs[m] || rs[m] + 8 <= rs[k]
  {
    hide Sort;
    if Spaced(Sort(rs, UpTo)) {
      SortSorts(rs, UpTo);
      var s := Sort(rs, UpTo);
      forall k, m | 0 <= k < m < |rs|
        ensures rs[k] + 8 <= rs[m] || rs[m] + 8 <= rs[k]
      {
        TwoPlaces(rs, s, k, m);
      }
    }
    if forall k, m :: 0 <= k < m < |rs| ==> rs[k] + 8 <= rs[m] || rs[m] + 8 <= rs[k] {
      SortedSpaced(rs);
    }
  }

  lemma TwoPlaces(rs: seq<nat>, s: seq<nat>, k: nat, m: nat)
    requires Spaced(s) && multiset(s) == multiset(rs) && k < m < |rs|
    ensures rs[k] + 8 <= rs[m] || rs[m] + 8 <= rs[k]
  {
    SpacedDistinct(s);
    RearrangedDistinct(s, rs);
    SameElements(s, rs);
    assert rs[k] in s && rs[m] in s;
    var i :| 0 <= i < |s| && s[i] == rs[k];
    var j :| 0 <= j < |s| && s[j] == rs[m];
    if i < j {
      SpacedApart(s, i, j);
    } else if j < i {
      SpacedApart(s, j, i);
    }
  }

  lemma SpacedDistinct(s: seq<nat>)
    requires Spaced(s)
    ensures Distinct(s)
  {
    forall i, j | 0 <= i < j < |s|
      ensures s[i] != s[j]
    {
      SpacedApart(s, i, j);
    }
  }

  lemma BasesApart(a: Artifact)
    requires Sized(a) && SitesIn(a)
    ensures (forall k, m :: 0 <= k < m < |Rvas(a)| ==> Rvas(a)[k] + 8 <= Rvas(a)[m] || Rvas(a)[m] + 8 <= Rvas(a)[k]) <==>
            forall k, m :: 0 <= k < m < |a.bases| ==> SitesApart(a.bases[k], a.bases[m])
  {
    hide Pages;
    forall k, m | 0 <= k < m < |Rvas(a)|
      ensures Rvas(a)[k] + 8 <= Rvas(a)[m] || Rvas(a)[m] + 8 <= Rvas(a)[k] <==> k == 0 || SitesApart(a.bases[k - 1], a.bases[m - 1])
    {
      RvasAre(a, k, m);
    }
    if forall k, m :: 0 <= k < m < |Rvas(a)| ==> Rvas(a)[k] + 8 <= Rvas(a)[m] || Rvas(a)[m] + 8 <= Rvas(a)[k] {
      forall k, m | 0 <= k < m < |a.bases|
        ensures SitesApart(a.bases[k], a.bases[m])
      {
        RvasAre(a, k + 1, m + 1);
        assert Rvas(a)[k + 1] + 8 <= Rvas(a)[m + 1] || Rvas(a)[m + 1] + 8 <= Rvas(a)[k + 1];
      }
    }
  }
}
