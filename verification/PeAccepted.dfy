/** What the writer makes is what both validators accept. */
module PeAccepted {
  import opened Sorting
  import opened Objects
  import opened ObjectFiles
  import opened Relocations
  import opened PeImages
  import opened PeChecks

  // ----- Header fields -----

  lemma HalvesOf(b: Bytes, at: nat)
    requires at + 4 <= |b|
    ensures U16(b, at) == U32(b, at) % 0x1_0000 && U16(b, at + 2) == U32(b, at) / 0x1_0000
  {
    hide Number;
    FourBytes(b, at);
    NumberOfFour(b[at], b[at + 1], b[at + 2], b[at + 3]);
    var h: nat := U16(b, at + 2);
    assert U32(b, at) == 0x1_0000 * h + U16(b, at);
  }

  lemma Magic(b: Bytes)
    requires Holds(b, 0, [77, 90])
    ensures U16(b, 0) == 0x5a4d
  {
    assert b[0..2][0] == 77 && b[0..2][1] == 90;
  }

  lemma HeadRead(b: Bytes, f: Frame)
    requires WordsAt(b, 128, HeadWords(f))
    ensures U32(b, 128) == 0x4550 && U32(b, 132) == 0x8664 + 4 * 0x1_0000 && U32(b, 148) == 240 + 0x2022 * 0x1_0000
    ensures U32(b, 136) == 0 && U32(b, 140) == 0 && U32(b, 144) == 0
  {
    hide U32;
    var ws := HeadWords(f);
    assert ws[0] == 0x4550 && ws[1] == 0x8664 + 4 * 0x1_0000 && ws[2] == 0 && ws[3] == 0 && ws[4] == 0 && ws[5] == 240 + 0x2022 * 0x1_0000;
  }

  lemma HeadFields(b: Bytes, f: Frame)
    requires HeadersAre(b, f) && |b| >= 1024
    ensures Nt(b) == 128 && U16(b, 0) == 0x5a4d && U32(b, 128) == 0x4550 && U16(b, 132) == 0x8664 && Count(b) == 4
    ensures U32(b, 136) == 0 && U32(b, 140) == 0 && U32(b, 144) == 0 && U16(b, 148) == 240
  {
    hide U32, U16, WordsAt, HeadWords, OptionalWords, DirectoryWords, SectionHeader;
    Magic(b);
    HeadRead(b, f);
    HalvesOf(b, 132);
    HalvesOf(b, 148);
  }

  lemma OptionalRead(b: Bytes, f: Frame)
    requires WordsAt(b, 152, OptionalWords(f))
    ensures U32(b, 152) == 0x20b && U32(b, 168) == 4096 + f.entry && U32(b, 176) == 0x4000_0000 && U32(b, 180) == 1
    ensures U32(b, 184) == 4096 && U32(b, 188) == 512 && U32(b, 208) == f.Image() && U32(b, 212) == 1024 && U32(b, 216) == 0
    ensures U32(b, 220) == 10 + 0x160 * 0x1_0000 && U32(b, 260) == 16
  {
    hide U32, Raw512, Pages;
    var ws := OptionalWords(f);
    assert ws[0] == 0x20b && ws[4] == 4096 + f.entry && ws[6] == 0x4000_0000 && ws[7] == 1 && ws[8] == 4096 && ws[9] == 512;
    assert ws[14] == f.Image() && ws[15] == 1024 && ws[16] == 0 && ws[17] == 10 + 0x160 * 0x1_0000 && ws[27] == 16;
  }

  lemma OptionalFields(b: Bytes, f: Frame)
    requires HeadersAre(b, f) && |b| >= 1024
    ensures Nt(b) == 128 && U16(b, 152) == 0x20b && EntryOf(b) == 4096 + f.entry && U64(b, 176) == IMAGE_BASE && U32(b, 184) == 4096
    ensures U32(b, 188) == 512 && ImageSize(b) == f.Image() && HeaderSize(b) == 1024 && U32(b, 216) == 0 && U16(b, 220) == 10
    ensures U32(b, 260) == 16
  {
    hide U32, U16, WordsAt, HeadWords, OptionalWords, DirectoryWords, SectionHeader;
    OptionalRead(b, f);
    HalvesOf(b, 152);
    HalvesOf(b, 220);
  }

  lemma DirectoryFields(b: Bytes, f: Frame)
    requires HeadersAre(b, f) && |b| >= 1024
    ensures Nt(b) == 128 && U32(b, 304) == f.layout.reloc && U32(b, 308) == f.reloc
    ensures forall d: nat :: d < 16 ==> DirectoryOk(b, d)
  {
    hide U32;
    var ws := DirectoryWords(f);
    assert ws[10] == f.layout.reloc && ws[11] == f.reloc;
    forall d: nat | d < 16
      ensures DirectoryOk(b, d)
    {
      if d != 5 {
        assert ws[2 * d] == 0 && ws[2 * d + 1] == 0;
        assert U32(b, 264 + 4 * (2 * d)) == 0 && U32(b, 264 + 4 * (2 * d + 1)) == 0;
      }
    }
  }

  /** What the header of section j says. */
  function SectionAs(f: Frame, j: nat): Section {
    if j == 0 then Section(f.layout.text, f.text, 1024, Raw512(f.text), 0x6000_0020)
    else if j == 1 then Section(f.layout.rdata, f.rdata, f.RdataAt(), Raw512(f.rdata), 0x4000_0040)
    else if j == 2 then Section(f.layout.data, f.data, f.DataAt(), Raw512(f.data), 0xc000_0040)
    else Section(f.layout.reloc, f.reloc, f.RelocAt(), Raw512(f.reloc), 0x4200_0040)
  }

  lemma SectionFields(b: Bytes, f: Frame, j: nat)
    requires HeadersAre(b, f) && j < 4
    ensures var h := 392 + 40 * j;
            SectionFrom(b, h) == SectionAs(f, j) && U32(b, h + 24) == 0 && U32(b, h + 28) == 0 && U32(b, h + 32) == 0
  {
    hide U32, Raw512;
    var ws := SectionHeader(f, j);
    var s := SectionAs(f, j);
    assert WordsAt(b, 392 + 40 * j, ws);
    assert ws[2] == s.vs && ws[3] == s.va && ws[4] == s.rs && ws[5] == s.raw && ws[6] == 0 && ws[7] == 0 && ws[8] == 0 && ws[9] == s.flags;
  }

  lemma SectionRead(b: Bytes, f: Frame, j: nat)
    requires HeadersAre(b, f) && |b| >= 1024 && j < 4
    ensures SectionOf(b, j) == SectionAs(f, j) == LoadedSection(b, j)
  {
    hide U32, SectionAs, HeadersAre;
    HeadFields(b, f);
    SectionFields(b, f, j);
  }

  lemma EverySection(b: Bytes, f: Frame)
    requires HeadersAre(b, f) && |b| >= 1024
    ensures forall j: nat :: j < 4 ==> SectionOf(b, j) == SectionAs(f, j) == LoadedSection(b, j)
  {
    forall j: nat | j < 4
      ensures SectionOf(b, j) == SectionAs(f, j) == LoadedSection(b, j)
    {
      SectionRead(b, f, j);
    }
  }

  // ----- Sites -----

  lemma MapFinds(b: Bytes, i: nat, j: nat, rva: nat, size: nat)
    requires i <= j < Count(b) && Contains(SectionOf(b, j), rva, size)
    ensures Map(b, i, rva, size).Some?
    decreases j - i
  {
    hide SectionOf, Count, Contains;
    if i < j {
      MapFinds(b, i + 1, j, rva, size);
    }
  }

  lemma SectionsCover(f: Frame)
    ensures forall j :: 0 <= j < 4 ==> SectionAs(f, j).vs <= SectionAs(f, j).rs
  {
    hide Raw512;
  }

  /** Every site lies with its eight bytes in the section it belongs to. */
  lemma SiteCovered(a: Artifact, r: nat) returns (j: nat)
    requires Packable(a) && r in Sites(a)
    ensures j < 3 && Contains(SectionAs(FrameOf(a), j), r, 8)
  {
    hide Sort, Spaced, Pages, Raw512, Table;
    SitesAre(a);
    SectionsCover(FrameOf(a));
    SameElements(Sites(a), Rvas(a));
    var k :| 0 <= k < |Rvas(a)| && Rvas(a)[k] == r;
    if k == 0 {
      j := 1;
    } else {
      assert SiteIn(a, k - 1) && r == RvaOf(a, k - 1);
      j := a.bases[k - 1].0 - 1;
    }
  }

  lemma SiteMapped(b: Bytes, a: Artifact, r: nat)
    requires Packable(a) && IsImage(b, a) && r in Sites(a)
    ensures Map(b, 0, r, 8).Some? && r < W32
  {
    hide U32, U16, Sort, Raw512, HeadersAre, Table;
    FrameFits(a);
    FrameSizes(a);
    var f := FrameOf(a);
    var j := SiteCovered(a, r);
    HeadFields(b, f);
    SectionRead(b, f, j);
    MapFinds(b, 0, j, r, 8);
  }

  // ----- The table -----

  ghost predicate Mapped(b: Bytes, rs: seq<nat>) {
    forall i :: 0 <= i < |rs| ==> rs[i] < W32 && Map(b, 0, rs[i], 8).Some?
  }

  lemma EntryRead(b: Bytes, p: nat, r: nat)
    requires Holds(b, p, Entry(r))
    ensures U16(b, p) == 0xa000 + r % 4096 && U16(b, p) / 4096 == 10 && U16(b, p) % 4096 == r % 4096
  {
    var n := 0xa000 + r % 4096;
    assert b[p..p + 2][0] == n % 0x100 && b[p..p + 2][1] == n / 0x100;
    assert n == 0x100 * (n / 0x100) + n % 0x100;
  }

  /** The entries of one page, and the padding behind them. */
  lemma {:induction false} EntriesRead(b: Bytes, p: nat, end: nat, page: nat, floor: int, rs: seq<nat>)
    requires Holds(b, p, Entries(rs)) && end <= |b| && Spaced(rs) && Mapped(b, rs)
    requires forall i :: 0 <= i < |rs| ==> PageOf(rs[i]) == page
    requires rs != [] ==> floor < rs[0] % 4096
    requires p + 2 * |rs| == end || (p + 2 * |rs| + 2 == end && U16(b, end - 2) == 0)
    ensures EntriesAt(b, p, end, page, floor) == Some(rs)
    decreases |rs|
  {
    hide Map, U16, Entry;
    if rs == [] {
      if p < end {
        assert EntriesAt(b, p + 2, end, page, floor) == Some([]);
      }
    } else {
      var r := rs[0];
      var s := Entries(rs);
      assert s[..2] == Entry(r) && s[2..] == Entries(rs[1..]);
      assert b[p..p + 2] == b[p..p + 2 * |rs|][..2] && b[p + 2..p + 2 * |rs|] == b[p..p + 2 * |rs|][2..];
      EntryRead(b, p, r);
      PageAndOffset(r);
      if |rs| > 1 {
        assert rs[0] + 8 <= rs[1];
        SamePage(rs[0], rs[1]);
      }
      TailSpaced(rs);
      EntriesRead(b, p + 2, end, page, r % 4096, rs[1..]);
      assert [r] + rs[1..] == rs;
    }
  }

  lemma PageAndOffset(r: nat)
    ensures PageOf(r) + r % 4096 == r && PageOf(r) % 4096 == 0
  {
  }

  lemma SamePage(r: nat, s: nat)
    requires r < s && PageOf(r) == PageOf(s)
    ensures r % 4096 < s % 4096
  {
    PageAndOffset(r);
    PageAndOffset(s);
  }

  lemma LaterPage(r: nat, s: nat)
    requires r < s && PageOf(r) != PageOf(s)
    ensures PageOf(r) < PageOf(s)
  {
  }

  lemma TailSpaced(rs: seq<nat>)
    requires Spaced(rs) && rs != []
    ensures Spaced(rs[1..])
  {
    forall i | 0 < i < |rs| - 1
      ensures rs[1..][i - 1] + 8 <= rs[1..][i]
    {
      assert rs[i] + 8 <= rs[i + 1];
    }
  }

  lemma PartSpaced(rs: seq<nat>, n: nat)
    requires Spaced(rs) && n <= |rs|
    ensures Spaced(rs[..n]) && Spaced(rs[n..])
  {
    forall i | 0 < i < |rs| - n
      ensures rs[n..][i - 1] + 8 <= rs[n..][i]
    {
      assert rs[n + i - 1] + 8 <= rs[n + i];
    }
  }

  lemma BlockRead(b: Bytes, p: nat, rs: seq<nat>)
    requires rs != [] && Holds(b, p, Block(rs)) && Spaced(rs) && Mapped(b, rs) && PageOf(rs[0]) < W32 && BlockSize(|rs|) < W32
    requires forall i :: 0 <= i < |rs| ==> PageOf(rs[i]) == PageOf(rs[0])
    ensures U32(b, p) == PageOf(rs[0]) && U32(b, p + 4) == BlockSize(|rs|)
    ensures EntriesAt(b, p + 8, p + BlockSize(|rs|), PageOf(rs[0]), -1) == Some(rs)
  {
    hide U32, U16, WordBytes, Map, Holds, Block, Entries, BlockSize, PageOf;
    var page, size, n := PageOf(rs[0]), BlockSize(|rs|), |rs|;
    BlockParts(b, p, rs);
    WordIs(page);
    SliceWord(b, p, WordBytes(page));
    WordIs(size);
    SliceWord(b, p + 4, WordBytes(size));
    BlockPadding(n);
    HoldsFits(b, p + 8, Entries(rs));
    if n % 2 == 1 {
      ZeroPair(b, p + 8 + 2 * n);
    }
    EntriesRead(b, p + 8, p + size, page, -1, rs);
  }

  lemma BlockPadding(n: nat)
    ensures BlockSize(n) == 8 + 2 * n + if n % 2 == 0 then 0 else 2
  {
  }

  lemma HoldsPart(b: Bytes, p: nat, s: Bytes, low: nat, part: Bytes)
    requires Holds(b, p, s) && low + |part| <= |s| && s[low..low + |part|] == part
    ensures Holds(b, p + low, part)
  {
    forall i | 0 <= i < |part|
      ensures b[p + low..p + low + |part|][i] == part[i]
    {
      assert b[p..p + |s|][low + i] == s[low + i];
      assert s[low..low + |part|][i] == part[i];
    }
  }

  lemma HoldsParts(b: Bytes, p: nat, s: Bytes, page: Bytes, size: Bytes, entries: Bytes, pad: Bytes, rs: seq<nat>)
    requires |page| == 4 && |size| == 4 && |entries| == 2 * |rs| && s == page + (size + (entries + pad)) && Holds(b, p, s)
    ensures Holds(b, p, page) && Holds(b, p + 4, size) && Holds(b, p + 8, entries) && Holds(b, p + 8 + 2 * |rs|, pad)
  {
    hide Holds;
    HoldsPart(b, p, s, 0, page);
    HoldsPart(b, p, s, 4, size);
    HoldsPart(b, p, s, 8, entries);
    HoldsPart(b, p, s, 8 + 2 * |rs|, pad);
  }

  lemma BlockIs(rs: seq<nat>)
    requires rs != []
    ensures Block(rs) == WordBytes(PageOf(rs[0])) + (WordBytes(BlockSize(|rs|)) + (Entries(rs) + Padding(|rs|)))
  {
    hide WordBytes, Entries, BlockSize, PageOf, Padding;
  }

  lemma BlockParts(b: Bytes, p: nat, rs: seq<nat>)
    requires rs != [] && Holds(b, p, Block(rs))
    ensures Holds(b, p, WordBytes(PageOf(rs[0]))) && Holds(b, p + 4, WordBytes(BlockSize(|rs|))) && Holds(b, p + 8, Entries(rs))
    ensures Holds(b, p + 8 + 2 * |rs|, Padding(|rs|))
  {
    hide Block, WordBytes, Entries, BlockSize, PageOf, Padding, Holds;
    BlockIs(rs);
    HoldsParts(b, p, Block(rs), WordBytes(PageOf(rs[0])), WordBytes(BlockSize(|rs|)), Entries(rs), Padding(|rs|), rs);
  }

  lemma ZeroPair(b: Bytes, p: nat)
    requires Holds(b, p, [0, 0])
    ensures U16(b, p) == 0 && p + 2 <= |b|
  {
    assert b[p..p + 2][0] == 0 && b[p..p + 2][1] == 0;
  }

  lemma HoldsFits(b: Bytes, p: nat, s: Bytes)
    requires Holds(b, p, s)
    ensures p + |s| <= |b|
  {
  }

  /** One block in front of a table that is read. */
  lemma BlockFirst(b: Bytes, at: nat, size: nat, done: nat, floor: int, n: nat, first: seq<nat>, rest: seq<nat>)
    requires done + n <= size && 8 <= n && n % 4 == 0 && U32(b, at + done) % 4096 == 0 && U32(b, at + done + 4) == n
    requires floor < U32(b, at + done)
    requires EntriesAt(b, at + done + 8, at + done + n, U32(b, at + done), -1) == Some(first)
    requires BlocksAt(b, at, size, done + n, U32(b, at + done)) == Some(rest)
    ensures BlocksAt(b, at, size, done, floor) == Some(first + rest)
  {
    hide U32, EntriesAt;
  }

  /** The table is read as the sites it was made from. */
  lemma {:induction false} TableRead(b: Bytes, at: nat, size: nat, done: nat, floor: int, rs: seq<nat>)
    requires Holds(b, at + done, Table(rs)) && done + |Table(rs)| == size < W32 && Spaced(rs) && Mapped(b, rs)
    requires rs != [] ==> floor < PageOf(rs[0])
    ensures BlocksAt(b, at, size, done, floor) == Some(rs)
    decreases |rs|
  {
    hide Map, U32, EntriesAt, Block, BlockSize, PageOf, BlocksAt, Table;
    if rs == [] {
      EmptyTable(b, at, size, done, floor);
    } else {
      var n := Run(rs, PageOf(rs[0]));
      var run, rest := rs[..n], rs[n..];
      PartSpaced(rs, n);
      PageAndOffset(rs[0]);
      TableSplit(b, at + done, rs, n);
      BlockRead(b, at + done, run);
      if rest != [] {
        SpacedApart(rs, 0, n);
        LaterPage(rs[0], rs[n]);
      }
      TableRead(b, at, size, done + BlockSize(n), PageOf(rs[0]), rest);
      BlockFirst(b, at, size, done, floor, BlockSize(n), run, rest);
      assert run + rest == rs;
    }
  }

  lemma EmptyTable(b: Bytes, at: nat, size: nat, done: nat, floor: int)
    requires done + |Table([])| == size
    ensures BlocksAt(b, at, size, done, floor) == Some([])
  {
  }

  lemma TableIs(rs: seq<nat>)
    requires rs != []
    ensures var n := Run(rs, PageOf(rs[0])); n > 0 && Table(rs) == Block(rs[..n]) + Table(rs[n..])
  {
    hide Block, BlockSize, PageOf;
  }

  lemma TableSplit(b: Bytes, p: nat, rs: seq<nat>, n: nat)
    requires rs != [] && n == Run(rs, PageOf(rs[0])) && Holds(b, p, Table(rs))
    ensures n > 0 && Holds(b, p, Block(rs[..n])) && Holds(b, p + BlockSize(n), Table(rs[n..]))
    ensures |Table(rs)| == BlockSize(n) + |Table(rs[n..])|
  {
    hide Block, BlockSize, PageOf, Holds, Run, Table;
    TableIs(rs);
    HoldsPart(b, p, Table(rs), 0, Block(rs[..n]));
    HoldsPart(b, p, Table(rs), BlockSize(n), Table(rs[n..]));
  }

  // ----- Acceptance -----

  lemma ImageHeaders(b: Bytes, a: Artifact)
    requires Packable(a) && IsImage(b, a)
    ensures HeadersOk(b) && Count(b) == 4 && HeaderSize(b) == 1024 && ImageSize(b) == FrameOf(a).Image()
  {
    hide U32, U16, Raw512, HeadersAre, Table, Pages, FrameOf, DirectoryOk;
    FrameFits(a);
    var f := FrameOf(a);
    HeadFields(b, f);
    OptionalFields(b, f);
    DirectoryFields(b, f);
    ImageIsPages(f);
  }

  lemma ImageIsPages(f: Frame)
    ensures f.Image() % 4096 == 0
  {
    hide Multiple;
    MultipleIs(f.layout.reloc + f.reloc, 4096);
  }

  lemma ImageSection(b: Bytes, a: Artifact, j: nat)
    requires Packable(a) && IsImage(b, a) && j < 4
    ensures SectionCanonical(b, j)
  {
    hide U32, U16, HeadersAre, Table, Pages, FrameOf, SectionFrom, Raw512, Sites, Spaced;
    FrameFits(a);
    FrameSizes(a);
    var f := FrameOf(a);
    HeadFields(b, f);
    OptionalFields(b, f);
    EverySection(b, f);
    SectionFields(b, f, j);
    NextIs(f, j);
    if j > 0 {
      NextIs(f, j - 1);
    }
  }

  /** Each section begins where the last one ended, in the file and, at the next page, in memory. */
  lemma NextIs(f: Frame, j: nat)
    requires j < 4 && f.layout.text == 4096 && f.layout.rdata == Pages(4096 + f.text)
    requires f.layout.data == Pages(f.layout.rdata + f.rdata) && f.layout.reloc == Pages(f.layout.data + f.data)
    ensures var s := SectionAs(f, j);
            && Pages(s.va + s.vs) == (if j < 3 then SectionAs(f, j + 1).va else f.Image())
            && s.raw + s.rs == (if j < 3 then SectionAs(f, j + 1).raw else f.Size())
            && s.rs % 512 == 0 && s.vs <= s.rs && !WriteAndExecute(s)
  {
    hide Pages, Raw512;
    RawIs(SectionAs(f, j).vs);
  }

  lemma RawIs(n: nat)
    ensures Raw512(n) % 512 == 0 && Pages(n) % 4096 == 0
  {
    hide Multiple;
    MultipleIs(n, 512);
    MultipleIs(n, 4096);
  }

  lemma ImageSections(b: Bytes, a: Artifact)
    requires Packable(a) && IsImage(b, a)
    ensures SectionsOk(b)
  {
    hide U32, U16, HeadersAre, Table, Pages, FrameOf, SectionFrom, SectionCanonical, Raw512;
    FrameFits(a);
    FrameSizes(a);
    var f := FrameOf(a);
    ImageHeaders(b, a);
    OptionalFields(b, f);
    forall j: nat | j < Count(b)
      ensures SectionCanonical(b, j)
    {
      ImageSection(b, a, j);
    }
    EverySection(b, f);
    NextIs(f, 3);
    assert EntryIn(b, SectionOf(b, 0));
  }

  lemma ImageTable(b: Bytes, a: Artifact)
    requires Packable(a) && IsImage(b, a)
    ensures TableAt(b) == Some(FrameOf(a).RelocAt()) && U32(b, Nt(b) + 180) == |Table(Sites(a))| > 0
  {
    hide U32, U16, HeadersAre, Table, FrameOf, SectionFrom, Sort, Spaced, Sites;
    FrameFits(a);
    FrameSizes(a);
    var f := FrameOf(a);
    HeadFields(b, f);
    DirectoryFields(b, f);
    EverySection(b, f);
    RelocInLast(f);
    assert Map(b, 3, f.layout.reloc, f.reloc) == Some(f.RelocAt());
    assert Map(b, 2, f.layout.reloc, f.reloc) == Some(f.RelocAt());
    assert Map(b, 1, f.layout.reloc, f.reloc) == Some(f.RelocAt());
  }

  lemma RelocInLast(f: Frame)
    requires f.layout.text + f.text <= f.layout.rdata && f.layout.rdata + f.rdata <= f.layout.data
    requires f.layout.data + f.data <= f.layout.reloc && f.reloc > 0
    ensures Contains(SectionAs(f, 3), f.layout.reloc, f.reloc)
    ensures forall j :: 0 <= j < 3 ==> !Contains(SectionAs(f, j), f.layout.reloc, f.reloc)
  {
  }

  /** The inspector accepts every file of the writer, and the sites it decodes are the anchor and
      the artifact's base relocations, each once, in increasing order. */
  lemma ImageInspected(b: Bytes, a: Artifact)
    requires Packable(a) && IsImage(b, a)
    ensures Inspected(b) && EntryOf(b) == 4096 + a.entry && SitesOf(b) == Some(Sites(a))
  {
    hide U32, U16, HeadersAre, FrameOf, SectionsOk, HeadersOk, Table, Map, Sort;
    FrameFits(a);
    FrameSizes(a);
    ImageHeaders(b, a);
    ImageSections(b, a);
    ImageTable(b, a);
    OptionalFields(b, FrameOf(a));
    SitesAre(a);
    forall i | 0 <= i < |Sites(a)|
      ensures Sites(a)[i] < W32 && Map(b, 0, Sites(a)[i], 8).Some?
    {
      SiteMapped(b, a, Sites(a)[i]);
    }
    TableRead(b, FrameOf(a).RelocAt(), |Table(Sites(a))|, 0, -1, Sites(a));
  }

  lemma RawInPages(n: nat)
    ensures Raw512(n) <= Pages(n)
  {
    hide Raw512, Pages;
    RawIs(n);
    var k, j := Pages(n) / 4096, Raw512(n) / 512;
    assert Pages(n) == 512 * (8 * k) && Raw512(n) == 512 * j;
  }

  lemma PagesFrom(base: nat, n: nat)
    requires base % 4096 == 0
    ensures Pages(base + n) == base + Pages(n)
  {
    hide Multiple;
    MultipleIs(base + n, 4096);
    MultipleIs(n, 4096);
  }

  /** In memory a section's raw bytes end before the next page. */
  lemma SpanEnds(f: Frame, j: nat)
    requires j < 4 && f.layout.text == 4096 && f.layout.rdata == Pages(4096 + f.text)
    requires f.layout.data == Pages(f.layout.rdata + f.rdata) && f.layout.reloc == Pages(f.layout.data + f.data)
    ensures var s := SectionAs(f, j);
            s.va + SpanOf(s) <= (if j < 3 then SectionAs(f, j + 1).va else f.Image()) && s.va % 4096 == 0 && s.va >= 4096
  {
    hide Raw512, Pages;
    var s := SectionAs(f, j);
    NextIs(f, j);
    RawIs(4096 + f.text);
    RawIs(f.layout.rdata + f.rdata);
    RawIs(f.layout.data + f.data);
    RawInPages(s.vs);
    PagesFrom(s.va, s.vs);
  }

  lemma SpansApart(f: Frame, i: nat, j: nat)
    requires j < i < 4 && f.layout.text == 4096 && f.layout.rdata == Pages(4096 + f.text)
    requires f.layout.data == Pages(f.layout.rdata + f.rdata) && f.layout.reloc == Pages(f.layout.data + f.data)
    ensures SectionAs(f, j).va + SpanOf(SectionAs(f, j)) <= SectionAs(f, i).va
    decreases i
  {
    hide Raw512, Pages;
    SpanEnds(f, i - 1);
    if j < i - 1 {
      SpansApart(f, i - 1, j);
      SpanEnds(f, j);
    }
  }

  /** And the loader's validator accepts it with the same entry. */
  lemma ImageLoads(b: Bytes, a: Artifact)
    requires Packable(a) && IsImage(b, a)
    ensures Loadable(b, false) && EntryOf(b) == 4096 + a.entry
  {
    hide U32, U16, HeadersAre, FrameOf, Table, SectionFrom, Raw512, Pages, SectionAs, LoadedSection;
    FrameFits(a);
    FrameSizes(a);
    var f := FrameOf(a);
    ImageHeaders(b, a);
    OptionalFields(b, f);
    EverySection(b, f);
    forall i: nat | i < 4
      ensures Placed(b, false, SectionAs(f, i))
    {
      SectionPlaced(b, f, i);
    }
    forall i: nat, j: nat | j < i < 4
      ensures !Overlap(SectionAs(f, i), SectionAs(f, j))
    {
      SpansApart(f, i, j);
    }
    EntryPlaced(b, f);
  }

  lemma SectionPlaced(b: Bytes, f: Frame, i: nat)
    requires i < 4 && f.layout.text == 4096 && f.layout.rdata == Pages(4096 + f.text)
    requires f.layout.data == Pages(f.layout.rdata + f.rdata) && f.layout.reloc == Pages(f.layout.data + f.data)
    requires |b| == f.Size() && HeaderSize(b) == 1024 && ImageSize(b) == f.Image()
    ensures Placed(b, false, SectionAs(f, i))
  {
    hide Raw512, Pages, HeaderSize, ImageSize;
    SpanEnds(f, i);
    if i < 3 {
      SpansApart(f, 3, i);
      SpanEnds(f, 3);
    }
  }

  lemma EntryPlaced(b: Bytes, f: Frame)
    requires f.layout.text == 4096 && EntryOf(b) == 4096 + f.entry && f.entry < f.text
    ensures EntryHeld(b, SectionAs(f, 0))
  {
    hide EntryOf;
  }

  /** Writing, inspecting and loading in one: no artifact that is written is refused. */
  method WriteAndCheck(a: Artifact) returns (info: Option<Info>, entry: Option<nat>)
    ensures Packable(a) ==> entry == Some(4096 + a.entry) && info.Some?
    ensures Packable(a) ==> info.value.entry == 4096 + a.entry && info.value.relocations == |a.bases| + 1
    ensures !Packable(a) ==> info.None? && entry.None?
  {
    hide Packable, IsImage, Inspected, Loadable, SitesOf, EntryOf, ImageSize, HeaderSize, Count, Sites;
    var b := MakePe(a);
    if b.None? {
      return None, None;
    }
    ImageInspected(b.value, a);
    ImageLoads(b.value, a);
    SitesAre(a);
    info := Inspect(b.value);
    entry := ValidatePe(b.value, false);
  }

  // ----- Materialised objects -----

  lemma ArtifactSized(a: Artifact, o: Object)
    requires Materializable(o) && IsArtifact(a, o)
    ensures Sized(a) && SitesIn(a) && LayoutFor(a) == LayoutOf(|o.sections[0]|, |o.sections[1]|, |o.sections[2]|).value
  {
    hide ValueAt, Stored, Untouched, Pages, RelocBefore, ValidText;
    assert forall j :: 0 <= j < 3 ==> |a.sections[j]| == |o.sections[j]|;
    assert ValidSymbol(o.sections, o.symbols[o.entry - 1]);
    AbsolutesCount(o.relocs, |o.relocs|);
    forall k: nat | k < |a.bases|
      ensures SiteIn(a, k)
    {
      var i := AbsoluteOf(o.relocs, |o.relocs|, k);
      assert ValidReloc(o.sections, |o.symbols|, o.relocs[i]);
    }
  }

  lemma {:induction false} AbsolutesCount(rs: seq<Reloc>, k: nat)
    requires k <= |rs|
    ensures |Absolutes(rs, k)| <= k
  {
    if k > 0 {
      AbsolutesCount(rs, k - 1);
    }
  }

  lemma {:induction false} AbsoluteOf(rs: seq<Reloc>, n: nat, k: nat) returns (i: nat)
    requires n <= |rs| && k < |Absolutes(rs, n)|
    ensures i < n && rs[i].kind == DIR64 && Absolutes(rs, n)[k] == (rs[i].section, rs[i].offset)
  {
    if k < |Absolutes(rs, n - 1)| {
      i := AbsoluteOf(rs, n - 1, k);
    } else {
      i := n - 1;
    }
  }

  lemma {:induction false} AbsolutesApart(rs: seq<Reloc>, n: nat, k: nat, m: nat)
    requires n <= |rs| && Ordered(rs, RelocBefore) && k < m < |Absolutes(rs, n)|
    ensures var x, y := Absolutes(rs, n)[k], Absolutes(rs, n)[m]; x.0 < y.0 || (x.0 == y.0 && x.1 + 8 <= y.1)
    decreases n
  {
    if m < |Absolutes(rs, n - 1)| {
      AbsolutesApart(rs, n - 1, k, m);
    } else {
      var i := AbsoluteOf(rs, n - 1, k);
      assert RelocBefore(rs[i], rs[n - 1]);
    }
  }

  /** The anchor lies before the data of its section and behind the text, so the addresses of sites
      that are apart in the object are apart in the image. */
  lemma RvasApart(a: Artifact, o: Object, k: nat, m: nat)
    requires Materializable(o) && IsArtifact(a, o) && Sized(a) && SitesIn(a) && k < m <= |a.bases|
    ensures Rvas(a)[k] + 8 <= Rvas(a)[m] || Rvas(a)[m] + 8 <= Rvas(a)[k]
  {
    hide ValueAt, Patched, Pages, Valid, Closed;
    assert SiteIn(a, m - 1);
    LayoutApart(a);
    if k > 0 {
      assert SiteIn(a, k - 1);
      ObjectOrdered(o);
      AbsolutesApart(o.relocs, |o.relocs|, k - 1, m - 1);
    }
  }

  lemma ObjectOrdered(o: Object)
    requires Valid(o)
    ensures Ordered(o.relocs, RelocBefore)
  {
  }

  lemma LayoutApart(a: Artifact)
    requires Sized(a)
    ensures var l := LayoutFor(a);
            l.text + |a.sections[0]| <= l.rdata && l.rdata + 8 + |a.sections[1]| <= l.data
  {
    SectionsApart(|a.sections[0]|, |a.sections[1]|, |a.sections[2]|);
  }

  /** Sorted addresses that are pairwise apart have gaps. */
  lemma SortedSpaced(rs: seq<nat>)
    requires forall k, m :: 0 <= k < m < |rs| ==> rs[k] + 8 <= rs[m] || rs[m] + 8 <= rs[k]
    ensures Spaced(Sort(rs, UpTo))
  {
    hide Sort;
    SortSorts(rs, UpTo);
    var s := Sort(rs, UpTo);
    SameElements(s, rs);
    assert Distinct(rs);
    RearrangedDistinct(rs, s);
    forall i | 0 < i < |s|
      ensures s[i - 1] + 8 <= s[i]
    {
      assert UpTo(s[i - 1], s[i]) && s[i - 1] != s[i] && s[i - 1] in s && s[i] in s;
      var k :| 0 <= k < |rs| && rs[k] == s[i - 1];
      var m :| 0 <= m < |rs| && rs[m] == s[i];
    }
  }

  /** What materialisation gives can always be written as an image. */
  lemma MaterializedIsPackable(a: Artifact, o: Object)
    requires Materializable(o) && IsArtifact(a, o)
    ensures Packable(a)
  {
    hide Materializable, IsArtifact, Sized, SiteIn, Sort, Spaced;
    ArtifactSized(a, o);
    var rs := Rvas(a);
    forall k, m | 0 <= k < m < |rs|
      ensures rs[k] + 8 <= rs[m] || rs[m] + 8 <= rs[k]
    {
      RvasApart(a, o, k, m);
    }
    SortedSpaced(rs);
  }
}
